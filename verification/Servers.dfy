/** The multi-client server of src/matf_vpn/multi_server.py, as a step machine on values. */
module Servers {
  import opened Outcome
  import opened Octets
  import opened Protocol
  import opened Transport
  import opened Sequences
  import opened Lru
  import opened Ciphers
  import opened Handshake
  import opened SessionTables

  const HANDSHAKE_CACHE_SIZE: nat := 1024

  datatype ClientIdentity = ClientIdentity(name: string, tunnel: nat, publicKey: Bytes)

  datatype Config = Config(privateKey: Bytes, clients: seq<ClientIdentity>, packetsPerKey: int)

  /** What the hello cache keeps of an accepted hello. */
  datatype Grant = Grant(response: Packet, info: SessionInfo, identity: ClientIdentity, serial: nat)

  /** An answered hello: the packet, who was recognised, the randomness drawn, the answer, and whether it was new. */
  datatype HelloEvent = HelloEvent(hello: Packet, remote: Address, identity: ClientIdentity, draw: Draw,
                                   response: Packet, isNew: bool)

  datatype Server = Server(tables: Tables, cache: OrderedDict<Bytes, Grant>, events: seq<HelloEvent>)

  datatype ServerInput = ServerInput(tun: Option<Bytes>, udp: Option<Datagram>, draw: Draw, taken: int)

  function Fingerprint(hello: Packet): Result<Bytes> {
    match Encode(hello) case Err(e) => Err(e) case Ok(data) => Ok(Spread(Digest(data), 32))
  }

  /** The hello does not verify under the key of this client. */
  predicate Unverified(cfg: Config, client: ClientIdentity, hello: Packet, draw: Draw)
    requires draw.Proper()
  {
    AcceptClientHello(hello, cfg.privateKey, client.publicKey, draw).Err?
  }

  /** The first registered client whose key verifies the hello. */
  function Recognise(cfg: Config, clients: seq<ClientIdentity>, hello: Packet, draw: Draw)
    : (r: Option<(ClientIdentity, Acceptance)>)
    requires draw.Proper()
    ensures match r
      case None => forall i :: 0 <= i < |clients| ==> Unverified(cfg, clients[i], hello, draw)
      case Some((identity, a)) =>
        && AcceptClientHello(hello, cfg.privateKey, identity.publicKey, draw) == Ok(a)
        && exists k :: 0 <= k < |clients| && clients[k] == identity
             && forall i :: 0 <= i < k ==> Unverified(cfg, clients[i], hello, draw)
  {
    if clients == [] then None
    else
      match AcceptClientHello(hello, cfg.privateKey, clients[0].publicKey, draw)
      case Ok(a) =>
        assert clients[0] == clients[0];
        Some((clients[0], a))
      case Err(_) =>
        var r := Recognise(cfg, clients[1..], hello, draw);
        FirstLater(cfg, clients, hello, draw, r);
        r
  }

  lemma FirstLater(cfg: Config, clients: seq<ClientIdentity>, hello: Packet, draw: Draw,
                   r: Option<(ClientIdentity, Acceptance)>)
    requires draw.Proper() && clients != [] && Unverified(cfg, clients[0], hello, draw)
    requires match r
      case None => forall i :: 0 <= i < |clients| - 1 ==> Unverified(cfg, clients[1..][i], hello, draw)
      case Some((identity, _)) =>
        exists k :: 0 <= k < |clients| - 1 && clients[1..][k] == identity
          && forall i :: 0 <= i < k ==> Unverified(cfg, clients[1..][i], hello, draw)
    ensures match r
      case None => forall i :: 0 <= i < |clients| ==> Unverified(cfg, clients[i], hello, draw)
      case Some((identity, _)) =>
        exists k :: 0 <= k < |clients| && clients[k] == identity
          && forall i :: 0 <= i < k ==> Unverified(cfg, clients[i], hello, draw)
  {
    hide Unverified;
    var rest := clients[1..];
    match r
    case None =>
      forall i | 0 <= i < |clients| ensures Unverified(cfg, clients[i], hello, draw) {
        if i > 0 { assert clients[i] == rest[i - 1]; }
      }
    case Some((identity, _)) =>
      var k :| 0 <= k < |clients| - 1 && rest[k] == identity
        && forall i :: 0 <= i < k ==> Unverified(cfg, rest[i], hello, draw);
      forall i | 0 <= i < k + 1 ensures Unverified(cfg, clients[i], hello, draw) {
        if i > 0 { assert clients[i] == rest[i - 1]; }
      }
      assert clients[k + 1] == identity;
  }

  function NewInfo(cfg: Config, hello: Packet, remote: Address, identity: ClientIdentity, a: Acceptance)
    : (r: SessionInfo)
    requires |a.secret| == 32 && 0 <= hello.sessionId <= MAX_SESSION_ID && cfg.packetsPerKey >= 0
    ensures r.Proper()
  {
    SessionInfo(remote, identity.tunnel, hello.sessionId,
                CreateCipher(a.secret, hello.sessionId, Role.SERVER, cfg.packetsPerKey).value)
  }

  datatype Decision = Ignored | Failed(error: Error) | Answered(grant: Grant, isNew: bool)

  /** `ClientRegistry.accept`: the cache afterwards and the decision; a new session gets number `serial`. */
  function Accept(cfg: Config, cache: OrderedDict<Bytes, Grant>, hello: Packet, remote: Address, draw: Draw,
                  serial: nat)
    : (r: (OrderedDict<Bytes, Grant>, Decision))
    requires draw.Proper()
    ensures !r.1.Answered? ==> r.0 == cache
  {
    if hello.kind != MessageType.CLIENT_HELLO then (cache, Ignored)
    else
      match Fingerprint(hello)
      case Err(e) => (cache, Failed(e))
      case Ok(f) =>
        if f in cache.items then (cache.MoveToEnd(f), Answered(cache.items[f], false))
        else
          match Recognise(cfg, cfg.clients, hello, draw)
          case None => (cache, Ignored)
          case Some((identity, a)) =>
            if cfg.packetsPerKey < 0 then (cache, Failed(ValueError))
            else
              var grant := Grant(a.response, NewInfo(cfg, hello, remote, identity, a), identity, serial);
              (Store(cache, f, grant, HANDSHAKE_CACHE_SIZE), Answered(grant, true))
  }

  /** The tables an answer leaves. */
  ghost function AnsweredTables(t: Tables, data: Bytes, peer: Address, serial: nat, info: SessionInfo, isNew: bool)
    : (Tables, Option<Error>) {
    var u := Answering(t, data, peer, serial);
    if isNew then ReplaceSession(u, Session(serial, info, 0, {})) else (u, None)
  }

  /** The UDP half of a pass. */
  ghost function HandleDatagram(cfg: Config, s: Server, d: Datagram, draw: Draw, taken: int): (Server, Result<bool>)
    requires draw.Proper() && ProperTables(s.tables)
  {
    match Receive(d.data)
    case Err(_) => (s, Ok(false))
    case Ok(p) =>
      var (cache, decision) := Accept(cfg, s.cache, p, d.peer, draw, |s.events|);
      match decision
      case Failed(e) => (s, Err(e))
      case Ignored =>
        var (t, r) := HandleUdp(s.tables, p, d.peer, taken);
        (s.(tables := t), r)
      case Answered(grant, isNew) =>
        match Encode(grant.response)
        case Err(e) => (s.(cache := cache), Err(e))
        case Ok(data) =>
          var event := HelloEvent(p, d.peer, grant.identity, draw, grant.response, isNew);
          var (u, error) := AnsweredTables(s.tables, data, d.peer, grant.serial, grant.info, isNew);
          (Server(u, cache, s.events + [event]), if error.Some? then Err(error.value) else Ok(false))
  }

  ghost function Step(cfg: Config, s: Server, i: ServerInput): (Server, Result<nat>)
    requires i.draw.Proper() && ProperTables(s.tables) && Bijective(s.tables)
  {
    HandleTunEffect(s.tables, if i.tun.Some? then i.tun.value else []);
    var (t, tun) := if i.tun.Some? then HandleTun(s.tables, i.tun.value) else (s.tables, Ok(false));
    if tun.Err? then (s.(tables := t), Err(tun.error))
    else
      var a := s.(tables := t);
      var (b, udp) := if i.udp.Some? then HandleDatagram(cfg, a, i.udp.value, i.draw, i.taken) else (a, Ok(false));
      if udp.Err? then (b, Err(udp.error))
      else (b, Ok((if tun.value then 1 else 0) + (if udp.value then 1 else 0)))
  }

  // ----- the joint invariant

  function Touched(events: seq<HelloEvent>): (r: seq<Bytes>)
    ensures |r| == |events|
  {
    if events == [] then []
    else
      var f := Fingerprint(events[|events| - 1].hello);
      Touched(events[..|events| - 1]) + [if f.Ok? then f.value else []]
  }

  /** The response is that to the hello which opened session `grant.serial`. */
  ghost predicate Backed(events: seq<HelloEvent>, grant: Grant) {
    grant.serial < |events| && events[grant.serial].isNew && events[grant.serial].response == grant.response
  }

  lemma BackedGrows(events: seq<HelloEvent>, e: HelloEvent, grant: Grant)
    requires Backed(events, grant) || (grant.serial == |events| && e.isNew && e.response == grant.response)
    ensures Backed(events + [e], grant)
  {
  }

  /** The hello cache is an LRU cache over the fingerprints answered so far. */
  ghost predicate CacheInv(s: Server) {
    && s.cache.WellFormed()
    && s.cache.order == Recent(Touched(s.events), HANDSHAKE_CACHE_SIZE)
    && (forall f :: f in s.cache.items ==> f in Touched(s.events))
    && (forall f :: f in s.cache.items ==>
          && s.cache.items[f].response == s.events[LastTouch(Touched(s.events), f)].response
          && Encode(s.cache.items[f].response).Ok?
          && Backed(s.events, s.cache.items[f]))
  }

  /** Event `i` is new exactly if its hello was not cached, and otherwise repeats the answer to the same hello. */
  ghost predicate EventInv(events: seq<HelloEvent>, i: nat)
    requires i < |events|
  {
    var fs := Touched(events[..i]);
    && Fingerprint(events[i].hello).Ok?
    && var f := Fingerprint(events[i].hello).value;
    && (events[i].isNew <==> f !in Recent(fs, HANDSHAKE_CACHE_SIZE))
    && (!events[i].isNew ==> f in fs && events[i].response == events[LastTouch(fs, f)].response)
  }

  /** The hello verified under the key of a registered client, and the response is the one computed for it. */
  ghost predicate VouchedHello(cfg: Config, e: HelloEvent) {
    && cfg.packetsPerKey >= 0 && e.identity in cfg.clients && e.draw.Proper()
    && AcceptClientHello(e.hello, cfg.privateKey, e.identity.publicKey, e.draw).Ok?
    && e.response == AcceptClientHello(e.hello, cfg.privateKey, e.identity.publicKey, e.draw).value.response
  }

  /** Hello number `serial` opened a session, for a registered client. */
  ghost predicate Opened(cfg: Config, events: seq<HelloEvent>, serial: nat) {
    serial < |events| && events[serial].isNew && VouchedHello(cfg, events[serial])
  }

  /** The session that hello opened: its client's addresses, and the cipher for the secret of the key exchange. */
  ghost function InfoOf(cfg: Config, events: seq<HelloEvent>, serial: nat): SessionInfo
    requires Opened(cfg, events, serial)
  {
    var e := events[serial];
    NewInfo(cfg, e.hello, e.remote, e.identity,
            AcceptClientHello(e.hello, cfg.privateKey, e.identity.publicKey, e.draw).value)
  }

  ghost predicate EventsVouched(cfg: Config, events: seq<HelloEvent>) {
    forall i :: 0 <= i < |events| && events[i].isNew ==> VouchedHello(cfg, events[i])
  }

  /** A live session was established by a hello that verified under the key of the client whose address it serves. */
  ghost predicate Vouched(cfg: Config, events: seq<HelloEvent>, s: Session) {
    Opened(cfg, events, s.serial) && s.info == InfoOf(cfg, events, s.serial)
  }

  /** The packet is one of this session, and opens under its keys to `payload`. */
  ghost predicate Authentic(info: SessionInfo, p: Packet, payload: Bytes) {
    && info.cipher.Usable() && Encode(p).Ok?
    && p.kind == DATA && p.sessionId == info.sessionId
    && info.cipher.Decrypt(p) == Ok(p.(payload := payload))
  }

  /** A TUN write comes from a session of a registered client, was sealed for it, and bears that client's address. */
  ghost predicate Delivered(cfg: Config, events: seq<HelloEvent>, d: ClientDelivery) {
    && Opened(cfg, events, d.serial)
    && var info := InfoOf(cfg, events, d.serial);
    && d.tunnel == info.tunnel && Authentic(info, d.packet, d.payload)
    && ValidIpv4(d.payload) && Ipv4Source(d.payload) == Some(d.tunnel)
  }

  /** The numbers of the packets delivered from session `serial`. */
  function Numbers(written: seq<ClientDelivery>, serial: nat): set<int> {
    set k | 0 <= k < |written| && written[k].serial == serial :: written[k].packet.sequence
  }

  /** The TUN log: all of it authentic, nothing twice, and marked in the windows, which hold nothing else. */
  ghost predicate DeliveryInv(cfg: Config, t: Tables, events: seq<HelloEvent>) {
    && (forall k :: 0 <= k < |t.written| ==> Delivered(cfg, events, t.written[k]))
    && (forall j, k :: 0 <= j < k < |t.written| ==>
          !(t.written[j].serial == t.written[k].serial && t.written[j].packet.sequence == t.written[k].packet.sequence))
    && (forall key :: key in t.sessions ==> t.sessions[key].marks == Numbers(t.written, t.sessions[key].serial))
  }

  /** How many packets were sealed for a session. */
  function SealedFor(log: seq<Origin>, serial: nat): nat {
    if log == [] then 0
    else
      var x := log[|log| - 1];
      SealedFor(log[..|log| - 1], serial) + (if x.Transmission? && x.serial == serial then 1 else 0)
  }

  /** Both are packets of one session. */
  ghost predicate SameSession(log: seq<Origin>, j: nat, k: nat)
    requires j < |log| && k < |log|
  {
    log[j].Transmission? && log[k].Transmission? && log[j].serial == log[k].serial
  }

  /** Session packet number `x.sequence`, before encryption. */
  ghost function PacketOf(info: SessionInfo, x: Origin): Packet
    requires x.Transmission?
  {
    Packet(DATA, info.sessionId, x.sequence, x.payload)
  }

  /**
   A datagram is the response of an opened session, or one of its packets, sealed, for the client it is addressed to.
   */
  ghost predicate Accounted(cfg: Config, events: seq<HelloEvent>, d: Datagram, x: Origin) {
    && Opened(cfg, events, x.serial)
    && match x
       case Reply(_) => Encode(events[x.serial].response) == Ok(d.data)
       case Transmission(_, sequence, payload) =>
         var info := InfoOf(cfg, events, x.serial);
         && sequence <= MAX_SEQUENCE_NUMBER && info.cipher.Usable()
         && d.peer == info.remote && Ipv4Destination(payload) == Some(info.tunnel)
         && Carries(info.cipher, PacketOf(info, x), d.data)
  }

  /** What was sent: all of it accounted for, and each session's packets numbered 0, 1, 2 and so on. */
  ghost predicate SendingInv(cfg: Config, t: Tables, events: seq<HelloEvent>) {
    && |t.origins| == |t.sent|
    && (forall k :: 0 <= k < |t.sent| ==> Accounted(cfg, events, t.sent[k], t.origins[k]))
    && (forall k :: 0 <= k < |t.origins| && t.origins[k].Transmission? ==>
          t.origins[k].sequence == SealedFor(t.origins[..k], t.origins[k].serial))
    && (forall key :: key in t.sessions ==>
          t.sessions[key].sendSequence == SealedFor(t.origins, t.sessions[key].serial))
  }

  lemma {:induction false} SealedForNobody(log: seq<Origin>, serial: nat)
    requires forall k :: 0 <= k < |log| && log[k].Transmission? ==> log[k].serial != serial
    ensures SealedFor(log, serial) == 0
    decreases |log|
  {
    if log != [] { SealedForNobody(log[..|log| - 1], serial); }
  }

  /** A later packet of one session has a later number. */
  lemma {:induction false} LaterSealing(log: seq<Origin>, j: nat, k: nat)
    requires j < k <= |log| && log[j].Transmission?
    ensures SealedFor(log[..j], log[j].serial) < SealedFor(log[..k], log[j].serial)
    decreases k
  {
    assert log[..k][..k - 1] == log[..k - 1];
    if j < k - 1 { LaterSealing(log, j, k - 1); }
  }

  ghost predicate SessionInv(cfg: Config, t: Tables, events: seq<HelloEvent>) {
    && Bijective(t) && ProperTables(t)
    && (forall k :: k in t.sessions ==> Vouched(cfg, events, t.sessions[k]))
    && (forall k, k' :: k in t.sessions && k' in t.sessions && k != k' ==>
          t.sessions[k].serial != t.sessions[k'].serial)
  }

  ghost predicate Inv(cfg: Config, s: Server) {
    && EventsVouched(cfg, s.events)
    && SessionInv(cfg, s.tables, s.events)
    && CacheInv(s)
    && (forall i :: 0 <= i < |s.events| ==> EventInv(s.events, i))
    && DeliveryInv(cfg, s.tables, s.events)
    && SendingInv(cfg, s.tables, s.events)
  }

  // ----- steps keep it

  lemma TouchedGrows(events: seq<HelloEvent>, e: HelloEvent)
    requires Fingerprint(e.hello).Ok?
    ensures Touched(events + [e]) == Touched(events) + [Fingerprint(e.hello).value]
  {
    assert (events + [e])[..|events|] == events;
  }

  lemma {:induction false} TouchedAt(events: seq<HelloEvent>, i: nat)
    requires i < |events| && Fingerprint(events[i].hello).Ok?
    ensures Touched(events)[i] == Fingerprint(events[i].hello).value
    ensures Touched(events)[..i] == Touched(events[..i])
    decreases |events|
  {
    var init := events[..|events| - 1];
    if i < |init| {
      TouchedAt(init, i);
      assert init[..i] == events[..i];
    }
  }

  // The tables' invariants under the changes a step can make.

  ghost predicate Kept(t: Tables, u: Tables, k: SessionKey)
    requires k in u.sessions
  {
    && k in t.sessions
    && u.sessions[k].serial == t.sessions[k].serial && u.sessions[k].info == t.sessions[k].info
    && t.sessions[k].marks <= u.sessions[k].marks && t.sessions[k].sendSequence <= u.sessions[k].sendSequence
  }

  lemma VouchedIgnoresCounters(cfg: Config, events: seq<HelloEvent>, s: Session, s': Session)
    requires Vouched(cfg, events, s) && s'.serial == s.serial && s'.info == s.info
    ensures Vouched(cfg, events, s')
  {
  }

  lemma UpdateKeepsSessions(cfg: Config, t: Tables, u: Tables, events: seq<HelloEvent>)
    requires SessionInv(cfg, t, events)
    requires u.sessions.Keys == t.sessions.Keys && u.routes == t.routes
    requires forall k :: k in u.sessions ==> Kept(t, u, k)
    ensures SessionInv(cfg, u, events)
  {
    hide Vouched;
    forall k | k in u.sessions ensures Vouched(cfg, events, u.sessions[k]) && u.sessions[k].info.Proper() {
      VouchedIgnoresCounters(cfg, events, t.sessions[k], u.sessions[k]);
    }
  }

  /** Nothing was sealed for or delivered from this session yet. */
  ghost predicate Unused(t: Tables, serial: nat) {
    && (forall k :: 0 <= k < |t.origins| && t.origins[k].Transmission? ==> t.origins[k].serial != serial)
    && (forall k :: 0 <= k < |t.written| ==> t.written[k].serial != serial)
  }

  lemma NextSerialUnused(cfg: Config, t: Tables, events: seq<HelloEvent>)
    requires DeliveryInv(cfg, t, events) && SendingInv(cfg, t, events)
    ensures Unused(t, |events|)
  {
    hide Authentic, Carries, AcceptClientHello, InfoOf, SealedFor, VouchedHello, Ipv4Source, Ipv4Destination, ValidIpv4;
    assert forall k :: 0 <= k < |t.sent| ==> Accounted(cfg, events, t.sent[k], t.origins[k]);
  }

  lemma DeliveriesKept(cfg: Config, t: Tables, u: Tables, events: seq<HelloEvent>)
    requires DeliveryInv(cfg, t, events) && u.written == t.written
    requires forall k :: k in u.sessions ==>
      || (Kept(t, u, k) && u.sessions[k].marks == t.sessions[k].marks)
      || (Unused(t, u.sessions[k].serial) && u.sessions[k].marks == {})
    ensures DeliveryInv(cfg, u, events)
  {
    hide Delivered;
  }

  lemma SendingKept(cfg: Config, t: Tables, u: Tables, events: seq<HelloEvent>)
    requires SendingInv(cfg, t, events) && u.origins == t.origins && u.sent == t.sent
    requires forall k :: k in u.sessions ==>
      || (Kept(t, u, k) && u.sessions[k].sendSequence == t.sessions[k].sendSequence)
      || (Unused(t, u.sessions[k].serial) && u.sessions[k].sendSequence == 0)
    ensures SendingInv(cfg, u, events)
  {
    hide SealedFor, Accounted;
    forall k | k in u.sessions ensures u.sessions[k].sendSequence == SealedFor(u.origins, u.sessions[k].serial) {
      if Unused(t, u.sessions[k].serial) { SealedForNobody(u.origins, u.sessions[k].serial); }
    }
  }

  lemma OneMoreSealed(log: seq<Origin>, x: Origin, serial: nat)
    ensures SealedFor(log + [x], serial)
      == SealedFor(log, serial) + (if x.Transmission? && x.serial == serial then 1 else 0)
  {
    assert (log + [x])[..|log|] == log;
  }

  /** One more datagram in the log, whether of a session or a response. */
  lemma OneMoreDatagram(cfg: Config, t: Tables, u: Tables, events: seq<HelloEvent>, d: Datagram, x: Origin)
    requires SendingInv(cfg, t, events) && Accounted(cfg, events, d, x)
    requires u.sent == t.sent + [d] && u.origins == t.origins + [x]
    requires x.Transmission? ==> x.sequence == SealedFor(t.origins, x.serial)
    requires forall k :: k in u.sessions ==>
      && k in t.sessions && u.sessions[k].serial == t.sessions[k].serial
      && u.sessions[k].sendSequence
        == t.sessions[k].sendSequence + (if x.Transmission? && x.serial == u.sessions[k].serial then 1 else 0)
    ensures SendingInv(cfg, u, events)
  {
    hide SealedFor, Accounted;
    var log, before := u.origins, t.origins;
    forall k | 0 <= k < |log| && log[k].Transmission? ensures log[k].sequence == SealedFor(log[..k], log[k].serial) {
      assert log[..k] == before[..k] && before[..|before|] == before;
    }
    forall k | k in u.sessions ensures u.sessions[k].sendSequence == SealedFor(log, u.sessions[k].serial) {
      OneMoreSealed(before, x, u.sessions[k].serial);
    }
  }

  lemma ServedIsAccounted(cfg: Config, t: Tables, u: Tables, events: seq<HelloEvent>, key: SessionKey, payload: Bytes,
                          data: Bytes)
    requires SealedNext(t, u, key, payload, data) && Vouched(cfg, events, t.sessions[key])
    ensures Accounted(cfg, events, Datagram(data, t.sessions[key].info.remote),
                      Transmission(t.sessions[key].serial, t.sessions[key].sendSequence, payload))
  {
    hide AcceptClientHello, CreateCipher, Carries, Ipv4Destination;
  }

  /** The tables after one more packet was sealed for session `key`. */
  lemma ServedKeeps(cfg: Config, t: Tables, u: Tables, events: seq<HelloEvent>, key: SessionKey, payload: Bytes,
                    data: Bytes)
    requires SessionInv(cfg, t, events) && DeliveryInv(cfg, t, events) && SendingInv(cfg, t, events)
    requires SealedNext(t, u, key, payload, data)
    ensures SessionInv(cfg, u, events) && DeliveryInv(cfg, u, events) && SendingInv(cfg, u, events)
  {
    hide Vouched, DeliveryInv, Accounted, Carries, Ipv4Destination, SealedFor, Bijective;
    ServedIsAccounted(cfg, t, u, events, key, payload, data);
    var s := t.sessions[key];
    OneMoreDatagram(cfg, t, u, events, Datagram(data, s.info.remote), Transmission(s.serial, s.sendSequence, payload));
    hide SessionInv, SendingInv;
    UpdateKeepsSessions(cfg, t, u, events);
    DeliveriesKept(cfg, t, u, events);
  }

  lemma TunKeeps(cfg: Config, s: Server, payload: Bytes)
    requires Inv(cfg, s)
    ensures Inv(cfg, s.(tables := HandleTun(s.tables, payload).0))
  {
    hide EventsVouched, EventInv, DeliveryInv, SendingInv, Vouched, Bijective, ProperTables, SealedNext;
    var served := ServedSession(s.tables, payload);
    var u := HandleTun(s.tables, payload).0;
    hide HandleTun, SessionInv;
    if served.Some? {
      ServedKeeps(cfg, s.tables, u, s.events, served.value.0, payload, served.value.1);
    }
    CacheIgnoresTables(s, u);
  }

  lemma CacheIgnoresTables(s: Server, t: Tables)
    requires CacheInv(s)
    ensures CacheInv(s.(tables := t))
  {
  }

  /** What a session admits is one of its packets, unseen, and an IPv4 packet from its client's address. */
  lemma AdmittedPacket(cfg: Config, events: seq<HelloEvent>, key: SessionKey, s: Session, p: Packet)
    requires Vouched(cfg, events, s) && s.info.Proper() && Admits(s, p) && Encode(p).Ok?
    requires p.sessionId == s.info.sessionId
    ensures p.sequence !in s.marks && s.info.cipher.Decrypt(p).Ok?
    ensures Delivered(cfg, events, ClientDelivery(s.serial, s.info.tunnel, p, s.info.cipher.Decrypt(p).value.payload))
  {
    hide AcceptClientHello, CreateCipher, Open;
  }

  lemma OneMoreNumber(written: seq<ClientDelivery>, d: ClientDelivery)
    ensures forall serial ::
      Numbers(written + [d], serial)
        == Numbers(written, serial) + (if d.serial == serial then {d.packet.sequence} else {})
  {
    forall serial
      ensures Numbers(written + [d], serial)
        == Numbers(written, serial) + (if d.serial == serial then {d.packet.sequence} else {})
    {
      var more := written + [d];
      assert forall k :: 0 <= k < |written| ==> more[k] == written[k];
      if d.serial == serial { assert more[|written|].packet.sequence in Numbers(more, serial); }
      forall n | n in Numbers(written, serial) ensures n in Numbers(more, serial) {
        var k :| 0 <= k < |written| && written[k].serial == serial && written[k].packet.sequence == n;
        assert more[k].packet.sequence == n;
      }
    }
  }

  lemma NumberHolds(written: seq<ClientDelivery>)
    ensures forall k :: 0 <= k < |written| ==> written[k].packet.sequence in Numbers(written, written[k].serial)
  {
  }

  /** The tables after one more packet was delivered from session `key`. */
  lemma DeliveryKeeps(cfg: Config, t: Tables, u: Tables, events: seq<HelloEvent>, key: SessionKey, p: Packet)
    requires SessionInv(cfg, t, events) && DeliveryInv(cfg, t, events) && SendingInv(cfg, t, events)
    requires key in t.sessions && Admits(t.sessions[key], p) && Encode(p).Ok? && p.sessionId == key.sessionId
    requires u.sessions == t.sessions[key := t.sessions[key].(marks := t.sessions[key].marks + {p.sequence})]
    requires u.routes == t.routes && u.origins == t.origins && u.sent == t.sent
    requires u.written == t.written + [ClientDelivery(t.sessions[key].serial, t.sessions[key].info.tunnel, p,
                                                      t.sessions[key].info.cipher.Decrypt(p).value.payload)]
    ensures SessionInv(cfg, u, events) && DeliveryInv(cfg, u, events) && SendingInv(cfg, u, events)
  {
    hide Vouched, SendingInv, Admits, CipherSpec.Decrypt, Encode, Delivered, Numbers;
    AdmittedPacket(cfg, events, key, t.sessions[key], p);
    OneMoreNumber(t.written, u.written[|t.written|]);
    NumberHolds(t.written);
    hide SessionInv;
    UpdateKeepsSessions(cfg, t, u, events);
    SendingKept(cfg, t, u, events);
  }

  lemma UdpKeeps(cfg: Config, s: Server, p: Packet, peer: Address, taken: int)
    requires Inv(cfg, s) && Encode(p).Ok?
    ensures Inv(cfg, s.(tables := HandleUdp(s.tables, p, peer, taken).0))
  {
    hide EventsVouched, EventInv, DeliveryInv, SendingInv, Vouched, Bijective, ProperTables, CacheInv,
         CipherSpec.Decrypt, Encode;
    HandleUdpEffect(s.tables, p, peer, taken);
    var u := HandleUdp(s.tables, p, peer, taken).0;
    hide HandleUdp, SessionInv;
    var key := SessionKey(peer, p.sessionId);
    if u != s.tables {
      DeliveryKeeps(cfg, s.tables, u, s.events, key, p);
    }
    CacheIgnoresTables(s, u);
  }

  /** What `accept` does to the cache when it answers. */
  lemma AnswerTouches(cfg: Config, cache: OrderedDict<Bytes, Grant>, hello: Packet, remote: Address, draw: Draw,
                      serial: nat)
    requires draw.Proper() && cache.WellFormed() && |cache.order| <= HANDSHAKE_CACHE_SIZE
    requires forall f :: f in cache.items ==> Encode(cache.items[f].response).Ok?
    requires Accept(cfg, cache, hello, remote, draw, serial).1.Answered?
    ensures Fingerprint(hello).Ok?
    ensures var f := Fingerprint(hello).value;
      var (after, d) := Accept(cfg, cache, hello, remote, draw, serial);
      && after.WellFormed() && after.order == Touch(cache.order, f, HANDSHAKE_CACHE_SIZE)
      && (d.isNew <==> f !in cache.order)
      && f in after.items && after.items[f] == d.grant
      && (if d.isNew then d.grant.serial == serial else d.grant == cache.items[f])
      && (forall g :: g in after.items && g != f ==> g in cache.items && after.items[g] == cache.items[g])
      && Encode(d.grant.response).Ok?
  {
    var f := Fingerprint(hello).value;
    hide AcceptClientHello, CreateCipher, Encode;
    if f in cache.items {
      HitTouches(cache, f, HANDSHAKE_CACHE_SIZE);
    } else {
      MissTouches(cache, f, Accept(cfg, cache, hello, remote, draw, serial).1.grant, HANDSHAKE_CACHE_SIZE);
    }
  }

  /** The cache and the event log after an answer to the hello with fingerprint `f`. */
  lemma AnswerKeepsCache(s: Server, cache: OrderedDict<Bytes, Grant>, e: HelloEvent, f: Bytes)
    requires CacheInv(s) && Fingerprint(e.hello) == Ok(f)
    requires cache.WellFormed() && cache.order == Touch(s.cache.order, f, HANDSHAKE_CACHE_SIZE)
    requires f in cache.items && cache.items[f].response == e.response && Encode(e.response).Ok?
    requires if e.isNew then cache.items[f].serial == |s.events|
             else f in s.cache.items && cache.items[f] == s.cache.items[f]
    requires forall g :: g in cache.items && g != f ==> g in s.cache.items && cache.items[g] == s.cache.items[g]
    ensures CacheInv(s.(cache := cache, events := s.events + [e]))
  {
    hide Fingerprint, Encode, Backed, Recent, LastTouch, Touch;
    var events := s.events + [e];
    var fs := Touched(s.events);
    TouchedGrows(s.events, e);
    OneMoreTouch(fs, f, HANDSHAKE_CACHE_SIZE);
    forall g | g in cache.items
      ensures g in fs + [f] && LastTouch(fs + [f], g) < |events|
      ensures cache.items[g].response == events[LastTouch(fs + [f], g)].response && Encode(cache.items[g].response).Ok?
      ensures Backed(events, cache.items[g])
    {
      LastTouchExtends(fs, g, f);
      BackedGrows(s.events, e, cache.items[g]);
    }
  }

  lemma AnswerIsEvent(s: Server, e: HelloEvent, f: Bytes)
    requires CacheInv(s) && Fingerprint(e.hello) == Ok(f)
    requires forall i :: 0 <= i < |s.events| ==> EventInv(s.events, i)
    requires e.isNew <==> f !in s.cache.order
    requires !e.isNew ==> e.response == s.cache.items[f].response
    ensures forall i :: 0 <= i < |s.events + [e]| ==> EventInv(s.events + [e], i)
  {
    hide Recent, LastTouch, Fingerprint;
    var events := s.events + [e];
    forall i | 0 <= i < |events| ensures EventInv(events, i) {
      if i < |s.events| {
        assert EventInv(s.events, i);
        assert events[..i] == s.events[..i];
      } else {
        assert events[..i] == s.events;
      }
    }
  }

  lemma OpenedGrows(cfg: Config, events: seq<HelloEvent>, e: HelloEvent, serial: nat)
    requires Opened(cfg, events, serial)
    ensures Opened(cfg, events + [e], serial) && InfoOf(cfg, events + [e], serial) == InfoOf(cfg, events, serial)
  {
  }

  /** Invariants survive a longer event log. */
  lemma EventsGrow(cfg: Config, t: Tables, events: seq<HelloEvent>, e: HelloEvent)
    requires SessionInv(cfg, t, events) && DeliveryInv(cfg, t, events) && SendingInv(cfg, t, events)
    ensures SessionInv(cfg, t, events + [e]) && DeliveryInv(cfg, t, events + [e]) && SendingInv(cfg, t, events + [e])
  {
    forall serial: nat | Opened(cfg, events, serial)
      ensures Opened(cfg, events + [e], serial) && InfoOf(cfg, events + [e], serial) == InfoOf(cfg, events, serial)
      ensures (events + [e])[serial] == events[serial]
    {
      OpenedGrows(cfg, events, e, serial);
    }
    hide Opened, InfoOf, Authentic, Carries, Bijective, ValidIpv4, Ipv4Source, Ipv4Destination, SealedFor;
    forall k | 0 <= k < |t.sent| ensures Accounted(cfg, events + [e], t.sent[k], t.origins[k]) {
      assert Accounted(cfg, events, t.sent[k], t.origins[k]);
    }
    forall k | 0 <= k < |t.written| ensures Delivered(cfg, events + [e], t.written[k]) {
      assert Delivered(cfg, events, t.written[k]);
    }
  }

  ghost predicate OldOrNew(t: Tables, u: Tables, s: Session) {
    forall k :: k in u.sessions ==> (k in t.sessions && u.sessions[k] == t.sessions[k]) || u.sessions[k] == s
  }

  lemma ReplacedSessions(cfg: Config, t: Tables, u: Tables, events: seq<HelloEvent>, s: Session)
    requires SessionInv(cfg, t, events) && Bijective(u) && s.info.Proper() && OldOrNew(t, u, s)
    requires Vouched(cfg, events, s) && forall k :: k in t.sessions ==> t.sessions[k].serial != s.serial
    ensures SessionInv(cfg, u, events)
  {
    hide Vouched;
    forall k, k' | k in u.sessions && k' in u.sessions && k != k'
      ensures u.sessions[k].serial != u.sessions[k'].serial
    {
      assert u.sessions[k].info.Key() == k && u.sessions[k'].info.Key() == k';
    }
  }

  /** A new session replaces the one at its address and disturbs no other. */
  lemma ReplaceKeeps(cfg: Config, t: Tables, u: Tables, events: seq<HelloEvent>, s: Session)
    requires SessionInv(cfg, t, events) && DeliveryInv(cfg, t, events) && SendingInv(cfg, t, events)
    requires s.info.Proper() && Vouched(cfg, events, s) && s.sendSequence == 0 && s.marks == {}
    requires Unused(t, s.serial) && forall k :: k in t.sessions ==> t.sessions[k].serial != s.serial
    requires Bijective(u) && OldOrNew(t, u, s) && u.written == t.written && u.sent == t.sent && u.origins == t.origins
    ensures SessionInv(cfg, u, events) && DeliveryInv(cfg, u, events) && SendingInv(cfg, u, events)
  {
    hide Vouched, DeliveryInv, SendingInv, Bijective, Unused;
    ReplacedSessions(cfg, t, u, events, s);
    hide SessionInv;
    DeliveriesKept(cfg, t, u, events);
    SendingKept(cfg, t, u, events);
  }

  lemma ReplaceOutcome(t: Tables, s: Session)
    requires Bijective(t)
    ensures var u := ReplaceSession(t, s).0;
      Bijective(u) && OldOrNew(t, u, s) && u.written == t.written && u.sent == t.sent && u.origins == t.origins
  {
    ReplaceKeepsBijection(t, s);
  }

  /** A newly accepted hello opens the session that is installed for it. */
  lemma NewSessionVouched(cfg: Config, s: Server, hello: Packet, remote: Address, draw: Draw)
    requires draw.Proper() && Accept(cfg, s.cache, hello, remote, draw, |s.events|).1.Answered?
    requires Accept(cfg, s.cache, hello, remote, draw, |s.events|).1.isNew
    ensures var grant := Accept(cfg, s.cache, hello, remote, draw, |s.events|).1.grant;
      var e := HelloEvent(hello, remote, grant.identity, draw, grant.response, true);
      && grant.info.Proper() && VouchedHello(cfg, e)
      && Vouched(cfg, s.events + [e], Session(|s.events|, grant.info, 0, {}))
  {
    hide AcceptClientHello, CreateCipher, Encode;
  }

  /** After the response went out. */
  lemma ReplyKeeps(cfg: Config, t: Tables, events: seq<HelloEvent>, serial: nat, data: Bytes, peer: Address)
    requires SessionInv(cfg, t, events) && DeliveryInv(cfg, t, events) && SendingInv(cfg, t, events)
    requires Opened(cfg, events, serial) && Encode(events[serial].response) == Ok(data)
    ensures var v := Answering(t, data, peer, serial);
      SessionInv(cfg, v, events) && DeliveryInv(cfg, v, events) && SendingInv(cfg, v, events)
  {
    hide Vouched, DeliveryInv, SendingInv, Bijective, Opened;
    var v := Answering(t, data, peer, serial);
    assert Accounted(cfg, events, Datagram(data, peer), Reply(serial));
    OneMoreDatagram(cfg, t, v, events, Datagram(data, peer), Reply(serial));
    UpdateKeepsSessions(cfg, t, v, events);
    hide SessionInv;
    DeliveriesKept(cfg, t, v, events);
  }

  lemma AnswerKeepsTables(cfg: Config, t: Tables, events: seq<HelloEvent>, e: HelloEvent, serial: nat, data: Bytes,
                          info: SessionInfo)
    requires SessionInv(cfg, t, events) && DeliveryInv(cfg, t, events) && SendingInv(cfg, t, events)
    requires Opened(cfg, events + [e], serial) && Encode((events + [e])[serial].response) == Ok(data)
    requires e.isNew ==> serial == |events| && info.Proper() && Vouched(cfg, events + [e], Session(serial, info, 0, {}))
    ensures var u := AnsweredTables(t, data, e.remote, serial, info, e.isNew).0;
      SessionInv(cfg, u, events + [e]) && DeliveryInv(cfg, u, events + [e]) && SendingInv(cfg, u, events + [e])
  {
    hide DeliveryInv, SendingInv, Vouched, Bijective, ProperTables, ReplaceSession;
    NextSerialUnused(cfg, t, events);
    forall k | k in t.sessions ensures t.sessions[k].serial < |events| { VouchedSerial(cfg, events, t.sessions[k]); }
    EventsGrow(cfg, t, events, e);
    ReplyKeeps(cfg, t, events + [e], serial, data, e.remote);
    if e.isNew {
      var v, s := Answering(t, data, e.remote, serial), Session(serial, info, 0, {});
      ReplaceOutcome(v, s);
      hide SessionInv;
      ReplaceKeeps(cfg, v, ReplaceSession(v, s).0, events + [e], s);
    }
  }

  lemma VouchedSerial(cfg: Config, events: seq<HelloEvent>, s: Session)
    requires Vouched(cfg, events, s)
    ensures s.serial < |events|
  {
  }

  /** A hello that was answered, now or before, opened the session that the answer names. */
  lemma AnswerIsOpened(cfg: Config, s: Server, p: Packet, peer: Address, draw: Draw)
    requires Inv(cfg, s) && draw.Proper() && Accept(cfg, s.cache, p, peer, draw, |s.events|).1.Answered?
    ensures var d := Accept(cfg, s.cache, p, peer, draw, |s.events|).1;
      var events := s.events + [HelloEvent(p, peer, d.grant.identity, draw, d.grant.response, d.isNew)];
      && EventsVouched(cfg, events)
      && Opened(cfg, events, d.grant.serial) && events[d.grant.serial].response == d.grant.response
  {
    hide EventInv, DeliveryInv, SendingInv, SessionInv, Recent, AcceptClientHello, Encode, Fingerprint;
    if Accept(cfg, s.cache, p, peer, draw, |s.events|).1.isNew { NewSessionVouched(cfg, s, p, peer, draw); }
  }

  /** The state after an answer keeps every invariant. */
  lemma AnswerKeeps(cfg: Config, s: Server, p: Packet, peer: Address, draw: Draw)
    requires Inv(cfg, s) && draw.Proper() && Accept(cfg, s.cache, p, peer, draw, |s.events|).1.Answered?
    ensures var (cache, d) := Accept(cfg, s.cache, p, peer, draw, |s.events|);
      && Encode(d.grant.response).Ok?
      && var data := Encode(d.grant.response).value;
      Inv(cfg, Server(AnsweredTables(s.tables, data, peer, d.grant.serial, d.grant.info, d.isNew).0, cache,
                      s.events + [HelloEvent(p, peer, d.grant.identity, draw, d.grant.response, d.isNew)]))
  {
    hide EventsVouched, EventInv, DeliveryInv, SendingInv, Vouched, Bijective, Recent, SessionInv, AnsweredTables,
         Opened;
    assert |s.cache.order| <= HANDSHAKE_CACHE_SIZE by { CacheHoldsMostRecent(Touched(s.events), HANDSHAKE_CACHE_SIZE); }
    AnswerTouches(cfg, s.cache, p, peer, draw, |s.events|);
    AnswerIsOpened(cfg, s, p, peer, draw);
    var (cache, d) := Accept(cfg, s.cache, p, peer, draw, |s.events|);
    if d.isNew { NewSessionVouched(cfg, s, p, peer, draw); }
    hide Accept;
    var e := HelloEvent(p, peer, d.grant.identity, draw, d.grant.response, d.isNew);
    var f := Fingerprint(p).value;
    AnswerKeepsCache(s, cache, e, f);
    AnswerIsEvent(s, e, f);
    hide Fingerprint, CacheInv;
    var data := Encode(d.grant.response).value;
    AnswerKeepsTables(cfg, s.tables, s.events, e, d.grant.serial, data, d.grant.info);
    CacheIgnoresTables(s.(cache := cache, events := s.events + [e]),
                       AnsweredTables(s.tables, data, peer, d.grant.serial, d.grant.info, d.isNew).0);
  }

  lemma DatagramKeeps(cfg: Config, s: Server, d: Datagram, draw: Draw, taken: int)
    requires Inv(cfg, s) && draw.Proper()
    ensures Inv(cfg, HandleDatagram(cfg, s, d, draw, taken).0)
  {
    hide Receive, HandleUdp, CacheInv, EventInv, DeliveryInv, SendingInv, Vouched, Bijective, AnsweredTables, Accept;
    if Receive(d.data).Ok? {
      var p := Receive(d.data).value;
      match Accept(cfg, s.cache, p, d.peer, draw, |s.events|).1 {
        case Failed(_) =>
        case Ignored => UdpKeeps(cfg, s, p, d.peer, taken);
        case Answered(_, _) => AnswerKeeps(cfg, s, p, d.peer, draw);
      }
    }
  }

  /** How a datagram extends the logs: by the hello or the packet it holds. */
  lemma DatagramLogs(cfg: Config, s: Server, d: Datagram, draw: Draw, taken: int)
    requires draw.Proper() && ProperTables(s.tables)
    ensures var u := HandleDatagram(cfg, s, d, draw, taken).0;
      && s.events <= u.events && s.tables.origins <= u.tables.origins && s.tables.written <= u.tables.written
      && (forall j :: |s.events| <= j < |u.events| ==> Receive(d.data) == Ok(u.events[j].hello))
      && (forall k :: |s.tables.written| <= k < |u.tables.written| ==>
            Receive(d.data) == Ok(u.tables.written[k].packet))
      && (forall k :: |s.tables.origins| <= k < |u.tables.origins| ==> u.tables.origins[k].Reply?)
      && (u.tables.written != s.tables.written ==> u.events == s.events)
  {
    hide Receive, Accept, Encode, CipherSpec.Decrypt, Ipv4Source;
  }

  lemma TunLogs(t: Tables, payload: Bytes)
    requires ProperTables(t)
    ensures var u := HandleTun(t, payload).0;
      && t.origins <= u.origins && |u.origins| <= |t.origins| + 1
      && (forall k :: |t.origins| <= k < |u.origins| ==> u.origins[k].Transmission? && u.origins[k].payload == payload)
      && u.written == t.written
  {
    hide CipherSpec.Encrypt, Encode, Ipv4Destination;
  }

  lemma StepKeeps(cfg: Config, s: Server, i: ServerInput)
    requires Inv(cfg, s) && i.draw.Proper()
    ensures Inv(cfg, Step(cfg, s, i).0)
  {
    hide HandleTun, HandleDatagram, CacheInv, EventInv, DeliveryInv, SendingInv, Vouched;
    if i.tun.Some? { TunKeeps(cfg, s, i.tun.value); }
    var t := if i.tun.Some? then HandleTun(s.tables, i.tun.value).0 else s.tables;
    if i.udp.Some? { DatagramKeeps(cfg, s.(tables := t), i.udp.value, i.draw, i.taken); }
  }

  /** A pass that raises while passing on the TUN packet reads no datagram, and leaves everything as it was. */
  lemma PassRaisesFirst(cfg: Config, s: Server, i: ServerInput)
    requires i.draw.Proper() && ProperTables(s.tables) && Bijective(s.tables)
    requires i.tun.Some? && HandleTun(s.tables, i.tun.value).1.Err?
    ensures Step(cfg, s, i) == (s, Err(HandleTun(s.tables, i.tun.value).1.error))
  {
    hide CipherSpec.Encrypt, Encode;
    HandleTunEffect(s.tables, i.tun.value);
  }

  /** One if the pass sealed its TUN packet, else nothing. */
  ghost function Sealed(t: Tables, i: ServerInput): nat
    requires ProperTables(t)
  {
    if i.tun.Some? && HandleTun(t, i.tun.value).1 == Ok(true) then 1 else 0
  }

  /** The log entry for the TUN packet of a pass. */
  ghost function SealedOrigin(t: Tables, i: ServerInput): seq<Origin>
    requires ProperTables(t) && Bijective(t)
  {
    if Sealed(t, i) == 0 then []
    else
      HandleTunEffect(t, i.tun.value);
      var s := t.sessions[t.routes[Ipv4Destination(i.tun.value).value]];
      [Transmission(s.serial, s.sendSequence, i.tun.value)]
  }

  /** The tables after the TUN half of a pass. */
  lemma TunHalf(t: Tables, i: ServerInput)
    requires ProperTables(t) && Bijective(t) && (i.tun.Some? ==> HandleTun(t, i.tun.value).1.Ok?)
    ensures var u := if i.tun.Some? then HandleTun(t, i.tun.value).0 else t;
      && ProperTables(u) && u.written == t.written && u.origins == t.origins + SealedOrigin(t, i)
      && u.sessions.Keys == t.sessions.Keys && |u.sent| == |t.sent| + Sealed(t, i)
      && u.routes == t.routes
      && forall k :: k in t.sessions ==>
           && u.sessions[k].info == t.sessions[k].info && u.sessions[k].serial == t.sessions[k].serial
           && u.sessions[k].marks == t.sessions[k].marks
  {
    hide CipherSpec.Encrypt, Encode, Ipv4Destination;
    if i.tun.Some? {
      HandleTunEffect(t, i.tun.value);
      hide HandleTun;
    }
  }

  /**
   A pass that finds both descriptors readable serves both: the TUN packet is sealed, and the packet that a session
   admits is written, marked and counted.
   */
  lemma PassServesPacket(cfg: Config, s: Server, i: ServerInput)
    requires i.draw.Proper() && ProperTables(s.tables) && Bijective(s.tables)
    requires i.tun.Some? ==> HandleTun(s.tables, i.tun.value).1.Ok?
    requires i.udp.Some? && Receive(i.udp.value.data).Ok?
    requires var p := Receive(i.udp.value.data).value;
      var key := SessionKey(i.udp.value.peer, p.sessionId);
      key in s.tables.sessions && Admits(s.tables.sessions[key], p)
    ensures var p := Receive(i.udp.value.data).value;
      var key := SessionKey(i.udp.value.peer, p.sessionId);
      var session := s.tables.sessions[key];
      var payload := session.info.cipher.Decrypt(p).value.payload;
      var (a, r) := Step(cfg, s, i);
      && a.tables.written == s.tables.written + [ClientDelivery(session.serial, session.info.tunnel, p, payload)]
      && key in a.tables.sessions && a.tables.sessions[key].marks == session.marks + {p.sequence}
      && a.tables.origins == s.tables.origins + SealedOrigin(s.tables, i)
      && r == if i.taken == |payload| then Ok(Sealed(s.tables, i) + 1) else Err(OSError)
  {
    hide HandleTun, Receive, CipherSpec.Decrypt, HandleUdp, Ipv4Source, Encode, Bijective, SealedOrigin;
    TunHalf(s.tables, i);
    var t := if i.tun.Some? then HandleTun(s.tables, i.tun.value).0 else s.tables;
    var p := Receive(i.udp.value.data).value;
    HandleUdpEffect(t, p, i.udp.value.peer, i.taken);
  }

  /**
   The same with a hello: the TUN packet is sealed, the response goes to where the hello came from, after it, and the
   hello is recorded; the pass counts the TUN packet only, or raises if a new session collides with another client's.
   */
  lemma PassServesHello(cfg: Config, s: Server, i: ServerInput)
    requires Inv(cfg, s) && i.draw.Proper()
    requires i.tun.Some? ==> HandleTun(s.tables, i.tun.value).1.Ok?
    requires i.udp.Some? && Receive(i.udp.value.data).Ok?
    requires Accept(cfg, s.cache, Receive(i.udp.value.data).value, i.udp.value.peer, i.draw, |s.events|).1.Answered?
    ensures var p, peer := Receive(i.udp.value.data).value, i.udp.value.peer;
      var d := Accept(cfg, s.cache, p, peer, i.draw, |s.events|).1;
      var (a, r) := Step(cfg, s, i);
      && Encode(d.grant.response).Ok?
      && |a.tables.sent| == |s.tables.sent| + Sealed(s.tables, i) + 1
      && a.tables.sent[|a.tables.sent| - 1] == Datagram(Encode(d.grant.response).value, peer)
      && a.tables.origins == s.tables.origins + SealedOrigin(s.tables, i) + [Reply(d.grant.serial)]
      && a.events == s.events + [HelloEvent(p, peer, d.grant.identity, i.draw, d.grant.response, d.isNew)]
      && (r.Ok? ==> r == Ok(Sealed(s.tables, i)))
      && (!d.isNew ==> r.Ok?)
  {
    hide Inv, HandleTun, Receive, Accept, HandleDatagram, Encode, Bijective, ProperTables, SealedOrigin, Sealed;
    InvTables(cfg, s);
    AnswerEncodes(cfg, s, Receive(i.udp.value.data).value, i.udp.value.peer, i.draw);
    TunHalf(s.tables, i);
    var t := if i.tun.Some? then HandleTun(s.tables, i.tun.value).0 else s.tables;
    HelloEffect(cfg, s.(tables := t), i.udp.value, i.draw, i.taken);
    StepResult(cfg, s, i);
    var got := HandleDatagram(cfg, s.(tables := t), i.udp.value, i.draw, i.taken).1;
    assert got.Ok? ==> !got.value;
    assert Step(cfg, s, i).1.Ok? ==> Step(cfg, s, i).1.value == Sealed(s.tables, i);
  }

  /** The result of a pass that served both halves. */
  lemma StepResult(cfg: Config, s: Server, i: ServerInput)
    requires i.draw.Proper() && ProperTables(s.tables) && Bijective(s.tables) && i.udp.Some?
    requires i.tun.Some? ==> HandleTun(s.tables, i.tun.value).1.Ok?
    ensures var t := if i.tun.Some? then HandleTun(s.tables, i.tun.value).0 else s.tables;
      && ProperTables(t)
      && var (a, r) := HandleDatagram(cfg, s.(tables := t), i.udp.value, i.draw, i.taken);
      && Step(cfg, s, i).0 == a
      && Step(cfg, s, i).1 == if r.Err? then Err(r.error) else Ok(Sealed(s.tables, i) + (if r.value then 1 else 0))
  {
    hide HandleTun, HandleDatagram, Bijective, ProperTables;
    TunHalf(s.tables, i);
  }

  /** What answering a hello adds to the logs. */
  lemma HelloEffect(cfg: Config, s: Server, d: Datagram, draw: Draw, taken: int)
    requires draw.Proper() && ProperTables(s.tables) && Receive(d.data).Ok?
    requires Accept(cfg, s.cache, Receive(d.data).value, d.peer, draw, |s.events|).1.Answered?
    requires Encode(Accept(cfg, s.cache, Receive(d.data).value, d.peer, draw, |s.events|).1.grant.response).Ok?
    ensures var p := Receive(d.data).value;
      var answer := Accept(cfg, s.cache, p, d.peer, draw, |s.events|).1;
      var (a, r) := HandleDatagram(cfg, s, d, draw, taken);
      && a.tables.sent == s.tables.sent + [Datagram(Encode(answer.grant.response).value, d.peer)]
      && a.tables.origins == s.tables.origins + [Reply(answer.grant.serial)]
      && a.events == s.events
           + [HelloEvent(p, d.peer, answer.grant.identity, draw, answer.grant.response, answer.isNew)]
      && (r.Ok? ==> r == Ok(false)) && (!answer.isNew ==> r.Ok?)
  {
    hide Receive, Accept, Encode, HandleUdp;
  }

  lemma InvTables(cfg: Config, s: Server)
    requires Inv(cfg, s)
    ensures ProperTables(s.tables) && Bijective(s.tables)
  {
  }

  lemma AnswerEncodes(cfg: Config, s: Server, p: Packet, peer: Address, draw: Draw)
    requires Inv(cfg, s) && draw.Proper() && Accept(cfg, s.cache, p, peer, draw, |s.events|).1.Answered?
    ensures Encode(Accept(cfg, s.cache, p, peer, draw, |s.events|).1.grant.response).Ok?
  {
    hide AnsweredTables, Inv;
    AnswerKeeps(cfg, s, p, peer, draw);
  }

  /** A datagram that is no packet, and a hello that verifies under no registered key, are passed over in silence. */
  lemma PassIgnores(cfg: Config, s: Server, i: ServerInput)
    requires i.draw.Proper() && ProperTables(s.tables) && Bijective(s.tables)
    requires i.tun.Some? ==> HandleTun(s.tables, i.tun.value).1.Ok?
    requires i.udp.Some?
    requires Receive(i.udp.value.data).Err? || Unrecognised(cfg, s, Receive(i.udp.value.data).value, i.draw)
    ensures Step(cfg, s, i) == Step(cfg, s, i.(udp := None))
  {
    hide HandleTun, Receive, Encode;
    TunHalf(s.tables, i);
    if Receive(i.udp.value.data).Ok? {
      var t := if i.tun.Some? then HandleTun(s.tables, i.tun.value).0 else s.tables;
      var p := Receive(i.udp.value.data).value;
      UnrecognisedChangesNothing(cfg, s.(tables := t), p, i.udp.value.peer, i.draw, i.taken);
    }
  }

  /** A hello that is not cached and that no registered client's key verifies. */
  ghost predicate Unrecognised(cfg: Config, s: Server, p: Packet, draw: Draw)
    requires draw.Proper()
  {
    && p.kind == MessageType.CLIENT_HELLO && Fingerprint(p).Ok? && Fingerprint(p).value !in s.cache.items
    && forall k :: 0 <= k < |cfg.clients| ==> Unverified(cfg, cfg.clients[k], p, draw)
  }

  lemma UnrecognisedChangesNothing(cfg: Config, s: Server, p: Packet, peer: Address, draw: Draw, taken: int)
    requires draw.Proper() && ProperTables(s.tables) && Unrecognised(cfg, s, p, draw)
    ensures Accept(cfg, s.cache, p, peer, draw, |s.events|) == (s.cache, Ignored)
    ensures HandleUdp(s.tables, p, peer, taken) == (s.tables, Ok(false))
  {
    hide AcceptClientHello, CipherSpec.Decrypt;
  }

  lemma EventsOnlyGrow(cfg: Config, s: Server, i: ServerInput)
    requires i.draw.Proper() && ProperTables(s.tables) && Bijective(s.tables)
    ensures s.events <= Step(cfg, s, i).0.events
  {
    hide HandleTun, HandleUdp, Accept, AnsweredTables, Receive, Encode, ProperTables, Bijective;
  }

  // ----- whole runs

  const START: Server := Server(EMPTY, OrderedDict([], map[]), [])

  /** Passes until the first exception. */
  ghost function Run(cfg: Config, s: Server, inputs: seq<ServerInput>): (Server, Option<Error>)
    requires Inv(cfg, s) && forall i :: i in inputs ==> i.draw.Proper()
    decreases |inputs|
  {
    if inputs == [] then (s, None)
    else
      assert inputs[0] in inputs;
      StepKeeps(cfg, s, inputs[0]);
      var (a, r) := Step(cfg, s, inputs[0]);
      if r.Err? then (a, Some(r.error)) else Run(cfg, a, inputs[1..])
  }

  /** What follows a raising pass is not executed; what follows other passes goes on from where they left off. */
  lemma {:induction false} RunStops(cfg: Config, s: Server, inputs: seq<ServerInput>, k: nat)
    requires Inv(cfg, s) && k <= |inputs| && forall i :: i in inputs ==> i.draw.Proper()
    ensures forall i :: i in inputs[..k] ==> i.draw.Proper()
    ensures var (a, error) := Run(cfg, s, inputs[..k]);
      Inv(cfg, a) && Run(cfg, s, inputs) == if error.Some? then (a, error) else Run(cfg, a, inputs[k..])
    decreases k
  {
    hide Step, Inv;
    if k > 0 {
      assert inputs[0] in inputs;
      InvTables(cfg, s);
      StepKeeps(cfg, s, inputs[0]);
      assert inputs[..k][0] == inputs[0] && inputs[..k][1..] == inputs[1..][..k - 1];
      assert inputs[1..][k - 1..] == inputs[k..];
      if Step(cfg, s, inputs[0]).1.Ok? { RunStops(cfg, Step(cfg, s, inputs[0]).0, inputs[1..], k - 1); }
    } else {
      assert inputs[..0] == [] && inputs[0..] == inputs;
    }
  }

  /** A run of one pass is that pass. */
  lemma RunOfOne(cfg: Config, s: Server, i: ServerInput)
    requires Inv(cfg, s) && i.draw.Proper()
    ensures var (a, r) := Step(cfg, s, i);
      Run(cfg, s, [i]) == (a, if r.Err? then Some(r.error) else None)
  {
    StepKeeps(cfg, s, i);
    hide Step, Inv;
    assert [i][1..] == [];
  }

  lemma StartInv(cfg: Config)
    ensures Inv(cfg, START)
  {
  }

  /** The server after a run from the start. */
  ghost function AfterRun(cfg: Config, inputs: seq<ServerInput>): Server
    requires forall i :: i in inputs ==> i.draw.Proper()
  {
    StartInv(cfg);
    Run(cfg, START, inputs).0
  }

  lemma {:induction false} RunKeeps(cfg: Config, s: Server, inputs: seq<ServerInput>)
    requires Inv(cfg, s) && forall i :: i in inputs ==> i.draw.Proper()
    ensures Inv(cfg, Run(cfg, s, inputs).0)
    ensures s.events <= Run(cfg, s, inputs).0.events
    decreases |inputs|
  {
    if inputs != [] {
      assert inputs[0] in inputs;
      StepKeeps(cfg, s, inputs[0]);
      EventsOnlyGrow(cfg, s, inputs[0]);
      hide Step, Inv;
      if Step(cfg, s, inputs[0]).1.Ok? { RunKeeps(cfg, Step(cfg, s, inputs[0]).0, inputs[1..]); }
    }
  }

  /**
   Sessions over every run: sessions and routes are in bijection, each session serves the address of the registered
   client whose key verified its hello, and there are never more sessions than clients.
   */
  lemma SessionsAreVouched(cfg: Config, inputs: seq<ServerInput>)
    requires forall i :: i in inputs ==> i.draw.Proper()
    ensures var s := AfterRun(cfg, inputs);
      && Bijective(s.tables) && |s.tables.sessions| == |s.tables.routes| <= |cfg.clients|
      && (forall k :: k in s.tables.sessions ==> Vouched(cfg, s.events, s.tables.sessions[k]))
  {
    StartInv(cfg);
    RunKeeps(cfg, START, inputs);
    var s := Run(cfg, START, inputs).0;
    SameSize(s.tables);
    var tunnels := set c | c in cfg.clients :: c.tunnel;
    forall a | a in s.tables.routes ensures a in tunnels {
      assert Vouched(cfg, s.events, s.tables.sessions[s.tables.routes[a]]);
    }
    SubsetSize(s.tables.routes.Keys, tunnels);
    TunnelCount(cfg.clients);
  }

  lemma {:induction false} TunnelCount(clients: seq<ClientIdentity>)
    ensures |set c | c in clients :: c.tunnel| <= |clients|
  {
    if clients != [] {
      TunnelCount(clients[1..]);
      assert clients == [clients[0]] + clients[1..];
      assert (set c | c in clients :: c.tunnel) == {clients[0].tunnel} + set c | c in clients[1..] :: c.tunnel;
    }
  }

  /**
   The TUN log over every run.  Each write comes from a session opened by a hello that verified under the key of a
   registered client; its packet opens under that session's keys, and so is what the client's end of the session seals;
   its plaintext is a well-formed IPv4 packet from that client's own address; and no session delivers a number twice.
   */
  lemma ServerDeliveries(cfg: Config, inputs: seq<ServerInput>)
    requires forall i :: i in inputs ==> i.draw.Proper()
    ensures var s := AfterRun(cfg, inputs);
      && (forall k :: 0 <= k < |s.tables.written| ==>
            var d := s.tables.written[k];
            && Opened(cfg, s.events, d.serial) && s.events[d.serial].identity in cfg.clients
            && var info := InfoOf(cfg, s.events, d.serial);
            && d.tunnel == info.tunnel == s.events[d.serial].identity.tunnel
            && Authentic(info, d.packet, d.payload)
            && info.cipher.Mirror().Encrypt(d.packet.(payload := d.payload)) == Ok(d.packet)
            && ValidIpv4(d.payload) && Ipv4Source(d.payload) == Some(d.tunnel))
      && (forall j, k :: 0 <= j < k < |s.tables.written| && s.tables.written[j].serial == s.tables.written[k].serial ==>
            s.tables.written[j].packet.sequence != s.tables.written[k].packet.sequence)
  {
    StartInv(cfg);
    RunKeeps(cfg, START, inputs);
    var s := AfterRun(cfg, inputs);
    hide AfterRun, SessionInv, SendingInv, CacheInv, EventInv, AcceptClientHello, CipherSpec.Encrypt,
         CipherSpec.Decrypt, Ipv4Source, ValidIpv4;
    forall k | 0 <= k < |s.tables.written|
      ensures var d := s.tables.written[k];
        Authentic(InfoOf(cfg, s.events, d.serial), d.packet, d.payload)
        && InfoOf(cfg, s.events, d.serial).cipher.Mirror().Encrypt(d.packet.(payload := d.payload)) == Ok(d.packet)
    {
      var d := s.tables.written[k];
      assert Delivered(cfg, s.events, d);
      AuthenticIsSealed(InfoOf(cfg, s.events, d.serial), d.packet, d.payload);
    }
  }

  /** An authentic packet is what the client's end of the session makes of its plaintext. */
  lemma AuthenticIsSealed(info: SessionInfo, p: Packet, payload: Bytes)
    requires Authentic(info, p, payload)
    ensures info.cipher.Mirror().Encrypt(p.(payload := payload)) == Ok(p)
  {
    hide CipherSpec.Encrypt, CipherSpec.Decrypt;
    assert info.cipher.Mirror().Mirror() == info.cipher;
    PeersInterop(info.cipher.Mirror(), p.(payload := payload), p);
  }

  // ----- where the payloads sent come from

  /** What the TUN device supplied over a run. */
  ghost function TunReads(cfg: Config, s: Server, inputs: seq<ServerInput>): seq<Bytes>
    requires Inv(cfg, s) && forall i :: i in inputs ==> i.draw.Proper()
    decreases |inputs|
  {
    if inputs == [] then []
    else
      assert inputs[0] in inputs;
      StepKeeps(cfg, s, inputs[0]);
      var (a, r) := Step(cfg, s, inputs[0]);
      TunRead(inputs[0]) + (if r.Err? then [] else TunReads(cfg, a, inputs[1..]))
  }

  function TunRead(i: ServerInput): seq<Bytes> {
    if i.tun.Some? then [i.tun.value] else []
  }

  /** Packets from place `first` on come from distinct reads, in the same order. */
  ghost predicate ReadInOrder(log: seq<Origin>, first: nat, tun: seq<Bytes>, sources: seq<nat>) {
    && |sources| == |log|
    && (forall k :: first <= k < |log| && log[k].Transmission? ==>
          sources[k] < |tun| && tun[sources[k]] == log[k].payload)
    && (forall j, k :: first <= j < k < |log| && log[j].Transmission? && log[k].Transmission? ==>
          sources[j] < sources[k])
  }

  /** A pass logs at most one packet, first, and it is the one read in that pass. */
  lemma PassLogsItsRead(cfg: Config, s: Server, i: ServerInput)
    requires i.draw.Proper() && ProperTables(s.tables) && Bijective(s.tables)
    ensures var before, log := s.tables.origins, Step(cfg, s, i).0.tables.origins;
      && before <= log
      && (forall k :: |before| <= k < |log| && log[k].Transmission? ==> k == |before| && i.tun == Some(log[k].payload))
  {
    hide HandleTun, HandleDatagram, ProperTables, Bijective;
    if i.tun.Some? { TunLogs(s.tables, i.tun.value); }
    MidPassProper(s.tables, i);
    var a := if i.tun.Some? then s.(tables := HandleTun(s.tables, i.tun.value).0) else s;
    if i.udp.Some? { DatagramLogs(cfg, a, i.udp.value, i.draw, i.taken); }
  }

  lemma MidPassProper(t: Tables, i: ServerInput)
    requires ProperTables(t) && Bijective(t)
    ensures i.tun.Some? ==> ProperTables(HandleTun(t, i.tun.value).0)
  {
    if i.tun.Some? { HandleTunEffect(t, i.tun.value); }
  }

  /** The first pass's read comes before those of the later passes. */
  lemma ReadBefore(before: seq<Origin>, log: seq<Origin>, tun: seq<Bytes>, rest: seq<Bytes>, later: seq<nat>,
                   sources: seq<nat>, middle: nat)
    requires |before| <= middle <= |log| && |later| == |log| == |sources|
    requires forall k :: |before| <= k < middle && log[k].Transmission? ==> k == |before| && tun == [log[k].payload]
    requires ReadInOrder(log, middle, rest, later)
    requires forall k :: 0 <= k < |log| ==> sources[k] == if k < middle then 0 else later[k] + |tun|
    ensures ReadInOrder(log, |before|, tun + rest, sources)
  {
    forall k | |before| <= k < |log| && log[k].Transmission?
      ensures sources[k] < |tun + rest| && (tun + rest)[sources[k]] == log[k].payload
    {
      if k >= middle { assert (tun + rest)[later[k] + |tun|] == rest[later[k]]; }
    }
    forall j, k | |before| <= j < k < |log| && log[j].Transmission? && log[k].Transmission?
      ensures sources[j] < sources[k]
    {
      if j < middle { assert tun == [log[j].payload] && k >= middle; }
    }
  }

  /** The reads behind the packets logged from `s` on. */
  lemma {:induction false} RunReads(cfg: Config, s: Server, inputs: seq<ServerInput>) returns (sources: seq<nat>)
    requires Inv(cfg, s) && forall i :: i in inputs ==> i.draw.Proper()
    ensures s.tables.origins <= Run(cfg, s, inputs).0.tables.origins
    ensures ReadInOrder(Run(cfg, s, inputs).0.tables.origins, |s.tables.origins|, TunReads(cfg, s, inputs), sources)
    decreases |inputs|
  {
    var before := s.tables.origins;
    if inputs == [] {
      sources := seq(|before|, _ => 0);
    } else {
      assert inputs[0] in inputs;
      StepKeeps(cfg, s, inputs[0]);
      PassLogsItsRead(cfg, s, inputs[0]);
      var (a, r) := Step(cfg, s, inputs[0]);
      var tun := TunRead(inputs[0]);
      hide Step, Inv, ReadInOrder;
      var later := seq(|a.tables.origins|, _ => 0);
      if r.Ok? {
        later := RunReads(cfg, a, inputs[1..]);
      } else {
        NothingYet(a.tables.origins, later);
      }
      ReadLength(Run(cfg, s, inputs).0.tables.origins, |a.tables.origins|, TunReads(cfg, s, inputs)[|tun|..], later);
      sources := seq(|later|, k requires 0 <= k < |later| => if k < |a.tables.origins| then 0 else later[k] + |tun|);
      ReadBefore(before, Run(cfg, s, inputs).0.tables.origins, tun, TunReads(cfg, s, inputs)[|tun|..], later, sources,
                 |a.tables.origins|);
      assert tun + TunReads(cfg, s, inputs)[|tun|..] == TunReads(cfg, s, inputs);
    }
  }

  lemma NothingYet(log: seq<Origin>, sources: seq<nat>)
    requires |sources| == |log|
    ensures ReadInOrder(log, |log|, [], sources)
  {
  }

  lemma ReadLength(log: seq<Origin>, first: nat, tun: seq<Bytes>, sources: seq<nat>)
    requires ReadInOrder(log, first, tun, sources)
    ensures |sources| == |log|
  {
  }

  /**
   What was sent over every run.  Each datagram is the response of an opened session, or the encryption of a payload
   addressed to that session's client; the payloads were read from the TUN device, each from a read of its own, in that
   order; and each session's packets are numbered 0, 1, 2 and so on up to its counter.
   */
  lemma ServerTransmissions(cfg: Config, inputs: seq<ServerInput>) returns (sources: seq<nat>)
    requires forall i :: i in inputs ==> i.draw.Proper()
    ensures var s := AfterRun(cfg, inputs);
      var log := s.tables.origins;
      && |log| == |s.tables.sent|
      && (forall k :: 0 <= k < |log| ==> Accounted(cfg, s.events, s.tables.sent[k], log[k]))
      && (forall k :: 0 <= k < |log| && log[k].Transmission? ==>
            log[k].sequence == SealedFor(log[..k], log[k].serial) <= MAX_SEQUENCE_NUMBER)
      && (forall j, k :: 0 <= j < k < |log| && SameSession(log, j, k) ==> log[j].sequence < log[k].sequence)
      && (forall key :: key in s.tables.sessions ==>
            s.tables.sessions[key].sendSequence == SealedFor(log, s.tables.sessions[key].serial))
      && (StartInv(cfg); ReadInOrder(log, 0, TunReads(cfg, START, inputs), sources))
  {
    StartInv(cfg);
    sources := RunReads(cfg, START, inputs);
    RunKeeps(cfg, START, inputs);
    var s := AfterRun(cfg, inputs);
    var log := s.tables.origins;
    hide AfterRun, SealedFor, SessionInv, DeliveryInv, CacheInv, EventInv, InfoOf, Opened, Carries, Ipv4Destination;
    forall k | 0 <= k < |log| && log[k].Transmission? ensures log[k].sequence <= MAX_SEQUENCE_NUMBER {
      assert Accounted(cfg, s.events, s.tables.sent[k], log[k]);
    }
    hide Accounted;
    forall j, k | 0 <= j < k < |log| && SameSession(log, j, k)
      ensures log[j].sequence < log[k].sequence
    {
      LaterSealing(log, j, k);
    }
  }

  /**
   The hello cache over every run: it holds exactly the fingerprints after whose last use fewer than 1024 other
   distinct ones were answered, in the order of their last use.
   */
  lemma HelloCacheIsLru(cfg: Config, inputs: seq<ServerInput>)
    requires forall i :: i in inputs ==> i.draw.Proper()
    ensures var s := AfterRun(cfg, inputs);
      var fs := Touched(s.events);
      && (forall f :: f in s.cache.items <==> f in fs && |Since(fs, f)| < 1024)
      && |s.cache.order| <= 1024
      && (forall i, j :: 0 <= i < j < |s.cache.order| ==>
            && s.cache.order[i] in fs && s.cache.order[j] in fs
            && LastTouch(fs, s.cache.order[i]) < LastTouch(fs, s.cache.order[j]))
  {
    StartInv(cfg);
    RunKeeps(cfg, START, inputs);
    CacheHoldsMostRecent(Touched(Run(cfg, START, inputs).0.events), HANDSHAKE_CACHE_SIZE);
    hide Run, EventInv, DeliveryInv, SendingInv, SessionInv, Recent;
  }

  /** A repeated hello is new again exactly when it was evicted: 1024 other distinct hellos were answered in between. */
  lemma RepeatIsNewIffEvicted(events: seq<HelloEvent>, i: nat)
    requires i < |events| && EventInv(events, i)
    ensures var fs := Touched(events[..i]);
      var f := Fingerprint(events[i].hello).value;
      events[i].isNew <==> f in fs ==> |Since(fs, f)| >= 1024
  {
    CacheHoldsMostRecent(Touched(events[..i]), HANDSHAKE_CACHE_SIZE);
  }

  lemma PrefixElements<K(!new)>(s: seq<K>, j: nat)
    requires j <= |s|
    ensures Elements(s[..j]) <= Elements(s)
  {
  }

  /** While no more than 1024 distinct hellos were answered, one answered before is still cached. */
  lemma RepeatIsCached(events: seq<HelloEvent>, i: nat, j: nat, f: Bytes)
    requires |Elements(Touched(events))| <= HANDSHAKE_CACHE_SIZE
    requires i < j < |events| && Fingerprint(events[i].hello) == Ok(f) && Fingerprint(events[j].hello) == Ok(f)
    ensures var fs := Touched(events[..j]);
      f in fs && fs[i] == f && f in Recent(fs, HANDSHAKE_CACHE_SIZE)
  {
    hide Fingerprint, Recent, Touched, Elements;
    var fs := Touched(events[..j]);
    TouchedAt(events[..j], i);
    TouchedAt(events, j);
    PrefixElements(Touched(events), j);
    SubsetSize(Elements(fs), Elements(Touched(events)));
    NothingEvicted(fs, HANDSHAKE_CACHE_SIZE, f);
  }

  /**
   Idempotence: while no more than 1024 distinct hellos have been answered, of all answers to one hello only the first
   is new, and so only the first replaces a session; all carry the same response.
   */
  lemma {:induction false} HelloAnsweredOnce(events: seq<HelloEvent>, i: nat, j: nat)
    requires forall k :: 0 <= k < |events| ==> EventInv(events, k)
    requires |Elements(Touched(events))| <= HANDSHAKE_CACHE_SIZE
    requires i < j < |events| && Fingerprint(events[i].hello) == Fingerprint(events[j].hello)
    ensures !events[j].isNew && events[j].response == events[i].response
    decreases j
  {
    assert EventInv(events, j);
    AnsweredHasFingerprint(events, j);
    var f := Fingerprint(events[j].hello).value;
    var fs := Touched(events[..j]);
    hide EventInv, Fingerprint;
    RepeatIsCached(events, i, j, f);
    RepeatTakesLastAnswer(events, j);
    LastTouchIsLast(fs, f, i);
    var last := LastTouch(fs, f);
    hide LastTouch, Recent;
    if last != i {
      assert EventInv(events, last);
      AnsweredHasFingerprint(events, last);
      assert events[..j][last] == events[last];
      TouchedAt(events[..j], last);
      FingerprintsMatch(events, j, last);
      HelloAnsweredOnce(events, i, last);
    }
  }

  /** The same over a run: a hello answered before is never new again, so it replaces a session at most once. */
  lemma RunAnswersHelloOnce(cfg: Config, inputs: seq<ServerInput>, i: nat, j: nat)
    requires forall i :: i in inputs ==> i.draw.Proper()
    requires var events := AfterRun(cfg, inputs).events;
      && |Elements(Touched(events))| <= 1024
      && i < j < |events| && events[i].hello == events[j].hello
    ensures var events := AfterRun(cfg, inputs).events;
      !events[j].isNew && events[j].response == events[i].response
  {
    StartInv(cfg);
    RunKeeps(cfg, START, inputs);
    hide EventInv, SessionInv, DeliveryInv, SendingInv, CacheInv;
    HelloAnsweredOnce(AfterRun(cfg, inputs).events, i, j);
  }

  lemma AnsweredHasFingerprint(events: seq<HelloEvent>, i: nat)
    requires i < |events| && EventInv(events, i)
    ensures Fingerprint(events[i].hello).Ok?
  {
  }

  lemma FingerprintsMatch(events: seq<HelloEvent>, i: nat, j: nat)
    requires i < |events| && j < |events|
    requires Fingerprint(events[i].hello).Ok? && Fingerprint(events[j].hello).Ok?
    requires Fingerprint(events[i].hello).value == Fingerprint(events[j].hello).value
    ensures Fingerprint(events[i].hello) == Fingerprint(events[j].hello)
  {
  }

  lemma RepeatTakesLastAnswer(events: seq<HelloEvent>, j: nat)
    requires j < |events| && EventInv(events, j)
    requires Fingerprint(events[j].hello).value in Recent(Touched(events[..j]), HANDSHAKE_CACHE_SIZE)
    ensures var f := Fingerprint(events[j].hello).value;
      && f in Touched(events[..j])
      && !events[j].isNew && events[j].response == events[LastTouch(Touched(events[..j]), f)].response
  {
  }

  /** Answering a cached hello sends the stored response and touches no session, route, counter, window or TUN log. */
  lemma RepeatChangesNothing(cfg: Config, s: Server, d: Datagram, draw: Draw, taken: int)
    requires Inv(cfg, s) && draw.Proper()
    requires Receive(d.data).Ok? && Receive(d.data).value.kind == MessageType.CLIENT_HELLO
    requires Fingerprint(Receive(d.data).value).Ok? && Fingerprint(Receive(d.data).value).value in s.cache.items
    ensures var (after, r) := HandleDatagram(cfg, s, d, draw, taken);
      var response := s.cache.items[Fingerprint(Receive(d.data).value).value].response;
      && r == Ok(false)
      && Encode(response).Ok?
      && after.tables == Answering(s.tables, Encode(response).value, d.peer,
                                   s.cache.items[Fingerprint(Receive(d.data).value).value].serial)
      && after.cache.items == s.cache.items
  {
    hide Receive, Fingerprint, EventInv, DeliveryInv, SendingInv, SessionInv, Recent, LastTouch, Encode;
  }

  /** After answering a hello the server holds its fingerprint and response, whatever became of the session. */
  lemma AnswerIsCached(cfg: Config, s: Server, d: Datagram, draw: Draw, taken: int)
    requires Inv(cfg, s) && draw.Proper() && Receive(d.data).Ok?
    requires Accept(cfg, s.cache, Receive(d.data).value, d.peer, draw, |s.events|).1.Answered?
    ensures var p := Receive(d.data).value;
      var response := Accept(cfg, s.cache, p, d.peer, draw, |s.events|).1.grant.response;
      var cache := HandleDatagram(cfg, s, d, draw, taken).0.cache;
      && p.kind == MessageType.CLIENT_HELLO && Fingerprint(p).Ok? && Encode(response).Ok?
      && Fingerprint(p).value in cache.items
      && cache.items[Fingerprint(p).value] == Accept(cfg, s.cache, p, d.peer, draw, |s.events|).1.grant
  {
    assert |s.cache.order| <= HANDSHAKE_CACHE_SIZE by { CacheHoldsMostRecent(Touched(s.events), HANDSHAKE_CACHE_SIZE); }
    AnswerTouches(cfg, s.cache, Receive(d.data).value, d.peer, draw, |s.events|);
    hide Receive, Encode, Fingerprint, EventInv, DeliveryInv, SendingInv, SessionInv, Recent, Touch, AnsweredTables;
  }

  /**
   Answering twice: the same hello again, from any address, gets the same response at once and leaves sessions, routes,
   counters, windows and the TUN log as the first answer left them.
   */
  lemma RepeatedHello(cfg: Config, s: Server, d: Datagram, draw: Draw, taken: int, peer: Address, draw': Draw,
                      taken': int)
    requires Inv(cfg, s) && draw.Proper() && draw'.Proper() && Receive(d.data).Ok?
    requires Accept(cfg, s.cache, Receive(d.data).value, d.peer, draw, |s.events|).1.Answered?
    ensures var response := Accept(cfg, s.cache, Receive(d.data).value, d.peer, draw, |s.events|).1.grant.response;
      var first := HandleDatagram(cfg, s, d, draw, taken).0;
      && Inv(cfg, first)
      && var (second, r) := HandleDatagram(cfg, first, Datagram(d.data, peer), draw', taken');
      && r == Ok(false) && Encode(response).Ok?
      && second.tables
           == Answering(first.tables, Encode(response).value, peer,
                        Accept(cfg, s.cache, Receive(d.data).value, d.peer, draw, |s.events|).1.grant.serial)
      && second.cache.items == first.cache.items
  {
    hide HandleDatagram, Accept, Fingerprint, Encode, Receive, Touched, CacheInv, EventInv, DeliveryInv, SendingInv,
         Vouched, Bijective, ProperTables;
    DatagramKeeps(cfg, s, d, draw, taken);
    var first := HandleDatagram(cfg, s, d, draw, taken).0;
    AnswerIsCached(cfg, s, d, draw, taken);
    RepeatChangesNothing(cfg, first, Datagram(d.data, peer), draw', taken');
  }

  /** The idealised hash makes distinct packets distinct keys: a fingerprint belongs to one hello. */
  lemma FingerprintInjective(p: Packet, q: Packet)
    requires Fingerprint(p).Ok? && Fingerprint(p) == Fingerprint(q)
    ensures p == q
  {
    var a, b := Encode(p).value, Encode(q).value;
    SpreadInjective(Digest(a), Digest(b), 32, 32);
    DecodeOfEncode(p);
    DecodeOfEncode(q);
  }
}
