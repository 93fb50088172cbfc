/**
 A registered client and the multi-client server, from the first hello to the traffic, with a network between them that
 loses, reorders, duplicates, reflects and forges, and with all other clients left to the network.
 */
module Service {
  import opened Outcome
  import opened Octets
  import opened Protocol
  import opened Transport
  import opened Ciphers
  import opened Handshake
  import opened Lru
  import opened Endpoints
  import opened SessionTables
  import opened Servers
  import opened ServerKeys
  import Network

  /** The server's configuration, the client's, and the randomness of the client's one hello. */
  datatype Setup = Setup(
    cfg: Config,
    clientKey: Bytes,
    serverAddress: Address,
    attempts: nat,
    sessionId: nat,
    draw: Draw,
    interval: real,
    liveness: real)
  {
    ghost predicate Proper() {
      && |clientKey| == KEY_SIZE && |cfg.privateKey| == KEY_SIZE && cfg.packetsPerKey >= 0
      && sessionId <= MAX_SESSION_ID && draw.Proper() && Configured(sessionId, None, interval, liveness)
    }

    /** The static secret that authenticates the hellos between the two. */
    ghost function Key(): Bytes { Spread(Shared({clientKey, cfg.privateKey}), KEY_SIZE) }

    ghost function ClientHello(): (h: Hello)
      requires Proper()
      ensures CreateClientHello(clientKey, PublicKey(cfg.privateKey), sessionId, draw) == Ok(h)
      ensures Encode(h.packet).Ok? && h.state.sessionId == h.packet.sessionId == sessionId
    {
      HandshakeAgreement(clientKey, cfg.privateKey, sessionId, draw, draw);
      CreateClientHello(clientKey, PublicKey(cfg.privateKey), sessionId, draw).value
    }
  }

  datatype Client = Hailing(heard: nat) | Connected(endpoint: Endpoint, up: bool, since: real) | GaveUp

  datatype State = State(hails: nat, client: Client, server: Server, serverUp: bool)

  datatype Action =
    | ClientHails
    | ClientHears(arrival: Arrival, now: real)
    | ClientPass(input: Endpoints.Input)
    | ServerPass(serverInput: ServerInput)

  // ----- the network

  ghost predicate SentByClient(st: State, o: Octet) {
    st.client.Connected? && exists i :: 0 <= i < |st.client.endpoint.sent| && o in st.client.endpoint.sent[i].data
  }

  ghost predicate SentByServer(st: State, o: Octet) {
    exists i :: 0 <= i < |st.server.tables.sent| && o in st.server.tables.sent[i].data
  }

  ghost predicate OnTheWire(x: Setup, st: State, o: Octet)
    requires x.Proper()
  {
    || (st.hails > 0 && o in x.ClientHello().packet.payload)
    || SentByClient(st, o)
    || SentByServer(st, o)
  }

  /** Session `serial` was opened under this client's key. */
  ghost predicate OfClient(x: Setup, events: seq<HelloEvent>, serial: nat) {
    Opened(x.cfg, events, serial) && events[serial].identity.publicKey == PublicKey(x.clientKey)
  }

  /** A key of one of this client's sessions, in either direction. */
  ghost predicate ClientsKey(x: Setup, events: seq<HelloEvent>, key: Bytes) {
    exists serial: nat, n: nat :: KeyAt(x, events, serial, n, key)
  }

  ghost predicate KeyAt(x: Setup, events: seq<HelloEvent>, serial: nat, n: nat, key: Bytes) {
    && OfClient(x, events, serial)
    && var cipher := InfoOf(x.cfg, events, serial).cipher;
    && cipher.Usable()
    && (key == SendKey(cipher, n) || key == SendKey(cipher.Mirror(), n))
  }

  /**
   What the network can deliver: anything, except that tags under the static secret of the two, and sealings under the
   keys of this client's sessions, must have been sent before.
   */
  ghost predicate CanArrive(x: Setup, st: State, data: Bytes)
    requires x.Proper()
  {
    forall o :: o in data && o.Part? ==>
      && (o.source.Mac? && o.source.key == x.Key() ==> OnTheWire(x, st, o))
      && (o.source.Sealed? && ClientsKey(x, st.server.events, o.source.key) ==> OnTheWire(x, st, o))
  }

  /** A pass reads UDP after it passed on a TUN packet, so what arrives may already answer that. */
  ghost predicate Allowed(x: Setup, st: State, a: Action)
    requires x.Proper()
  {
    match a
    case ClientHails => st.client.Hailing? && st.hails == st.client.heard
    case ClientHears(arrival, _) =>
      && st.client.Hailing? && st.hails == st.client.heard + 1
      && (arrival.Arrived? ==> CanArrive(x, st, arrival.datagram.data))
    case ClientPass(i) =>
      && st.client.Connected? && st.client.up && Proper(st.client.endpoint)
      && (i.udp.Some? ==>
            CanArrive(x, st.(client := st.client.(endpoint := TunStage(st.client.endpoint, i).0)), i.udp.value.data))
    case ServerPass(i) =>
      && st.serverUp && i.draw.Proper() && ProperTables(st.server.tables) && Bijective(st.server.tables)
      && (i.udp.Some? ==> CanArrive(x, st.(server := AfterTun(st.server, i)), i.udp.value.data))
  }

  /** The server in mid-pass. */
  ghost function AfterTun(s: Server, i: ServerInput): Server
    requires ProperTables(s.tables)
  {
    if i.tun.Some? then s.(tables := HandleTun(s.tables, i.tun.value).0) else s
  }

  ghost function Next(x: Setup, st: State, a: Action): State
    requires x.Proper() && Allowed(x, st, a)
  {
    match a
    case ClientHails => st.(hails := st.hails + 1)
    case ClientHears(arrival, now) =>
      st.(client := match Answer(x.ClientHello().state, x.serverAddress, arrival)
          case Ok(secret) => Connected(Opening(x, secret, now), true, now)
          case Err(_) => if st.client.heard + 1 < x.attempts then Hailing(st.client.heard + 1) else GaveUp)
    case ClientPass(i) =>
      var (e, r) := Endpoints.Step(st.client.endpoint, i);
      st.(client := Connected(e, r.Ok?, st.client.since))
    case ServerPass(i) =>
      var (s, r) := Servers.Step(x.cfg, st.server, i);
      st.(server := s, serverUp := r.Ok?)
  }

  /** The client's end of the tunnel, just after the handshake. */
  ghost function Opening(x: Setup, secret: Bytes, now: real): Endpoint
    requires x.Proper() && |secret| == 32
  {
    Fresh(x.serverAddress, x.sessionId, Some(CreateCipher(secret, x.sessionId, Role.CLIENT, x.cfg.packetsPerKey).value),
          x.interval, x.liveness, now)
  }

  // ----- the invariant

  /** The hellos accepted under this client's key are the one it sent. */
  ghost predicate HonestHellos(x: Setup, hails: nat, events: seq<HelloEvent>)
    requires x.Proper()
  {
    forall serial: nat :: OfClient(x, events, serial) ==> hails > 0 && events[serial].hello == x.ClientHello().packet
  }

  /** Session `serial` is the server's end of this endpoint. */
  ghost predicate PeerOf(x: Setup, e: Endpoint, events: seq<HelloEvent>, serial: nat) {
    && OfClient(x, events, serial) && e.cipher.Some?
    && InfoOf(x.cfg, events, serial).cipher == e.cipher.value.Mirror()
  }

  /**
   The endpoint sends what its TUN device supplied, under the cipher of a session the server opened for this client.
   */
  ghost predicate Joined(x: Setup, client: Client, events: seq<HelloEvent>) {
    client.Connected? ==>
      var e := client.endpoint;
      && Network.SendsWhatItRead(e, client.up)
      && e.cipher.Some? && e.cipher.value.Usable() && e.cipher.value.role == Role.CLIENT
      && e.cipher.value.packetsPerKey == x.cfg.packetsPerKey && e.cipher.value.sessionId == e.sessionId
      && e.interval == x.interval && e.liveness == x.liveness
      && exists serial: nat :: PeerOf(x, e, events, serial)
  }

  /** A TUN write of the server is a DATA packet that this client sent. */
  ghost predicate SentUp(x: Setup, client: Client, events: seq<HelloEvent>, d: ClientDelivery) {
    && client.Connected? && PeerOf(x, client.endpoint, events, d.serial)
    && var e := client.endpoint;
    && 0 <= d.packet.sequence < |e.log|
    && e.log[d.packet.sequence] == Packet(DATA, e.sessionId, d.packet.sequence, d.payload)
  }

  ghost predicate Upwards(x: Setup, client: Client, events: seq<HelloEvent>, written: seq<ClientDelivery>) {
    forall k :: 0 <= k < |written| && OfClient(x, events, written[k].serial) ==> SentUp(x, client, events, written[k])
  }

  /** A TUN write of the client is a packet that the server sealed in the session joined with it. */
  ghost predicate SentDown(x: Setup, e: Endpoint, events: seq<HelloEvent>, log: seq<Origin>, d: Delivery, place: nat) {
    && place < |log| && log[place].Transmission? && PeerOf(x, e, events, log[place].serial)
    && log[place].sequence == d.sequence && log[place].payload == d.payload
  }

  ghost predicate Received(x: Setup, e: Endpoint, events: seq<HelloEvent>, log: seq<Origin>, d: Delivery) {
    exists place: nat :: SentDown(x, e, events, log, d, place)
  }

  /** The numbers of the packets an endpoint delivered. */
  function DeliveredNumbers(written: seq<Delivery>): set<int> {
    set k | 0 <= k < |written| :: written[k].sequence
  }

  /** All the client wrote was sealed for it, nothing twice; nothing else was marked, or restarted the deadline. */
  ghost predicate Downwards(x: Setup, client: Client, events: seq<HelloEvent>, log: seq<Origin>) {
    client.Connected? ==>
      var e := client.endpoint;
      && (forall k :: 0 <= k < |e.written| ==> Received(x, e, events, log, e.written[k]))
      && (forall j, k :: 0 <= j < k < |e.written| ==> e.written[j].sequence != e.written[k].sequence)
      && e.marks == DeliveredNumbers(e.written)
      && (e.written == [] ==> e.lastReceive == client.since)
  }

  ghost predicate Inv(x: Setup, st: State) {
    && x.Proper()
    && Servers.Inv(x.cfg, st.server)
    && HonestHellos(x, st.hails, st.server.events)
    && Joined(x, st.client, st.server.events)
    && Upwards(x, st.client, st.server.events, st.server.tables.written)
    && Downwards(x, st.client, st.server.events, st.server.tables.origins)
  }

  // ----- where authenticated octets come from

  lemma StaticKey(x: Setup, peer: Bytes)
    requires x.Proper()
    ensures SharedSecret(x.clientKey, PublicKey(x.cfg.privateKey)) == Ok(x.Key())
    ensures SharedSecret(x.cfg.privateKey, PublicKey(x.clientKey)) == Ok(x.Key())
    ensures SharedSecret(x.cfg.privateKey, peer) == Ok(x.Key()) ==> peer == PublicKey(x.clientKey)
  {
    SharedSecretCommutes(x.clientKey, x.cfg.privateKey);
    SharedSecretCommutes(x.cfg.privateKey, x.clientKey);
    assert {x.clientKey, x.cfg.privateKey} == {x.cfg.privateKey, x.clientKey};
    if SharedSecret(x.cfg.privateKey, peer) == Ok(x.Key()) {
      assert x.Key()[0] == Part(Shared({x.clientKey, x.cfg.privateKey}), 0);
      var scalar := peer[0].source.scalar;
      OtherEnd(x.cfg.privateKey, scalar, x.clientKey);
    }
  }

  lemma OtherEnd(a: Bytes, b: Bytes, c: Bytes)
    requires {a, b} == {c, a}
    ensures b == c
  {
    assert c in {a, b} && b in {c, a};
  }

  lemma PayloadOctets(data: Bytes, p: Packet, i: nat)
    requires Receive(data) == Ok(p) && i < |p.payload|
    ensures p.payload[i] in data
  {
    var buffer := if |data| > MAX_UDP_DATAGRAM_SIZE then data[..MAX_UDP_DATAGRAM_SIZE] else data;
    assert p.payload[i] == buffer[HEADER_SIZE + i] == data[HEADER_SIZE + i];
  }

  /** The octets of the client's hello are not sealed, and its tag is that of its own transcript. */
  lemma HelloOctets(x: Setup, o: Octet)
    requires x.Proper() && o in x.ClientHello().packet.payload && o.Part?
    ensures !o.source.Sealed?
    ensures o.source.Mac? ==> o.source == Mac(x.Key(), HANDSHAKE_CONTEXT + ClientTranscript(x.sessionId, x.draw.Body()))
  {
    StaticKey(x, []);
    assert forall i :: 0 <= i < |x.draw.Body()| ==>
      x.draw.Body()[i].Part? && !x.draw.Body()[i].source.Mac? && !x.draw.Body()[i].source.Sealed?;
  }

  /** What the client's endpoint sends is sealed under its own cipher. */
  lemma ClientOctets(x: Setup, st: State, o: Octet) returns (i: nat)
    requires Inv(x, st) && SentByClient(st, o) && o.Part?
    ensures var e := st.client.endpoint;
      && i < |e.log| && i < |e.sent| && e.cipher.Some? && e.cipher.value.Usable()
      && Carries(e.cipher.value, e.log[i], e.sent[i].data) && e.log[i].sequence == i
      && e.log[i].sessionId == e.sessionId
      && o in e.sent[i].data && o.source.Sealed? && o.source.key == SendKey(e.cipher.value, i)
  {
    hide Servers.Inv, HonestHellos, Upwards, Downwards, Carries, SendKey;
    var e := st.client.endpoint;
    i :| 0 <= i < |e.sent| && o in e.sent[i].data;
    Network.SentCarries(e, i);
    SealedOctets(e.cipher.value, e.log[i], e.sent[i].data, o);
  }

  /** What the server sends is a response, with the tag of its transcript, or sealed under the cipher of a session. */
  lemma ServerOctets(x: Setup, st: State, o: Octet) returns (i: nat)
    requires Inv(x, st) && SentByServer(st, o) && o.Part?
    ensures var t, events := st.server.tables, st.server.events;
      && i < |t.sent| == |t.origins| && o in t.sent[i].data && Accounted(x.cfg, events, t.sent[i], t.origins[i])
      && var e := events[t.origins[i].serial];
      && (t.origins[i].Reply? ==> !o.source.Sealed? && o in e.response.payload)
      && (t.origins[i].Transmission? ==>
            && o.source.Sealed?
            && o.source.key == SendKey(InfoOf(x.cfg, events, t.origins[i].serial).cipher, t.origins[i].sequence))
  {
    hide HonestHellos, Joined, Upwards, Downwards, Carries, SendKey, SessionInv, CacheInv, EventInv, DeliveryInv,
         SealedFor, InfoOf, AcceptClientHello, Ipv4Destination;
    var t, events := st.server.tables, st.server.events;
    i :| 0 <= i < |t.sent| && o in t.sent[i].data;
    var d, origin := t.sent[i], t.origins[i];
    assert Accounted(x.cfg, events, d, origin);
    if origin.Reply? {
      ReplySealsNothing(x.cfg, events, d, origin, o);
    } else {
      var info := InfoOf(x.cfg, events, origin.serial);
      SealedOctets(info.cipher, PacketOf(info, origin), d.data, o);
    }
  }

  /**
   A tag under the static secret was made by the client, for its hello, or by the server, in a response to this client.
   */
  lemma TagOnTheWire(x: Setup, st: State, o: Octet) returns (serial: Option<nat>)
    requires Inv(x, st) && OnTheWire(x, st, o) && o.Part? && o.source.Mac? && o.source.key == x.Key()
    ensures serial.None? ==>
      st.hails > 0 && o.source == Mac(x.Key(), HANDSHAKE_CONTEXT + ClientTranscript(x.sessionId, x.draw.Body()))
    ensures serial.Some? ==>
      && OfClient(x, st.server.events, serial.value)
      && var e := st.server.events[serial.value];
      o.source == Mac(x.Key(), HANDSHAKE_CONTEXT + ServerTranscript(e.hello.sessionId, e.hello.payload, e.draw.Body()))
  {
    hide Inv, SentByClient, SentByServer, ClientTranscript, ServerTranscript, AcceptClientHello, Accounted, InfoOf,
         SendKey, Carries;
    ProperSetup(x, st);
    if st.hails > 0 && o in x.ClientHello().packet.payload {
      HelloOctets(x, o);
      serial := None;
    } else if SentByClient(st, o) {
      var i := ClientOctets(x, st, o);
      serial := None;
    } else {
      var i := ServerOctets(x, st, o);
      serial := Some(st.server.tables.origins[i].serial);
      ReplyTag(x, st.server.events, st.server.tables.sent[i], st.server.tables.origins[i], o);
    }
  }

  lemma ProperSetup(x: Setup, st: State)
    requires Inv(x, st)
    ensures x.Proper()
  {
  }

  lemma ReplyTag(x: Setup, events: seq<HelloEvent>, d: Datagram, origin: Origin, o: Octet)
    requires x.Proper() && Accounted(x.cfg, events, d, origin)
    requires o in events[origin.serial].response.payload && o.Part? && o.source.Mac? && o.source.key == x.Key()
    ensures OfClient(x, events, origin.serial)
    ensures var e := events[origin.serial];
      o.source == Mac(x.Key(), HANDSHAKE_CONTEXT + ServerTranscript(e.hello.sessionId, e.hello.payload, e.draw.Body()))
  {
    hide Carries, InfoOf, Ipv4Destination, ServerTranscript;
    var e := events[origin.serial];
    ResponseOctets(e.hello, x.cfg.privateKey, e.identity.publicKey, e.draw, o);
    StaticKey(x, e.identity.publicKey);
  }

  // ----- the handshake

  /** A hello that verifies under this client's key is the one the client sent. */
  lemma HelloIsClients(x: Setup, st: State, data: Bytes, e: HelloEvent)
    requires Inv(x, st) && CanArrive(x, st, data) && Receive(data) == Ok(e.hello)
    requires VouchedHello(x.cfg, e) && e.identity.publicKey == PublicKey(x.clientKey)
    ensures st.hails > 0 && e.hello == x.ClientHello().packet
  {
    hide Inv, Receive, OnTheWire, ClientsKey, ServerTranscript, Encode;
    ProperSetup(x, st);
    StaticKey(x, []);
    var p := e.hello;
    var body := p.payload[..64];
    assert p.payload[64..][0] == Part(Mac(x.Key(), HANDSHAKE_CONTEXT + ClientTranscript(p.sessionId, body)), 0);
    var o := p.payload[64];
    PayloadOctets(data, p, 64);
    var serial := TagOnTheWire(x, st, o);
    if serial.Some? {
      var f := st.server.events[serial.value];
      RolesUnambiguous(p.sessionId, body, f.hello.sessionId, f.hello.payload, f.draw.Body());
      assert false;
    }
    ClientTranscriptInjective(p.sessionId, body, x.sessionId, x.draw.Body());
    assert p.payload == body + p.payload[64..];
  }

  /**
   A response that completes the handshake was sent by the server; the client's cipher mirrors that of the session
   opened.
   */
  lemma ResponseIsServers(x: Setup, st: State, arrival: Arrival, now: real) returns (serial: nat)
    requires Inv(x, st) && arrival.Arrived? && CanArrive(x, st, arrival.datagram.data)
    requires Answer(x.ClientHello().state, x.serverAddress, arrival).Ok?
    ensures PeerOf(x, Opening(x, Answer(x.ClientHello().state, x.serverAddress, arrival).value, now), st.server.events,
                   serial)
  {
    hide Inv, Receive, OnTheWire, ClientsKey, ClientTranscript, ServerTranscript, Encode, InfoOf, VouchedHello,
         CreateCipher, AcceptClientHello, CreateClientHello, DeriveSessionSecret;
    ProperSetup(x, st);
    StaticKey(x, []);
    var state, p := x.ClientHello().state, Receive(arrival.datagram.data).value;
    ClientState(x);
    var body := p.payload[..64];
    assert p.payload[64..][0]
      == Part(Mac(x.Key(), HANDSHAKE_CONTEXT + ServerTranscript(x.sessionId, state.helloPayload, body)), 0);
    var o := p.payload[64];
    PayloadOctets(arrival.datagram.data, p, 64);
    var origin := TagOnTheWire(x, st, o);
    if origin.None? {
      RolesUnambiguous(x.sessionId, x.draw.Body(), x.sessionId, state.helloPayload, body);
      assert false;
    }
    serial := origin.value;
    var e := st.server.events[serial];
    OpenedCipher(x.cfg, st.server.events, serial);
    AcceptedSecret(x, e, p, body);
    OpeningCipher(x, st.server.events, serial, Answer(state, x.serverAddress, arrival).value);
  }

  lemma ClientState(x: Setup)
    requires x.Proper()
    ensures var h := x.ClientHello();
      h.state == ClientHandshakeState(x.sessionId, x.clientKey, PublicKey(x.cfg.privateKey), x.draw.ephemeral,
                                      h.packet.payload)
    ensures |x.ClientHello().packet.payload| == HELLO_PAYLOAD_SIZE
    ensures x.ClientHello().packet.payload[..32] == PublicKey(x.draw.ephemeral)
  {
    assert x.ClientHello().packet.payload[..32] == x.draw.Body()[..32];
  }

  /** The accept call behind a response with the right transcript computed the client's secret. */
  lemma AcceptedSecret(x: Setup, e: HelloEvent, p: Packet, body: Bytes)
    requires x.Proper() && VouchedHello(x.cfg, e) && e.identity.publicKey == PublicKey(x.clientKey)
    requires ValidateHello(p, MessageType.SERVER_HELLO).None? && body == p.payload[..64]
    requires FinishClientHandshake(x.ClientHello().state, p).Ok?
    requires HANDSHAKE_CONTEXT + ServerTranscript(e.hello.sessionId, e.hello.payload, e.draw.Body())
      == HANDSHAKE_CONTEXT + ServerTranscript(x.sessionId, x.ClientHello().packet.payload, body)
    ensures e.hello.sessionId == x.sessionId
    ensures AcceptClientHello(e.hello, x.cfg.privateKey, e.identity.publicKey, e.draw).value.secret
      == FinishClientHandshake(x.ClientHello().state, p).value
  {
    ClientState(x);
    StaticKey(x, []);
    hide CreateClientHello, ClientTranscript, Setup.ClientHello;
    ServerTranscriptInjective(e.hello.sessionId, e.hello.payload, e.draw.Body(), x.sessionId,
                              x.ClientHello().packet.payload, body);
    var response := AcceptClientHello(e.hello, x.cfg.privateKey, e.identity.publicKey, e.draw).value.response;
    assert p.payload == body + p.payload[64..];
    assert response.payload == p.payload;
    assert p.payload[..32] == e.draw.Body()[..32];
    RolesDeriveSameSecret(x.draw.ephemeral, e.draw.ephemeral, x.clientKey, x.cfg.privateKey, e.hello.payload,
                          p.payload);
  }

  lemma OpeningCipher(x: Setup, events: seq<HelloEvent>, serial: nat, secret: Bytes)
    requires x.Proper() && |secret| == 32 && Opened(x.cfg, events, serial)
    requires events[serial].hello.sessionId == x.sessionId
    requires var e := events[serial];
      AcceptClientHello(e.hello, x.cfg.privateKey, e.identity.publicKey, e.draw).value.secret == secret
    ensures InfoOf(x.cfg, events, serial).cipher
      == CreateCipher(secret, x.sessionId, Role.CLIENT, x.cfg.packetsPerKey).value.Mirror()
  {
    hide AcceptClientHello;
  }

  // ----- the tunnel

  /** What decrypts at one end holds an octet of the sealing that the other end's cipher makes of its plaintext. */
  lemma SealedArrival(spec: CipherSpec, data: Bytes, p: Packet, q: Packet) returns (o: Octet)
    requires spec.Usable() && Receive(data) == Ok(p) && spec.Mirror().Decrypt(p) == Ok(q)
    ensures q == p.(payload := q.payload) && FieldsFit(q) && |q.payload| + TAG_SIZE <= MAX_PAYLOAD_SIZE
    ensures o in data && o.Part?
    ensures o.source == Sealed(SendKey(spec, q.sequence), Nonce(q.sessionId, q.sequence),
      Header(q.kind, q.sessionId, q.sequence, |q.payload| + TAG_SIZE), q.payload)
  {
    hide Receive, CipherSpec.Decrypt, CipherSpec.Encrypt, SendKey, Nonce, Header;
    assert Encode(p).Ok?;
    PeersInterop(spec, q, p);
    EncryptSucceeds(spec, q);
    o := p.payload[0];
    PayloadOctets(data, p, 0);
  }

  /** A packet delivered from one of this client's sessions was sent by its endpoint, in the session joined with it. */
  lemma WrittenWasSent(x: Setup, st: State, data: Bytes, d: ClientDelivery)
    requires Inv(x, st) && CanArrive(x, st, data) && Receive(data) == Ok(d.packet)
    requires Delivered(x.cfg, st.server.events, d) && OfClient(x, st.server.events, d.serial)
    ensures SentUp(x, st.client, st.server.events, d)
  {
    hide Inv, Receive, OnTheWire, SentByClient, SentByServer, InfoOf, Opened, Carries, SendKey, Nonce, Header,
         CipherSpec.Decrypt, VouchedHello, Accounted, ValidIpv4, Ipv4Source;
    ProperSetup(x, st);
    var events := st.server.events;
    OpenedCipher(x.cfg, events, d.serial);
    var cipher := InfoOf(x.cfg, events, d.serial).cipher;
    var spec := cipher.Mirror();
    assert spec.Mirror() == cipher;
    var q := d.packet.(payload := d.payload);
    var o := SealedArrival(spec, data, d.packet, q);
    assert KeyAt(x, events, d.serial, q.sequence, SendKey(spec, q.sequence));
    WhoSealedUp(x, st, o, spec, q);
    var i := ClientOctets(x, st, o);
    var e := st.client.endpoint;
    JoinedCipher(x, st);
    SealingDeterminesPacket(spec, q, e.cipher.value, e.log[i], e.sent[i].data, o);
  }

  lemma JoinedCipher(x: Setup, st: State)
    requires Inv(x, st) && st.client.Connected?
    ensures var e := st.client.endpoint;
      && e.cipher.Some? && e.cipher.value.Usable() && e.cipher.value.role == Role.CLIENT
      && e.cipher.value.packetsPerKey == x.cfg.packetsPerKey && e.cipher.value.sessionId == e.sessionId
      && e.interval == x.interval && e.liveness == x.liveness
  {
  }

  /** Keys of the two directions differ, whatever sessions they belong to. */
  lemma RolesKeysDiffer(spec: CipherSpec, other: CipherSpec, n: nat, m: nat)
    requires spec.Usable() && other.Usable() && spec.role == Role.CLIENT && other.role == Role.SERVER
    ensures SendKey(spec, n) != SendKey(other, m)
  {
    assert SendKey(spec, n)[0].index == 0 && SendKey(other, m)[0].index == AES_KEY_SIZE;
  }

  /** Only the client's endpoint seals in the client's direction. */
  lemma WhoSealedUp(x: Setup, st: State, o: Octet, spec: CipherSpec, q: Packet)
    requires Inv(x, st) && OnTheWire(x, st, o) && o.Part? && o.source.Sealed? && q.sequence >= 0
    requires spec.Usable() && spec.role == Role.CLIENT && o.source.key == SendKey(spec, q.sequence)
    ensures st.client.Connected? && SentByClient(st, o)
  {
    ProperSetup(x, st);
    assert SentByClient(st, o) ==> st.client.Connected?;
    hide Inv, SentByClient, SentByServer, InfoOf, Opened, Carries, SendKey, VouchedHello;
    if !SentByClient(st, o) {
      if st.hails > 0 && o in x.ClientHello().packet.payload {
        HelloOctets(x, o);
      } else {
        var i := ServerOctets(x, st, o);
        var origin := st.server.tables.origins[i];
        OpenedCipher(x.cfg, st.server.events, origin.serial);
        RolesKeysDiffer(spec, InfoOf(x.cfg, st.server.events, origin.serial).cipher, q.sequence, origin.sequence);
      }
    }
  }

  /** Only the server seals in the server's direction. */
  lemma WhoSealedDown(x: Setup, st: State, o: Octet, spec: CipherSpec, q: Packet)
    requires Inv(x, st) && OnTheWire(x, st, o) && o.Part? && o.source.Sealed? && q.sequence >= 0
    requires spec.Usable() && spec.role == Role.SERVER && o.source.key == SendKey(spec, q.sequence)
    ensures SentByServer(st, o)
  {
    ProperSetup(x, st);
    hide Inv, SentByClient, SentByServer, Carries, SendKey;
    if !SentByServer(st, o) {
      if st.hails > 0 && o in x.ClientHello().packet.payload {
        HelloOctets(x, o);
      } else {
        var i := ClientOctets(x, st, o);
        JoinedCipher(x, st);
        RolesKeysDiffer(st.client.endpoint.cipher.value, spec, i, q.sequence);
      }
    }
  }

  /** A packet the client accepts was sealed by the server, in the session joined with the client's endpoint. */
  lemma AcceptedWasSealed(x: Setup, st: State, d: Datagram) returns (place: nat)
    requires Inv(x, st) && st.client.Connected? && Proper(st.client.endpoint)
    requires CanArrive(x, st, d.data) && Accepts(st.client.endpoint, d)
    ensures var e := st.client.endpoint;
      var q := e.cipher.value.Decrypt(Receive(d.data).value).value;
      && q.kind == DATA
      && SentDown(x, e, st.server.events, st.server.tables.origins, Delivery(q.sequence, q.payload), place)
  {
    hide Inv, Receive, OnTheWire, SentByClient, SentByServer, InfoOf, Opened, Carries, SendKey, Nonce, Header,
         CipherSpec.Decrypt, VouchedHello, Accounted;
    ProperSetup(x, st);
    JoinedCipher(x, st);
    var e, events := st.client.endpoint, st.server.events;
    var p := Receive(d.data).value;
    var q := e.cipher.value.Decrypt(p).value;
    var spec := e.cipher.value.Mirror();
    assert spec.Mirror() == e.cipher.value;
    var o := SealedArrival(spec, d.data, p, q);
    var serial := JoinedSession(x, st);
    assert KeyAt(x, events, serial, q.sequence, SendKey(spec, q.sequence));
    WhoSealedDown(x, st, o, spec, q);
    place := ServerOctets(x, st, o);
    var origin := st.server.tables.origins[place];
    TransmissionDetermined(x, events, st.server.tables.sent[place], origin, spec, q, o);
    SameCipherSameClient(x, events, serial, origin.serial);
  }

  lemma JoinedSession(x: Setup, st: State) returns (serial: nat)
    requires Inv(x, st) && st.client.Connected?
    ensures PeerOf(x, st.client.endpoint, st.server.events, serial)
    ensures InfoOf(x.cfg, st.server.events, serial).cipher.Usable()
  {
    hide Servers.Inv, HonestHellos, Upwards, Downwards;
    serial :| PeerOf(x, st.client.endpoint, st.server.events, serial);
    OpenedCipher(x.cfg, st.server.events, serial);
  }

  lemma TransmissionDetermined(x: Setup, events: seq<HelloEvent>, d: Datagram, origin: Origin, spec: CipherSpec,
                               q: Packet, o: Octet)
    requires Accounted(x.cfg, events, d, origin) && origin.Transmission?
    requires spec.Usable() && spec.packetsPerKey == x.cfg.packetsPerKey && FieldsFit(q)
    requires |q.payload| + TAG_SIZE <= MAX_PAYLOAD_SIZE
    requires o in d.data && o.Part?
    requires o.source == Sealed(SendKey(spec, q.sequence), Nonce(q.sessionId, q.sequence),
      Header(q.kind, q.sessionId, q.sequence, |q.payload| + TAG_SIZE), q.payload)
    ensures Opened(x.cfg, events, origin.serial) && InfoOf(x.cfg, events, origin.serial).cipher == spec
    ensures q.kind == DATA && origin.sequence == q.sequence && origin.payload == q.payload
  {
    OpenedCipher(x.cfg, events, origin.serial);
    hide InfoOf, Opened, SendKey, Nonce, Header, Carries, Ipv4Destination;
    var info := InfoOf(x.cfg, events, origin.serial);
    SealingDeterminesPacket(spec, q, info.cipher, PacketOf(info, origin), d.data, o);
  }

  /** Sessions with one cipher were opened for one client. */
  lemma SameCipherSameClient(x: Setup, events: seq<HelloEvent>, a: nat, b: nat)
    requires x.Proper() && OfClient(x, events, a) && Opened(x.cfg, events, b)
    requires InfoOf(x.cfg, events, a).cipher == InfoOf(x.cfg, events, b).cipher
    ensures OfClient(x, events, b) && events[a].draw.token == events[b].draw.token
  {
    OpenedCipher(x.cfg, events, a);
    OpenedCipher(x.cfg, events, b);
    var e, f := events[a], events[b];
    hide AcceptClientHello, InfoOf;
    SecretDeterminesCall(e.hello, f.hello, x.cfg.privateKey, e.identity.publicKey, f.identity.publicKey, e.draw,
                         f.draw);
    StaticKey(x, f.identity.publicKey);
  }

  // ----- every step keeps the invariant

  lemma OpenedPrefix(cfg: Config, events: seq<HelloEvent>, later: seq<HelloEvent>, serial: nat)
    requires events <= later && serial < |events|
    ensures Opened(cfg, later, serial) <==> Opened(cfg, events, serial)
    ensures Opened(cfg, events, serial) ==> InfoOf(cfg, later, serial) == InfoOf(cfg, events, serial)
    ensures later[serial] == events[serial]
  {
  }

  lemma OfClientPrefix(x: Setup, events: seq<HelloEvent>, later: seq<HelloEvent>)
    requires events <= later
    ensures forall serial: nat :: OfClient(x, events, serial) ==> OfClient(x, later, serial)
    ensures forall serial: nat :: OfClient(x, later, serial) && serial < |events| ==> OfClient(x, events, serial)
    ensures forall e, serial: nat :: PeerOf(x, e, events, serial) ==> PeerOf(x, e, later, serial)
  {
    forall serial: nat | serial < |events|
      ensures Opened(x.cfg, later, serial) <==> Opened(x.cfg, events, serial)
      ensures Opened(x.cfg, events, serial) ==> InfoOf(x.cfg, later, serial) == InfoOf(x.cfg, events, serial)
    {
      OpenedPrefix(x.cfg, events, later, serial);
    }
    assert forall serial: nat :: OfClient(x, events, serial) ==> serial < |events|;
    hide InfoOf, VouchedHello;
  }

  /** What was received stays so while the logs grow. */
  lemma ReceivedGrows(x: Setup, e: Endpoint, a: Endpoint, events: seq<HelloEvent>, later: seq<HelloEvent>,
                      log: seq<Origin>, longer: seq<Origin>, d: Delivery)
    requires Received(x, e, events, log, d) && events <= later && log <= longer && a.cipher == e.cipher
    ensures Received(x, a, later, longer, d)
  {
    OfClientPrefix(x, events, later);
    hide OfClient, InfoOf;
    var place: nat :| SentDown(x, e, events, log, d, place);
    assert SentDown(x, a, later, longer, d, place);
  }

  /** The server's half moves on: new hellos under the client's key are its own, new writes are the client's packets. */
  lemma ServerGrows(x: Setup, st: State, s: Server)
    requires Inv(x, st) && Servers.Inv(x.cfg, s)
    requires st.server.events <= s.events && st.server.tables.origins <= s.tables.origins
    requires st.server.tables.written <= s.tables.written
    requires forall serial: nat :: serial >= |st.server.events| && OfClient(x, s.events, serial) ==>
      st.hails > 0 && s.events[serial].hello == x.ClientHello().packet
    requires forall k | |st.server.tables.written| <= k < |s.tables.written| ::
      OfClient(x, s.events, s.tables.written[k].serial) ==> SentUp(x, st.client, s.events, s.tables.written[k])
    ensures Inv(x, st.(server := s))
  {
    OfClientPrefix(x, st.server.events, s.events);
    OldSerials(x, st);
    hide Servers.Inv, OfClient, PeerOf, SentUp, Downwards, Network.SendsWhatItRead;
    UpwardsGrow(x, st.client, st.server.events, s.events, st.server.tables.written, s.tables.written);
    hide Upwards;
    DownwardsGrow(x, st.client, st.server.events, s.events, st.server.tables.origins, s.tables.origins);
  }

  lemma UpwardsGrow(x: Setup, client: Client, events: seq<HelloEvent>, later: seq<HelloEvent>,
                    written: seq<ClientDelivery>, longer: seq<ClientDelivery>)
    requires Upwards(x, client, events, written) && events <= later && written <= longer
    requires forall k :: 0 <= k < |written| ==> written[k].serial < |events|
    requires forall k :: |written| <= k < |longer| && OfClient(x, later, longer[k].serial) ==>
      SentUp(x, client, later, longer[k])
    ensures Upwards(x, client, later, longer)
  {
    OfClientPrefix(x, events, later);
    hide OfClient, PeerOf;
    forall k | 0 <= k < |longer| && OfClient(x, later, longer[k].serial) ensures SentUp(x, client, later, longer[k]) {
      if k < |written| { assert SentUp(x, client, events, written[k]); }
    }
  }

  lemma DownwardsGrow(x: Setup, client: Client, events: seq<HelloEvent>, later: seq<HelloEvent>, log: seq<Origin>,
                      longer: seq<Origin>)
    requires Downwards(x, client, events, log) && events <= later && log <= longer
    ensures Downwards(x, client, later, longer)
  {
    hide Received;
    if client.Connected? {
      var e := client.endpoint;
      forall k | 0 <= k < |e.written| ensures Received(x, e, later, longer, e.written[k]) {
        ReceivedGrows(x, e, e, events, later, log, longer, e.written[k]);
      }
    }
  }

  lemma OldSerials(x: Setup, st: State)
    requires Inv(x, st)
    ensures forall k :: 0 <= k < |st.server.tables.written| ==> st.server.tables.written[k].serial < |st.server.events|
  {
    hide SessionInv, CacheInv, EventInv, SendingInv, HonestHellos, Joined, Upwards, Downwards, InfoOf, Authentic,
         VouchedHello;
    var s := st.server;
    forall k | 0 <= k < |s.tables.written| ensures s.tables.written[k].serial < |s.events| {
      assert Delivered(x.cfg, s.events, s.tables.written[k]);
    }
  }

  lemma TunHalfKeeps(x: Setup, st: State, i: ServerInput)
    requires Inv(x, st) && ProperTables(st.server.tables) && Bijective(st.server.tables)
    ensures Inv(x, st.(server := AfterTun(st.server, i)))
  {
    if i.tun.Some? {
      TunLogs(st.server.tables, i.tun.value);
      TunKeeps(x.cfg, st.server, i.tun.value);
      OldEvents(x, st);
      hide Inv, Servers.Inv, HandleTun, OfClient, SentUp;
      ServerGrows(x, st, AfterTun(st.server, i));
    }
  }

  lemma OldEvents(x: Setup, st: State)
    requires Inv(x, st)
    ensures Servers.Inv(x.cfg, st.server)
    ensures forall serial: nat :: OfClient(x, st.server.events, serial) ==> serial < |st.server.events|
  {
  }

  lemma DatagramHalfKeeps(x: Setup, st: State, d: Datagram, draw: Draw, taken: int)
    requires Inv(x, st) && CanArrive(x, st, d.data) && draw.Proper() && ProperTables(st.server.tables)
    ensures Inv(x, st.(server := HandleDatagram(x.cfg, st.server, d, draw, taken).0))
  {
    OldEvents(x, st);
    DatagramKeeps(x.cfg, st.server, d, draw, taken);
    DatagramLogs(x.cfg, st.server, d, draw, taken);
    ProperSetup(x, st);
    var s := HandleDatagram(x.cfg, st.server, d, draw, taken).0;
    hide HandleDatagram, CanArrive, Receive;
    hide Inv, Servers.Inv, InfoOf, VouchedHello, Delivered, SentUp;
    forall serial: nat | serial >= |st.server.events| && OfClient(x, s.events, serial)
      ensures st.hails > 0 && s.events[serial].hello == x.ClientHello().packet
    {
      HelloIsClients(x, st, d.data, s.events[serial]);
    }
    forall k | |st.server.tables.written| <= k < |s.tables.written| && OfClient(x, s.events, s.tables.written[k].serial)
      ensures SentUp(x, st.client, s.events, s.tables.written[k])
    {
      WriteDelivered(x, s, k);
      WrittenWasSent(x, st, d.data, s.tables.written[k]);
    }
    ServerGrows(x, st, s);
  }

  lemma WriteDelivered(x: Setup, s: Server, k: nat)
    requires Servers.Inv(x.cfg, s) && k < |s.tables.written|
    ensures Delivered(x.cfg, s.events, s.tables.written[k])
  {
  }

  lemma ServerPassKeeps(x: Setup, st: State, i: ServerInput)
    requires Inv(x, st) && Allowed(x, st, ServerPass(i))
    ensures Inv(x, Next(x, st, ServerPass(i)))
  {
    hide Inv, HandleTun, HandleDatagram, CanArrive, ProperTables, Bijective;
    ProperSetup(x, st);
    TunHalfKeeps(x, st, i);
    var mid := st.(server := AfterTun(st.server, i));
    MidTables(x, mid);
    if (i.tun.Some? ==> HandleTun(st.server.tables, i.tun.value).1.Ok?) && i.udp.Some? {
      DatagramHalfKeeps(x, mid, i.udp.value, i.draw, i.taken);
    }
    ServerUpIsIrrelevant(x, st.(server := Next(x, st, ServerPass(i)).server), Next(x, st, ServerPass(i)).serverUp);
  }

  lemma MidTables(x: Setup, st: State)
    requires Inv(x, st)
    ensures ProperTables(st.server.tables) && Bijective(st.server.tables)
  {
  }

  lemma ServerUpIsIrrelevant(x: Setup, st: State, up: bool)
    requires Inv(x, st)
    ensures Inv(x, st.(serverUp := up))
  {
  }

  /** The client's half moves on without receiving. */
  lemma ClientGrows(x: Setup, st: State, a: Endpoint, up: bool)
    requires Inv(x, st) && st.client.Connected?
    requires Network.SendsWhatItRead(a, up) && Network.Grown(st.client.endpoint, a)
    requires Network.SameReceiver(st.client.endpoint, a)
    ensures Inv(x, st.(client := Connected(a, up, st.client.since)))
  {
    hide Servers.Inv, HonestHellos, Network.SendsWhatItRead, OfClient, InfoOf;
    var e, events, log := st.client.endpoint, st.server.events, st.server.tables.origins;
    forall serial: nat | PeerOf(x, e, events, serial) ensures PeerOf(x, a, events, serial) {}
    forall k | 0 <= k < |a.written| ensures Received(x, a, events, log, a.written[k]) {
      ReceivedGrows(x, e, a, events, events, log, log, e.written[k]);
    }
    StillUpwards(x, st, a, up);
  }

  lemma StillUpwards(x: Setup, st: State, a: Endpoint, up: bool)
    requires Inv(x, st) && st.client.Connected? && Network.Grown(st.client.endpoint, a)
    ensures Upwards(x, Connected(a, up, st.client.since), st.server.events, st.server.tables.written)
  {
    hide Servers.Inv, HonestHellos, Joined, Downwards, OfClient, InfoOf;
    var events, written := st.server.events, st.server.tables.written;
    forall k | 0 <= k < |written| && OfClient(x, events, written[k].serial)
      ensures SentUp(x, Connected(a, up, st.client.since), events, written[k])
    {
      assert SentUp(x, st.client, events, written[k]);
    }
  }

  /** The client delivers one more packet, which the server sealed and which it had not marked. */
  lemma ClientReceives(x: Setup, st: State, a: Endpoint, up: bool, d: Delivery, place: nat)
    requires Inv(x, st) && st.client.Connected?
    requires Network.SendsWhatItRead(a, up) && Network.Grown(st.client.endpoint, a)
    requires a.written == st.client.endpoint.written + [d]
    requires d.sequence !in st.client.endpoint.marks && a.marks == st.client.endpoint.marks + {d.sequence}
    requires SentDown(x, st.client.endpoint, st.server.events, st.server.tables.origins, d, place)
    ensures Inv(x, st.(client := Connected(a, up, st.client.since)))
  {
    hide Servers.Inv, HonestHellos, Network.SendsWhatItRead, OfClient, InfoOf;
    var e, events, log := st.client.endpoint, st.server.events, st.server.tables.origins;
    forall serial: nat | PeerOf(x, e, events, serial) ensures PeerOf(x, a, events, serial) {}
    assert SentDown(x, a, events, log, d, place);
    OneMoreDelivered(e.written, d);
    forall k | 0 <= k < |a.written| ensures Received(x, a, events, log, a.written[k]) {
      if k < |e.written| { ReceivedGrows(x, e, a, events, events, log, log, e.written[k]); }
    }
    StillUpwards(x, st, a, up);
  }

  lemma OneMoreDelivered(written: seq<Delivery>, d: Delivery)
    ensures DeliveredNumbers(written + [d]) == DeliveredNumbers(written) + {d.sequence}
    ensures forall k :: 0 <= k < |written| ==> written[k].sequence in DeliveredNumbers(written)
  {
    var more := written + [d];
    assert forall k :: 0 <= k < |written| ==> more[k] == written[k];
    assert more[|written|].sequence in DeliveredNumbers(more);
    forall n | n in DeliveredNumbers(written) ensures n in DeliveredNumbers(more) {
      var k :| 0 <= k < |written| && written[k].sequence == n;
      assert more[k].sequence == n;
    }
  }

  lemma SendingHalf(x: Setup, st: State)
    requires Inv(x, st) && st.client.Connected?
    ensures Network.SendsWhatItRead(st.client.endpoint, st.client.up)
  {
  }

  lemma ClientPassKeeps(x: Setup, st: State, i: Endpoints.Input)
    requires Inv(x, st) && Allowed(x, st, ClientPass(i))
    ensures Inv(x, Next(x, st, ClientPass(i)))
  {
    hide Inv, CanArrive, UdpStage, Maintain, Network.SendsWhatItRead, Accepts, CipherSpec.Decrypt, Receive;
    var e := st.client.endpoint;
    SendingHalf(x, st);
    JoinedCipher(x, st);
    Network.TunStageKeeps(e, i);
    var (m, error) := TunStage(e, i);
    hide TunStage;
    var (a, r) := Endpoints.Step(e, i);
    if error.Some? {
      ClientGrows(x, st, m, false);
    } else {
      Network.StepKeeps(e, i);
      ClientGrows(x, st, m, true);
      if Network.SameReceiver(e, a) {
        ClientGrows(x, st, a, r.Ok?);
      } else {
        ClientAccepts(x, st, m, i, a, r.Ok?);
      }
    }
  }

  /** The same for a whole pass from `st`, which was at `m` when the datagram came. */
  lemma ClientAccepts(x: Setup, st: State, m: Endpoint, i: Endpoints.Input, a: Endpoint, up: bool)
    requires Inv(x, st) && st.client.Connected? && Network.SendsWhatItRead(a, up)
    requires Network.Grown(st.client.endpoint, a)
    requires Network.Grown(st.client.endpoint, m) && Network.SameReceiver(st.client.endpoint, m) && Proper(m)
    requires var mid := st.(client := Connected(m, true, st.client.since));
      Inv(x, mid) && i.udp.Some? && CanArrive(x, mid, i.udp.value.data) && Accepts(m, i.udp.value)
    requires Network.SameReceiver(UdpStage(m, i).0, a)
    ensures Inv(x, st.(client := Connected(a, up, st.client.since)))
  {
    hide Inv, CanArrive, Network.SendsWhatItRead, OfClient, InfoOf, Receive, CipherSpec.Decrypt, ReceiveUdpPacket;
    var d := i.udp.value;
    var place := AcceptedWasSealed(x, st.(client := Connected(m, true, st.client.since)), d);
    ReceiveEffect(m, d, i.receivedAt, i.taken);
    var p := Receive(d.data).value;
    Network.DecryptKeepsHeader(m.cipher.value, p);
    ClientReceives(x, st, a, up, Delivery(p.sequence, m.cipher.value.Decrypt(p).value.payload), place);
  }

  lemma ClientHearsKeeps(x: Setup, st: State, arrival: Arrival, now: real)
    requires Inv(x, st) && Allowed(x, st, ClientHears(arrival, now))
    ensures Inv(x, Next(x, st, ClientHears(arrival, now)))
  {
    hide Servers.Inv, HonestHellos, CanArrive, OfClient, InfoOf, CreateClientHello, FinishClientHandshake, Receive,
         PeerOf, Endpoints.Counted, Opening;
    var answer := Answer(x.ClientHello().state, x.serverAddress, arrival);
    if answer.Ok? {
      var serial := ResponseIsServers(x, st, arrival, now);
      OpeningIsFresh(x, answer.value, now);
      assert PeerOf(x, Opening(x, answer.value, now), st.server.events, serial);
    }
  }

  lemma OpeningIsFresh(x: Setup, secret: Bytes, now: real)
    requires x.Proper() && |secret| == 32
    ensures var e := Opening(x, secret, now);
      && Network.SendsWhatItRead(e, true) && e.written == [] && e.marks == {} && e.lastReceive == now
      && e.cipher.Some? && e.cipher.value.Usable() && e.cipher.value.role == Role.CLIENT
      && e.cipher.value.packetsPerKey == x.cfg.packetsPerKey && e.cipher.value.sessionId == e.sessionId
      && e.interval == x.interval && e.liveness == x.liveness
  {
  }

  lemma NextKeeps(x: Setup, st: State, a: Action)
    requires Inv(x, st) && Allowed(x, st, a)
    ensures Inv(x, Next(x, st, a))
  {
    match a
    case ClientHails => hide Servers.Inv, Joined, Upwards, Downwards, OfClient;
    case ClientHears(arrival, now) => hide Inv, Next, Allowed; ClientHearsKeeps(x, st, arrival, now);
    case ClientPass(i) => hide Inv, Next, Allowed; ClientPassKeeps(x, st, i);
    case ServerPass(i) => hide Inv, Next, Allowed; ServerPassKeeps(x, st, i);
  }

  // ----- whole runs

  ghost function Start(x: Setup): State {
    State(0, if x.attempts == 0 then GaveUp else Hailing(0), START, true)
  }

  ghost predicate AllowedRun(x: Setup, st: State, actions: seq<Action>)
    requires x.Proper()
    decreases |actions|
  {
    actions == [] || (Allowed(x, st, actions[0]) && AllowedRun(x, Next(x, st, actions[0]), actions[1..]))
  }

  ghost function Run(x: Setup, st: State, actions: seq<Action>): State
    requires x.Proper() && AllowedRun(x, st, actions)
    decreases |actions|
  {
    if actions == [] then st else Run(x, Next(x, st, actions[0]), actions[1..])
  }

  lemma {:induction false} RunKeeps(x: Setup, st: State, actions: seq<Action>)
    requires Inv(x, st) && x.Proper() && AllowedRun(x, st, actions)
    ensures Inv(x, Run(x, st, actions))
    decreases |actions|
  {
    if actions != [] {
      hide Inv, Next, Allowed;
      NextKeeps(x, st, actions[0]);
      RunKeeps(x, Next(x, st, actions[0]), actions[1..]);
    }
  }

  lemma StartInv(x: Setup)
    requires x.Proper()
    ensures Inv(x, Start(x))
  {
    Servers.StartInv(x.cfg);
    hide Servers.Inv;
  }

  /** Which of its TUN reads an endpoint sent as packet `sequence`, if that is DATA. */
  ghost function ReadPosition(e: Endpoint, sequence: int): nat
    requires 0 <= sequence < |e.log|
  {
    |DataPayloads(e.log[..sequence])|
  }

  /** The DATA packet `sequence` carries the payload that the endpoint read for it. */
  ghost predicate ReadFor(e: Endpoint, sequence: int, payload: Bytes) {
    && 0 <= sequence < |e.log| && e.log[sequence].kind == DATA && e.log[sequence].payload == payload
    && ReadPosition(e, sequence) < |e.tunRead| && e.tunRead[ReadPosition(e, sequence)] == payload
  }

  /**
   Upwards: over every run, each packet that the server writes to its TUN device for a session of this client is one
   that the client's TUN device supplied, in a session the client joined, and no session writes a number twice.
   */
  lemma UpwardsAuthentic(x: Setup, actions: seq<Action>, k: nat)
    requires x.Proper() && AllowedRun(x, Start(x), actions)
    requires var st := Run(x, Start(x), actions);
      k < |st.server.tables.written| && OfClient(x, st.server.events, st.server.tables.written[k].serial)
    ensures var st := Run(x, Start(x), actions);
      var d := st.server.tables.written[k];
      && st.client.Connected? && PeerOf(x, st.client.endpoint, st.server.events, d.serial)
      && ReadFor(st.client.endpoint, d.packet.sequence, d.payload)
      && (forall j :: 0 <= j < k && st.server.tables.written[j].serial == d.serial ==>
            st.server.tables.written[j].packet.sequence != d.packet.sequence)
  {
    StartInv(x);
    RunKeeps(x, Start(x), actions);
    var st := Run(x, Start(x), actions);
    hide Run, AllowedRun, HonestHellos, Downwards, OfClient, InfoOf, SessionInv, CacheInv, EventInv, SendingInv,
         Delivered;
    assert SentUp(x, st.client, st.server.events, st.server.tables.written[k]);
    var e := st.client.endpoint;
    Network.DataPosition(e.log, st.server.tables.written[k].packet.sequence);
  }

  /** A client that is through with its handshake shares its cipher with a session that the server opened for it. */
  lemma ConnectedMeansOpened(x: Setup, actions: seq<Action>) returns (serial: nat)
    requires x.Proper() && AllowedRun(x, Start(x), actions)
    requires Run(x, Start(x), actions).client.Connected?
    ensures var st := Run(x, Start(x), actions);
      && PeerOf(x, st.client.endpoint, st.server.events, serial)
      && st.server.events[serial].hello == x.ClientHello().packet
  {
    StartInv(x);
    RunKeeps(x, Start(x), actions);
    var st := Run(x, Start(x), actions);
    hide Run, AllowedRun, Servers.Inv, Upwards, Downwards;
    serial := JoinedSession(x, st);
  }

  // ----- the server's part of a run is a run of the server

  ghost function ServerInputs(actions: seq<Action>): seq<ServerInput> {
    if actions == [] then []
    else (if actions[0].ServerPass? then [actions[0].serverInput] else []) + ServerInputs(actions[1..])
  }

  lemma {:induction false} ServerRuns(x: Setup, st: State, actions: seq<Action>)
    requires Inv(x, st) && x.Proper() && AllowedRun(x, st, actions)
    ensures forall i :: i in ServerInputs(actions) ==> i.draw.Proper()
    ensures !st.serverUp ==> ServerInputs(actions) == []
    ensures Servers.Inv(x.cfg, st.server)
    ensures Run(x, st, actions).server == Servers.Run(x.cfg, st.server, ServerInputs(actions)).0
    decreases |actions|
  {
    OldEvents(x, st);
    if actions != [] {
      hide Inv, Servers.Inv, Servers.Step, CanArrive, Endpoints.Step, Answer;
      NextKeeps(x, st, actions[0]);
      var u := Next(x, st, actions[0]);
      ServerRuns(x, u, actions[1..]);
      if actions[0].ServerPass? {
        var rest := ServerInputs(actions[1..]);
        assert ServerInputs(actions)[0] == actions[0].serverInput && ServerInputs(actions)[1..] == rest;
      } else {
        assert ServerInputs(actions) == ServerInputs(actions[1..]);
      }
    }
  }

  /** With fresh randomness on the server, the session the client joined is one and the same. */
  lemma OnePeer(x: Setup, actions: seq<Action>, a: nat, b: nat)
    requires x.Proper() && AllowedRun(x, Start(x), actions) && FreshDraws(ServerInputs(actions))
    requires var st := Run(x, Start(x), actions);
      && st.client.Connected?
      && PeerOf(x, st.client.endpoint, st.server.events, a) && PeerOf(x, st.client.endpoint, st.server.events, b)
    ensures a == b
  {
    RunKeepsDrawsApart(x, actions);
    var st := Run(x, Start(x), actions);
    hide Run, AllowedRun, FreshDraws, InfoOf;
    SameCipherSameClient(x, st.server.events, a, b);
  }

  lemma RunKeepsDrawsApart(x: Setup, actions: seq<Action>)
    requires x.Proper() && AllowedRun(x, Start(x), actions) && FreshDraws(ServerInputs(actions))
    ensures DrawsApart(Run(x, Start(x), actions).server.events, [])
  {
    StartInv(x);
    ServerRuns(x, Start(x), actions);
    RunDrawsApart(x.cfg, START, ServerInputs(actions));
  }

  lemma {:induction false} AppendActions(x: Setup, st: State, actions: seq<Action>, more: seq<Action>)
    requires x.Proper() && AllowedRun(x, st, actions) && AllowedRun(x, Run(x, st, actions), more)
    ensures AllowedRun(x, st, actions + more)
    ensures Run(x, st, actions + more) == Run(x, Run(x, st, actions), more)
    decreases |actions|
  {
    hide Allowed, Next;
    if actions == [] {
      assert actions + more == more;
    } else {
      AppendActions(x, Next(x, st, actions[0]), actions[1..], more);
      assert (actions + more)[1..] == actions[1..] + more;
    }
  }

  /** What the server's TUN device supplied over a run. */
  ghost function ServerReads(x: Setup, actions: seq<Action>): seq<Bytes>
    requires x.Proper() && AllowedRun(x, Start(x), actions)
  {
    StartInv(x);
    ServerRuns(x, Start(x), actions);
    TunReads(x.cfg, START, ServerInputs(actions))
  }

  /** Place `place` of the server's log is the packet, sealed for this client and addressed to its tunnel address. */
  ghost predicate SealedForClient(x: Setup, st: State, d: Delivery, place: nat)
    requires st.client.Connected?
  {
    && SentDown(x, st.client.endpoint, st.server.events, st.server.tables.origins, d, place)
    && Ipv4Destination(d.payload)
      == Some(InfoOf(x.cfg, st.server.events, st.server.tables.origins[place].serial).tunnel)
  }

  lemma WriteSealedForClient(x: Setup, st: State, k: nat) returns (place: nat)
    requires Inv(x, st) && st.client.Connected? && k < |st.client.endpoint.written|
    ensures SealedForClient(x, st, st.client.endpoint.written[k], place)
  {
    hide HonestHellos, Upwards, Joined, OfClient, InfoOf, SessionInv, CacheInv, EventInv, DeliveryInv, Carries,
         Ipv4Destination, SealedFor;
    var e, t := st.client.endpoint, st.server.tables;
    assert Received(x, e, st.server.events, t.origins, e.written[k]);
    place :| SentDown(x, e, st.server.events, t.origins, e.written[k], place);
    assert Accounted(x.cfg, st.server.events, t.sent[place], t.origins[place]);
  }

  /** The client's writes have distinct numbers, and distinct places in the server's log. */
  lemma WritesPlaced(x: Setup, st: State) returns (places: seq<nat>)
    requires Inv(x, st) && st.client.Connected?
    ensures var e := st.client.endpoint;
      && |places| == |e.written|
      && (forall k :: 0 <= k < |places| ==> SealedForClient(x, st, e.written[k], places[k]))
      && (forall j, k :: 0 <= j < k < |places| ==>
            e.written[j].sequence != e.written[k].sequence && places[j] != places[k])
  {
    hide *;
    NumbersApart(x, st);
    var e := st.client.endpoint;
    places := [];
    for k := 0 to |e.written|
      invariant |places| == k
      invariant forall i :: 0 <= i < k ==> SealedForClient(x, st, e.written[i], places[i])
    {
      var place := WriteSealedForClient(x, st, k);
      places := places + [place];
    }
    forall j, k | 0 <= j < k < |places| ensures places[j] != places[k] {
      SealedOnce(x, st, e.written[j], places[j]);
      SealedOnce(x, st, e.written[k], places[k]);
    }
  }

  lemma SealedOnce(x: Setup, st: State, d: Delivery, place: nat)
    requires st.client.Connected? && SealedForClient(x, st, d, place)
    ensures var log := st.server.tables.origins;
      place < |log| && log[place].Transmission? && log[place].sequence == d.sequence && log[place].payload == d.payload
  {
  }

  lemma NumbersApart(x: Setup, st: State)
    requires Inv(x, st) && st.client.Connected?
    ensures var e := st.client.endpoint;
      forall j, k :: 0 <= j < k < |e.written| ==> e.written[j].sequence != e.written[k].sequence
  {
  }

  /** The reads behind the server's log, over a run. */
  lemma LogRead(x: Setup, actions: seq<Action>) returns (reading: seq<nat>)
    requires x.Proper() && AllowedRun(x, Start(x), actions)
    ensures ReadInOrder(Run(x, Start(x), actions).server.tables.origins, 0, ServerReads(x, actions), reading)
  {
    StartInv(x);
    ServerRuns(x, Start(x), actions);
    hide Inv, Run, Servers.Inv, Servers.Run, ReadInOrder;
    reading := RunReads(x.cfg, START, ServerInputs(actions));
  }

  /**
   Downwards: over every run, each packet that the client writes to its TUN device is one that the server read from its
   own, addressed to this client, in the session the client joined; distinct writes come from distinct reads.
   */
  lemma DownwardsAuthentic(x: Setup, actions: seq<Action>) returns (places: seq<nat>, sources: seq<nat>)
    requires x.Proper() && AllowedRun(x, Start(x), actions)
    requires Run(x, Start(x), actions).client.Connected?
    ensures var st := Run(x, Start(x), actions);
      var e, tun := st.client.endpoint, ServerReads(x, actions);
      && |places| == |sources| == |e.written|
      && (forall k :: 0 <= k < |e.written| ==> SealedForClient(x, st, e.written[k], places[k]))
      && (forall k :: 0 <= k < |e.written| ==> sources[k] < |tun| && tun[sources[k]] == e.written[k].payload)
      && (forall j, k :: 0 <= j < k < |e.written| ==> sources[j] != sources[k])
      && (forall j, k :: 0 <= j < k < |e.written| ==> e.written[j].sequence != e.written[k].sequence)
  {
    hide Inv, Run, AllowedRun, Start, ServerReads, SealedForClient, Next, Allowed, Setup.Proper;
    StartInv(x);
    RunKeeps(x, Start(x), actions);
    var st := Run(x, Start(x), actions);
    places := WritesPlaced(x, st);
    var reading := LogRead(x, actions);
    var e, log := st.client.endpoint, st.server.tables.origins;
    forall k | 0 <= k < |places|
      ensures places[k] < |log| && log[places[k]].Transmission? && log[places[k]].payload == e.written[k].payload
    {
      SealedOnce(x, st, e.written[k], places[k]);
    }
    sources := seq(|places|, k requires 0 <= k < |places| => reading[places[k]]);
    forall j, k | 0 <= j < k < |places| ensures sources[j] != sources[k] {
      assert places[j] < places[k] || places[k] < places[j];
    }
  }

  /**
   With fresh randomness on the server, its writes for this client have distinct numbers, and come from distinct reads.
   */
  lemma UpwardsOnce(x: Setup, actions: seq<Action>, j: nat, k: nat)
    requires x.Proper() && AllowedRun(x, Start(x), actions) && FreshDraws(ServerInputs(actions))
    requires var s := Run(x, Start(x), actions).server;
      && j < k < |s.tables.written|
      && OfClient(x, s.events, s.tables.written[j].serial) && OfClient(x, s.events, s.tables.written[k].serial)
    ensures var st := Run(x, Start(x), actions);
      var d, d' := st.server.tables.written[j], st.server.tables.written[k];
      && st.client.Connected? && d.serial == d'.serial && d.packet.sequence != d'.packet.sequence
      && ReadFor(st.client.endpoint, d.packet.sequence, d.payload)
      && ReadFor(st.client.endpoint, d'.packet.sequence, d'.payload)
      && ReadPosition(st.client.endpoint, d.packet.sequence) != ReadPosition(st.client.endpoint, d'.packet.sequence)
  {
    UpwardsAuthentic(x, actions, j);
    UpwardsAuthentic(x, actions, k);
    var st := Run(x, Start(x), actions);
    var d, d' := st.server.tables.written[j], st.server.tables.written[k];
    OnePeer(x, actions, d.serial, d'.serial);
    var log, a, b := st.client.endpoint.log, d.packet.sequence, d'.packet.sequence;
    hide Run, AllowedRun, PeerOf, OfClient, FreshDraws;
    if a < b { Network.PositionsDistinct(log, a, b); } else { Network.PositionsDistinct(log, b, a); }
  }

  // ----- a network that behaves

  /** The client's hello verifies under no other key. */
  lemma OnlyClientsKey(x: Setup, peer: Bytes, draw: Draw)
    requires x.Proper() && draw.Proper() && AcceptClientHello(x.ClientHello().packet, x.cfg.privateKey, peer, draw).Ok?
    ensures peer == PublicKey(x.clientKey)
  {
    StaticKey(x, peer);
    var payload := x.ClientHello().packet.payload;
    var key := SharedSecret(x.cfg.privateKey, peer).value;
    assert payload[..64] == x.draw.Body();
    assert payload[64..] == AuthenticationTag(x.Key(), ClientTranscript(x.sessionId, x.draw.Body()));
    SpreadInjective(Mac(key, HANDSHAKE_CONTEXT + ClientTranscript(x.sessionId, x.draw.Body())),
                    Mac(x.Key(), HANDSHAKE_CONTEXT + ClientTranscript(x.sessionId, x.draw.Body())), 32, 32);
  }

  /** A registered client's hello is recognised as its own. */
  lemma ClientRecognised(x: Setup, i: nat, draw: Draw)
    requires x.Proper() && draw.Proper() && i < |x.cfg.clients| && x.cfg.clients[i].publicKey == PublicKey(x.clientKey)
    ensures var hello := x.ClientHello().packet;
      var r := Recognise(x.cfg, x.cfg.clients, hello, draw);
      && r.Some? && r.value.0.publicKey == PublicKey(x.clientKey)
      && AcceptClientHello(hello, x.cfg.privateKey, PublicKey(x.clientKey), draw) == Ok(r.value.1)
      && FinishClientHandshake(x.ClientHello().state, r.value.1.response) == Ok(r.value.1.secret)
  {
    HandshakeAgreement(x.clientKey, x.cfg.privateKey, x.sessionId, x.draw, draw);
    hide AcceptClientHello, FinishClientHandshake, CreateClientHello;
    var hello := x.ClientHello().packet;
    var r := Recognise(x.cfg, x.cfg.clients, hello, draw);
    assert !Unverified(x.cfg, x.cfg.clients[i], hello, draw);
    OnlyClientsKey(x, r.value.0.publicKey, draw);
  }

  /** The registry accepts a registered client's hello as new, unless it is cached. */
  lemma NewHelloAccepted(x: Setup, i: nat, cache: OrderedDict<Bytes, Grant>, address: Address, draw: Draw, serial: nat)
    requires x.Proper() && draw.Proper() && i < |x.cfg.clients| && x.cfg.clients[i].publicKey == PublicKey(x.clientKey)
    requires Fingerprint(x.ClientHello().packet).Ok? ==> Fingerprint(x.ClientHello().packet).value !in cache.items
    ensures var r := Recognise(x.cfg, x.cfg.clients, x.ClientHello().packet, draw);
      var (after, d) := Accept(x.cfg, cache, x.ClientHello().packet, address, draw, serial);
      && Fingerprint(x.ClientHello().packet).Ok? && r.Some? && d.Answered? && d.isNew
      && d.grant.identity == r.value.0 && r.value.0 in x.cfg.clients && r.value.0.publicKey == PublicKey(x.clientKey)
      && d.grant.response == r.value.1.response && Encode(r.value.1.response).Ok?
      && d.grant.info.Key() == SessionKey(address, x.sessionId) && d.grant.info.tunnel == r.value.0.tunnel
      && d.grant.serial == serial
      && after == Store(cache, Fingerprint(x.ClientHello().packet).value, d.grant, HANDSHAKE_CACHE_SIZE)
  {
    var hello := x.ClientHello().packet;
    assert hello.kind == MessageType.CLIENT_HELLO;
    ClientRecognised(x, i, draw);
    hide AcceptClientHello, CreateClientHello, Recognise, CreateCipher, Encode, Store;
  }

  /** The server opens a session for it and sends the response. */
  lemma FirstHelloHandled(x: Setup, i: nat, data: Bytes, address: Address, draw: Draw)
    requires x.Proper() && draw.Proper() && i < |x.cfg.clients| && x.cfg.clients[i].publicKey == PublicKey(x.clientKey)
    requires Encode(x.ClientHello().packet) == Ok(data)
    ensures var r := Recognise(x.cfg, x.cfg.clients, x.ClientHello().packet, draw);
      var (s, forwarded) := HandleDatagram(x.cfg, START, Datagram(data, address), draw, 0);
      && r.Some? && Encode(r.value.1.response).Ok?
      && forwarded == Ok(false) && s.tables.sent == [Datagram(Encode(r.value.1.response).value, address)]
      && |s.events| == 1 && SessionKey(address, x.sessionId) in s.tables.sessions && s.tables.written == []
      && s.tables.sessions[SessionKey(address, x.sessionId)].sendSequence == 0
  {
    hide Accept, Recognise, Receive, Encode, HandleUdp, AnsweredTables, Setup.ClientHello, SessionInfo.Key;
    ReceiveOfEncode(x.ClientHello().packet, data);
    NewHelloAccepted(x, i, START.cache, address, draw, 0);
    var d := Accept(x.cfg, START.cache, x.ClientHello().packet, address, draw, 0).1;
    FirstAnswer(Encode(d.grant.response).value, address, d.grant);
  }

  /** The same for a whole pass. */
  lemma FirstHelloAnswered(x: Setup, i: nat, data: Bytes, address: Address, draw: Draw)
    requires x.Proper() && draw.Proper() && i < |x.cfg.clients| && x.cfg.clients[i].publicKey == PublicKey(x.clientKey)
    requires Encode(x.ClientHello().packet) == Ok(data)
    ensures var r := Recognise(x.cfg, x.cfg.clients, x.ClientHello().packet, draw);
      var (s, forwarded) := Servers.Step(x.cfg, START, ServerInput(None, Some(Datagram(data, address)), draw, 0));
      && r.Some? && Encode(r.value.1.response).Ok?
      && forwarded == Ok(0) && s.tables.sent == [Datagram(Encode(r.value.1.response).value, address)]
      && |s.events| == 1 && SessionKey(address, x.sessionId) in s.tables.sessions && s.tables.written == []
      && s.tables.sessions[SessionKey(address, x.sessionId)].sendSequence == 0
  {
    hide HandleDatagram, HandleTun, Recognise, Encode, Setup.ClientHello;
    FirstHelloHandled(x, i, data, address, draw);
  }

  lemma FirstAnswer(data: Bytes, address: Address, grant: Grant)
    ensures var (t, error) := AnsweredTables(EMPTY, data, address, grant.serial, grant.info, true);
      && error == None && t.sent == [Datagram(data, address)] && t.written == []
      && grant.info.Key() in t.sessions && t.sessions[grant.info.Key()].sendSequence == 0
  {
  }

  /** When the first copy of a registered client's hello and the response both arrive, the client is connected. */
  lemma QuietNetworkConnects(x: Setup, i: nat, address: Address, draw: Draw, now: real) returns (actions: seq<Action>)
    requires x.Proper() && x.attempts > 0 && draw.Proper()
    requires i < |x.cfg.clients| && x.cfg.clients[i].publicKey == PublicKey(x.clientKey)
    ensures AllowedRun(x, Start(x), actions)
    ensures var st := Run(x, Start(x), actions);
      && st.client.Connected? && st.client.up && st.serverUp
      && |st.server.events| == 1 && SessionKey(address, x.sessionId) in st.server.tables.sessions
      && st.server.tables.sessions[SessionKey(address, x.sessionId)].sendSequence == 0
      && st.server.tables.written == [] && st.client.endpoint.log == [] && st.client.endpoint.written == []
  {
    hide Recognise, FinishClientHandshake, CreateClientHello, AcceptClientHello, Encode, Receive, Servers.Step,
         ClientsKey;
    ClientRecognised(x, i, draw);
    var hello := x.ClientHello().packet;
    var response := Recognise(x.cfg, x.cfg.clients, hello, draw).value.1.response;
    var up := Encode(hello).value;
    FirstHelloAnswered(x, i, up, address, draw);
    var down := Encode(response).value;
    ReceiveOfEncode(hello, up);
    ReceiveOfEncode(response, down);
    var a1, a2 := ClientHails, ServerPass(ServerInput(None, Some(Datagram(up, address)), draw, 0));
    var a3 := ClientHears(Arrived(Datagram(down, x.serverAddress)), now);
    var s0 := Start(x);
    var s1 := Next(x, s0, a1);
    assert Allowed(x, s1, a2);
    var s2 := Next(x, s1, a2);
    assert s2.server.tables.sent[0].data == down;
    assert Allowed(x, s2, a3);
    hide Allowed;
    assert Next(x, s2, a3).client.Connected?;
    ThreeActions(x, s0, a1, a2, a3);
    actions := [a1, a2, a3];
  }

  lemma OneAction(x: Setup, st: State, a: Action, rest: seq<Action>)
    requires x.Proper() && Allowed(x, st, a) && AllowedRun(x, Next(x, st, a), rest)
    ensures AllowedRun(x, st, [a] + rest) && Run(x, st, [a] + rest) == Run(x, Next(x, st, a), rest)
  {
    hide Allowed, Next;
    assert ([a] + rest)[1..] == rest;
  }

  lemma ThreeActions(x: Setup, st: State, a: Action, b: Action, c: Action)
    requires x.Proper() && Allowed(x, st, a)
    requires var u := Next(x, st, a); Allowed(x, u, b) && Allowed(x, Next(x, u, b), c)
    ensures AllowedRun(x, st, [a, b, c]) && Run(x, st, [a, b, c]) == Next(x, Next(x, Next(x, st, a), b), c)
  {
    hide Allowed, Next;
    var u := Next(x, st, a);
    var v := Next(x, u, b);
    OneAction(x, v, c, []);
    OneAction(x, u, b, [c]);
    OneAction(x, st, a, [b, c]);
    assert [c] + [] == [c] && [b] + [c] == [b, c] && [a] + [b, c] == [a, b, c];
  }
}
