/** The session and route tables of src/matf_vpn/multi_client.py and the packets passing them, on values. */
module SessionTables {
  import opened Outcome
  import opened Octets
  import opened Protocol
  import opened Transport
  import opened Replay
  import opened Ciphers

  // ----- IPv4 headers (section 3.1 of RFC 791)

  /** Version 4, a header length of at least 20 bytes, and a packet that holds the whole header. */
  predicate ValidIpv4(packet: Bytes) {
    && |packet| >= 20 && packet[0].Lit? && packet[0].value / 16 == 4
    && var headerLength := packet[0].value % 16 * 4;
    20 <= headerLength <= |packet|
  }

  function Ipv4Source(packet: Bytes): Option<nat> {
    if ValidIpv4(packet) then Number(packet[12..16]) else None
  }

  function Ipv4Destination(packet: Bytes): Option<nat> {
    if ValidIpv4(packet) then Number(packet[16..20]) else None
  }

  /** A packet with these header fields: version and header length in one byte, 11 more bytes, and both addresses. */
  function Ipv4Packet(version: nat, words: nat, fields: Bytes, source: nat, destination: nat, rest: Bytes): (r: Bytes)
    requires version < 16 && words < 16 && |fields| == 11
    ensures |r| == 20 + |rest|
  {
    [Lit(16 * version + words)] + fields + BigEndian(source, 4) + BigEndian(destination, 4) + rest
  }

  /** Such a packet is accepted exactly if it is of version 4 and holds a whole header; then both addresses are read. */
  lemma Ipv4Fields(version: nat, words: nat, fields: Bytes, source: nat, destination: nat, rest: Bytes)
    requires version < 16 && words < 16 && |fields| == 11 && source < 0x1_0000_0000 && destination < 0x1_0000_0000
    ensures var packet := Ipv4Packet(version, words, fields, source, destination, rest);
      if version == 4 && 5 <= words && 4 * words <= |packet| then
        Ipv4Source(packet) == Some(source) && Ipv4Destination(packet) == Some(destination)
      else
        Ipv4Source(packet) == None && Ipv4Destination(packet) == None
  {
    var packet := Ipv4Packet(version, words, fields, source, destination, rest);
    var n := 16 * version + words;
    assert n / 16 == version && n % 16 == words;
    WidthLimits();
    NumberOfBigEndian(source, 4);
    NumberOfBigEndian(destination, 4);
    assert packet[12..16] == BigEndian(source, 4) && packet[16..20] == BigEndian(destination, 4);
  }

  /** Which byte strings pass for IPv4 packets: first bytes 0x45 to 0x4F, and no fewer bytes than the header has. */
  lemma Ipv4Valid(packet: Bytes)
    ensures ValidIpv4(packet) <==>
      |packet| >= 20 && packet[0].Lit? && 0x45 <= packet[0].value <= 0x4F && 4 * (packet[0].value - 0x40) <= |packet|
  {
  }

  // ----- sessions

  datatype SessionKey = SessionKey(remote: Address, sessionId: int)

  /** The fixed part of a client session. */
  datatype SessionInfo = SessionInfo(remote: Address, tunnel: nat, sessionId: int, cipher: CipherSpec) {
    function Key(): SessionKey { SessionKey(remote, sessionId) }

    predicate Proper() { 0 <= sessionId <= MAX_SESSION_ID && cipher.Usable() }
  }

  /**
   A session with its counter and replay window; `serial` tells apart sessions that share a key at different times.
   */
  datatype Session = Session(serial: nat, info: SessionInfo, sendSequence: nat, marks: set<int>)

  /** A TUN write: the session that authenticated it, that session's address, the packet received, and its plaintext. */
  datatype ClientDelivery = ClientDelivery(serial: nat, tunnel: nat, packet: Packet, payload: Bytes)

  /**
   Why a datagram was sent: to answer the hello of session `serial`, or as that session's packet number `sequence`.
   */
  datatype Origin = Reply(serial: nat) | Transmission(serial: nat, sequence: nat, payload: Bytes)

  datatype Tables = Tables(
    sessions: map<SessionKey, Session>,
    routes: map<nat, SessionKey>,
    sent: seq<Datagram>,
    origins: seq<Origin>,
    written: seq<ClientDelivery>)

  const EMPTY: Tables := Tables(map[], map[], [], [], [])

  ghost predicate ProperTables(t: Tables) {
    forall k :: k in t.sessions ==> t.sessions[k].info.Proper()
  }

  /** Every session is the one its address routes to, and every route leads to the session with that address. */
  ghost predicate Bijective(t: Tables) {
    && (forall k :: k in t.sessions ==>
          && t.sessions[k].info.Key() == k
          && t.sessions[k].info.tunnel in t.routes && t.routes[t.sessions[k].info.tunnel] == k)
    && (forall a :: a in t.routes ==> t.routes[a] in t.sessions && t.sessions[t.routes[a]].info.tunnel == a)
  }

  function AddSession(t: Tables, s: Session): (Tables, Option<Error>) {
    if s.info.Key() in t.sessions then (t, Some(ValueError))
    else if s.info.tunnel in t.routes then (t, Some(ValueError))
    else (t.(sessions := t.sessions[s.info.Key() := s], routes := t.routes[s.info.tunnel := s.info.Key()]), None)
  }

  function RemoveSession(t: Tables, key: SessionKey): (Tables, Option<Error>) {
    if key !in t.sessions then (t, Some(KeyError))
    else (t.(sessions := t.sessions - {key}, routes := t.routes - {t.sessions[key].info.tunnel}), None)
  }

  function ReplaceSession(t: Tables, s: Session): (Tables, Option<Error>) {
    var (cleared, error) := if s.info.tunnel in t.routes then RemoveSession(t, t.routes[s.info.tunnel]) else (t, None);
    if error.Some? then (cleared, error) else AddSession(cleared, s)
  }

  /** The response to the hello of session `serial` goes out. */
  ghost function Answering(t: Tables, data: Bytes, peer: Address, serial: nat): Tables {
    t.(sent := t.sent + [Datagram(data, peer)], origins := t.origins + [Reply(serial)])
  }

  /** One pass of a TUN packet to the client it is addressed to. */
  ghost function HandleTun(t: Tables, payload: Bytes): (Tables, Result<bool>)
    requires ProperTables(t)
  {
    match Ipv4Destination(payload)
    case None => (t, Ok(false))
    case Some(destination) =>
      if destination !in t.routes || t.routes[destination] !in t.sessions then (t, Ok(false))
      else
        var key := t.routes[destination];
        var s := t.sessions[key];
        assert s.info.Proper();
        if s.sendSequence > MAX_SEQUENCE_NUMBER then (t, Err(OverflowError))
        else
          match s.info.cipher.Encrypt(Packet(DATA, s.info.sessionId, s.sendSequence, payload))
          case Err(e) => (t, Err(e))
          case Ok(q) =>
            match Encode(q)
            case Err(e) => (t, Err(e))
            case Ok(data) =>
              (t.(sessions := t.sessions[key := s.(sendSequence := s.sendSequence + 1)],
                  sent := t.sent + [Datagram(data, s.info.remote)],
                  origins := t.origins + [Transmission(s.serial, s.sendSequence, payload)]), Ok(true))
  }

  /** The packet is authentic in session `s`, unseen, and carries an IPv4 packet from that client's own address. */
  ghost predicate Admits(s: Session, p: Packet)
    requires s.info.Proper()
  {
    && p.kind == DATA
    && !Refused(DEFAULT_REPLAY_WINDOW_SIZE, s.marks, p.sequence)
    && s.info.cipher.Decrypt(p).Ok?
    && Ipv4Source(s.info.cipher.Decrypt(p).value.payload) == Some(s.info.tunnel)
  }

  ghost function HandleUdp(t: Tables, p: Packet, peer: Address, taken: int): (Tables, Result<bool>)
    requires ProperTables(t)
  {
    var key := SessionKey(peer, p.sessionId);
    if key !in t.sessions || p.kind != DATA then (t, Ok(false))
    else
      var s := t.sessions[key];
      assert s.info.Proper();
      if Refused(DEFAULT_REPLAY_WINDOW_SIZE, s.marks, p.sequence) then (t, Ok(false))
      else
        match s.info.cipher.Decrypt(p)
        case Err(InvalidTag) => (t, Ok(false))
        case Err(e) => (t, Err(e))
        case Ok(q) =>
          if Ipv4Source(q.payload) != Some(s.info.tunnel) then (t, Ok(false))
          else
            (t.(sessions := t.sessions[key := s.(marks := s.marks + {p.sequence})],
                written := t.written + [ClientDelivery(s.serial, s.info.tunnel, p, q.payload)]),
             if taken != |q.payload| then Err(OSError) else Ok(true))
  }

  /** Passing a TUN packet advances one counter or changes nothing. */
  lemma HandleTunEffect(t: Tables, payload: Bytes)
    requires ProperTables(t) && Bijective(t)
    ensures var (after, r) := HandleTun(t, payload);
      if r == Ok(true) then
        && Ipv4Destination(payload).Some?
        && var a := Ipv4Destination(payload).value;
        && a in t.routes && t.routes[a] in t.sessions
        && var s := t.sessions[t.routes[a]];
        && s.info.tunnel == a && s.sendSequence <= MAX_SEQUENCE_NUMBER
        && after == t.(sessions := t.sessions[t.routes[a] := s.(sendSequence := s.sendSequence + 1)],
                       sent := after.sent,
                       origins := t.origins + [Transmission(s.serial, s.sendSequence, payload)])
        && after.sent == t.sent + [Datagram(after.sent[|t.sent|].data, s.info.remote)]
        && s.info.cipher.Usable()
        && Carries(s.info.cipher, Packet(DATA, s.info.sessionId, s.sendSequence, payload), after.sent[|t.sent|].data)
      else after == t
    ensures ProperTables(HandleTun(t, payload).0)
  {
    hide CipherSpec.Encrypt, Encode;
  }

  /** The tables after session `k` sealed `payload` as its next packet, in datagram `data`. */
  ghost predicate SealedNext(t: Tables, u: Tables, k: SessionKey, payload: Bytes, data: Bytes)
  {
    && k in t.sessions
    && var s := t.sessions[k];
    && s.sendSequence <= MAX_SEQUENCE_NUMBER && s.info.cipher.Usable()
    && Ipv4Destination(payload) == Some(s.info.tunnel)
    && Carries(s.info.cipher, Packet(DATA, s.info.sessionId, s.sendSequence, payload), data)
    && u == t.(sessions := t.sessions[k := s.(sendSequence := s.sendSequence + 1)],
               sent := t.sent + [Datagram(data, s.info.remote)],
               origins := t.origins + [Transmission(s.serial, s.sendSequence, payload)])
  }

  /** The same, naming the session and the datagram. */
  lemma ServedSession(t: Tables, payload: Bytes) returns (served: Option<(SessionKey, Bytes)>)
    requires ProperTables(t) && Bijective(t)
    ensures var u := HandleTun(t, payload).0;
      match served
      case None => u == t
      case Some((k, data)) => SealedNext(t, u, k, payload, data)
  {
    HandleTunEffect(t, payload);
    var (u, r) := HandleTun(t, payload);
    served := if r == Ok(true) then Some((t.routes[Ipv4Destination(payload).value], u.sent[|t.sent|].data)) else None;
    hide HandleTun, Ipv4Destination, CipherSpec.Encrypt, Encode;
  }

  /** A TUN packet goes to the session that serves its destination address, and to no other. */
  lemma RoutedByDestination(t: Tables, words: nat, fields: Bytes, source: nat, destination: nat, rest: Bytes)
    requires ProperTables(t) && Bijective(t) && 5 <= words < 16 && |fields| == 11
    requires source < 0x1_0000_0000 && destination < 0x1_0000_0000
    requires 4 * words <= 20 + |rest| <= 65475
    ensures var packet := Ipv4Packet(4, words, fields, source, destination, rest);
      var (u, r) := HandleTun(t, packet);
      if destination !in t.routes then u == t && r == Ok(false)
      else
        var key := t.routes[destination];
        && key in t.sessions && t.sessions[key].info.tunnel == destination
        && if t.sessions[key].sendSequence > 0xFFFF_FFFF_FFFF_FFFF then u == t && r == Err(OverflowError)
           else r == Ok(true) && SealedNext(t, u, key, packet, u.sent[|t.sent|].data)
  {
    var packet := Ipv4Packet(4, words, fields, source, destination, rest);
    Ipv4Fields(4, words, fields, source, destination, rest);
    hide Ipv4Packet, Ipv4Destination, CipherSpec.Encrypt, SendKey, Seal;
    if destination in t.routes {
      var s := t.sessions[t.routes[destination]];
      assert s.info.Proper();
      EncryptSucceeds(s.info.cipher, Packet(DATA, s.info.sessionId, s.sendSequence, packet));
      HandleTunEffect(t, packet);
    }
  }

  /** A client's packet is delivered only if its source address is that of the session it came in. */
  lemma DeliveredBySource(t: Tables, p: Packet, peer: Address, taken: int,
                          words: nat, fields: Bytes, source: nat, destination: nat, rest: Bytes)
    requires ProperTables(t) && Encode(p).Ok? && 5 <= words < 16 && |fields| == 11 && 4 * words <= 20 + |rest|
    requires source < 0x1_0000_0000 && destination < 0x1_0000_0000
    requires var key := SessionKey(peer, p.sessionId);
      && key in t.sessions && t.sessions[key].info.cipher.Usable()
      && t.sessions[key].info.cipher.Decrypt(p)
           == Ok(p.(payload := Ipv4Packet(4, words, fields, source, destination, rest)))
    ensures var s := t.sessions[SessionKey(peer, p.sessionId)];
      var packet := Ipv4Packet(4, words, fields, source, destination, rest);
      if p.kind == DATA && !Refused(64, s.marks, p.sequence) && source == s.info.tunnel then
        HandleUdp(t, p, peer, taken).0.written == t.written + [ClientDelivery(s.serial, source, p, packet)]
      else
        HandleUdp(t, p, peer, taken) == (t, Ok(false))
  {
    Ipv4Fields(4, words, fields, source, destination, rest);
    hide Ipv4Packet, Ipv4Source, CipherSpec.Decrypt, Refused;
    HandleUdpEffect(t, p, peer, taken);
  }

  /**
   Packets that the tables ignore, from outside or inside: without a session at their address and id, of another kind,
   seen before or too old, not opening under the session's keys, or not from its client's address.
   */
  lemma IgnoredPackets(t: Tables, p: Packet, peer: Address, taken: int)
    requires ProperTables(t) && Encode(p).Ok?
    requires
      || SessionKey(peer, p.sessionId) !in t.sessions
      || p.kind != DATA
      || p.sequence in t.sessions[SessionKey(peer, p.sessionId)].marks
      || (exists m :: m in t.sessions[SessionKey(peer, p.sessionId)].marks && p.sequence <= m - 64)
      || (var s := t.sessions[SessionKey(peer, p.sessionId)];
          && s.info.cipher.Usable()
          && (s.info.cipher.Decrypt(p).Err?
              || Ipv4Source(s.info.cipher.Decrypt(p).value.payload) != Some(s.info.tunnel)))
    ensures HandleUdp(t, p, peer, taken) == (t, Ok(false))
  {
    HandleUdpEffect(t, p, peer, taken);
  }

  // ----- the bijection on every path, raising ones included

  lemma AddKeepsBijection(t: Tables, s: Session)
    requires Bijective(t)
    ensures Bijective(AddSession(t, s).0)
    ensures AddSession(t, s).1.None? <==> s.info.Key() !in t.sessions && s.info.tunnel !in t.routes
    ensures AddSession(t, s).1.None? ==>
      && AddSession(t, s).0.sessions == t.sessions[s.info.Key() := s]
      && AddSession(t, s).0.routes.Keys == t.routes.Keys + {s.info.tunnel}
    ensures AddSession(t, s).1.Some? ==> AddSession(t, s) == (t, Some(ValueError))
  {
  }

  lemma RemoveKeepsBijection(t: Tables, key: SessionKey)
    requires Bijective(t)
    ensures Bijective(RemoveSession(t, key).0)
    ensures RemoveSession(t, key).1.None? <==> key in t.sessions
    ensures RemoveSession(t, key).1.None? ==>
      && RemoveSession(t, key).0.sessions == t.sessions - {key}
      && RemoveSession(t, key).0.routes.Keys == t.routes.Keys - {t.sessions[key].info.tunnel}
    ensures RemoveSession(t, key).1.Some? ==> RemoveSession(t, key) == (t, Some(KeyError))
  {
  }

  /**
   Replacing leaves exactly one session at the address, unless the new key belongs to another client; then the old
   session of the address is gone and the new one is not there.
   */
  lemma ReplaceKeepsBijection(t: Tables, s: Session)
    requires Bijective(t)
    ensures var (after, error) := ReplaceSession(t, s);
      && Bijective(after)
      && (forall k :: k in t.sessions && t.sessions[k].info.tunnel != s.info.tunnel ==>
            k in after.sessions && after.sessions[k] == t.sessions[k])
      && (forall k :: k in after.sessions ==>
            (k in t.sessions && after.sessions[k] == t.sessions[k]) || after.sessions[k] == s)
      && (error == None <==> s.info.Key() in t.sessions ==> t.sessions[s.info.Key()].info.tunnel == s.info.tunnel)
      && (error == None ==> s.info.Key() in after.sessions && after.sessions[s.info.Key()] == s)
      && (error != None ==> error == Some(ValueError) && s.info.tunnel !in after.routes)
  {
    if s.info.tunnel in t.routes {
      RemoveKeepsBijection(t, t.routes[s.info.tunnel]);
    }
  }

  /** Bijective tables have equally many sessions and routes. */
  lemma {:induction false} SameSize(t: Tables)
    requires Bijective(t)
    ensures |t.sessions| == |t.routes|
    decreases |t.sessions|
  {
    if t.sessions == map[] {
      assert t.routes.Keys == {};
    } else {
      var k :| k in t.sessions;
      RemoveKeepsBijection(t, k);
      var r := RemoveSession(t, k).0;
      assert r.sessions.Keys == t.sessions.Keys - {k};
      assert r.routes.Keys == t.routes.Keys - {t.sessions[k].info.tunnel};
      SameSize(r);
    }
  }

  /**
   A UDP packet is delivered exactly when the session at its address and id admits it; then only that session's window
   and the TUN log change.  Everything else leaves the tables as they were.
   */
  lemma HandleUdpEffect(t: Tables, p: Packet, peer: Address, taken: int)
    requires ProperTables(t)
    requires Encode(p).Ok?
    ensures var key := SessionKey(peer, p.sessionId);
      var (after, r) := HandleUdp(t, p, peer, taken);
      if key in t.sessions && Admits(t.sessions[key], p) then
        var s := t.sessions[key];
        var payload := s.info.cipher.Decrypt(p).value.payload;
        && after == t.(sessions := t.sessions[key := s.(marks := s.marks + {p.sequence})],
                       written := t.written + [ClientDelivery(s.serial, s.info.tunnel, p, payload)])
        && r == if taken == |payload| then Ok(true) else Err(OSError)
      else after == t && r == Ok(false)
  {
    var key := SessionKey(peer, p.sessionId);
    if key in t.sessions {
      KeysAt(t.sessions[key].info.cipher, p.sequence);
    }
  }
}
