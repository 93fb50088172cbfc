/**
 What a registered client and the server achieve when the network delivers, and what they do not when it is silent.
 */
module Progress {
  import opened Outcome
  import opened Octets
  import opened Protocol
  import opened Transport
  import opened Replay
  import opened Ciphers
  import opened Handshake
  import opened Endpoints
  import opened SessionTables
  import opened Servers
  import opened ServerKeys
  import opened Service
  import Network

  /** The session at `key` is live, and joined with the client's endpoint. */
  ghost predicate Live(x: Setup, st: State, key: SessionKey) {
    && st.client.Connected? && key in st.server.tables.sessions
    && PeerOf(x, st.client.endpoint, st.server.events, st.server.tables.sessions[key].serial)
  }

  /** What is known of a live session. */
  lemma LiveSession(x: Setup, st: State, key: SessionKey)
    requires Service.Inv(x, st) && Live(x, st, key)
    ensures var e, t := st.client.endpoint, st.server.tables;
      var s := t.sessions[key];
      && ProperTables(t) && Bijective(t) && s.info.Proper()
      && s.info == InfoOf(x.cfg, st.server.events, s.serial)
      && s.info.Key() == key && s.info.tunnel in t.routes && t.routes[s.info.tunnel] == key
      && e.cipher == Some(s.info.cipher.Mirror()) && e.sessionId == s.info.sessionId == s.info.cipher.sessionId
      && Network.SendsWhatItRead(e, st.client.up)
      && s.marks == Numbers(t.written, s.serial) && s.sendSequence == SealedFor(t.origins, s.serial)
  {
    hide HonestHellos, Upwards, Downwards, CacheInv, EventInv, Network.SendsWhatItRead, InfoOf, Delivered, Accounted,
         Opened, SealedFor, Numbers;
    var s := st.server.tables.sessions[key];
    OpenedCipher(x.cfg, st.server.events, s.serial);
    assert s.info.cipher.Mirror().Mirror() == s.info.cipher;
  }

  // ----- upwards

  /** The window of a live session has not reached the client's next number. */
  lemma NextNumberFresh(x: Setup, st: State, key: SessionKey)
    requires Service.Inv(x, st) && Live(x, st, key)
    ensures !Refused(DEFAULT_REPLAY_WINDOW_SIZE, st.server.tables.sessions[key].marks, |st.client.endpoint.log|)
  {
    LiveSession(x, st, key);
    hide HonestHellos, Joined, Downwards, Servers.Inv, InfoOf, Opened, SessionInfo.Key;
    var t := st.server.tables;
    var s := t.sessions[key];
    forall m | m in s.marks ensures 0 <= m < |st.client.endpoint.log| {
      var k :| 0 <= k < |t.written| && t.written[k].serial == s.serial && t.written[k].packet.sequence == m;
      assert SentUp(x, st.client, st.server.events, t.written[k]);
    }
  }

  /** An intact packet of a session, from its address, unseen, and bearing its client's address, is written. */
  lemma IntactPacketWritten(cfg: Config, s: Server, key: SessionKey, p: Packet, data: Bytes, draw: Draw)
    requires draw.Proper() && ProperTables(s.tables) && key in s.tables.sessions
    requires var session := s.tables.sessions[key];
      && session.info.Key() == key && p.kind == DATA && p.sessionId == session.info.sessionId
      && !Refused(DEFAULT_REPLAY_WINDOW_SIZE, session.marks, p.sequence)
      && Ipv4Source(p.payload) == Some(session.info.tunnel)
      && Carries(session.info.cipher.Mirror(), p, data)
    ensures var session := s.tables.sessions[key];
      var (u, r) := HandleDatagram(cfg, s, Datagram(data, key.remote), draw, |p.payload|);
      var q := session.info.cipher.Mirror().Encrypt(p).value;
      && r == Ok(true) && q.sequence == p.sequence
      && u.tables.written == s.tables.written + [ClientDelivery(session.serial, session.info.tunnel, q, p.payload)]
  {
    hide Receive, Encode, CipherSpec.Encrypt, CipherSpec.Decrypt, Ipv4Source, Refused, HandleUdp;
    var session := s.tables.sessions[key];
    var cipher := session.info.cipher;
    var q := cipher.Mirror().Encrypt(p).value;
    assert cipher.Mirror().Mirror() == cipher;
    ReceiveOfEncode(q, data);
    EncryptSucceeds(cipher.Mirror(), p);
    PeersInterop(cipher.Mirror(), p, q);
    HandleUdpEffect(s.tables, q, key.remote, |p.payload|);
  }

  /** What the client sends is on the wire. */
  lemma ClientsCanArrive(x: Setup, st: State, i: nat)
    requires x.Proper() && st.client.Connected? && i < |st.client.endpoint.sent|
    ensures CanArrive(x, st, st.client.endpoint.sent[i].data)
  {
    hide ClientsKey, Setup.ClientHello, SentByServer;
    forall o | o in st.client.endpoint.sent[i].data ensures SentByClient(st, o) {}
  }

  /**
   Upwards: while its session is live, a payload from the client's own address that fits is sealed in the pass that
   reads it, and if the datagram arrives intact, the server's next pass writes the payload.
   */
  lemma UpPayloadServed(x: Setup, st: State, key: SessionKey, payload: Bytes, receivedAt: real, now: real, draw: Draw)
    requires Service.Inv(x, st) && Live(x, st, key) && st.client.up && st.serverUp && draw.Proper()
    requires Ipv4Source(payload) == Some(st.server.tables.sessions[key].info.tunnel)
    requires |payload| <= MAX_PAYLOAD_SIZE - TAG_SIZE && |st.client.endpoint.log| <= MAX_SEQUENCE_NUMBER
    ensures var n, s := |st.client.endpoint.log|, st.server.tables.sessions[key];
      var send := ClientPass(Endpoints.Input(Some(payload), None, receivedAt, now, 0));
      && x.Proper() && Allowed(x, st, send)
      && var u := Service.Next(x, st, send);
      && u.client.Connected? && n < |u.client.endpoint.sent|
      && var data := u.client.endpoint.sent[n].data;
      var hear := ServerPass(ServerInput(None, Some(Datagram(data, key.remote)), draw, |payload|));
      && Allowed(x, u, hear)
      && var v := Service.Next(x, u, hear);
      && v.serverUp
      && exists p: Packet :: p.sequence == n
           && v.server.tables.written
              == st.server.tables.written + [ClientDelivery(s.serial, s.info.tunnel, p, payload)]
  {
    hide Service.Inv, SessionInfo.Key, Refused, Ipv4Source, Endpoints.Step, Network.SendsWhatItRead, CanArrive,
         HandleDatagram, ProperTables, Bijective;
    ProperSetup(x, st);
    LiveSession(x, st, key);
    NextNumberFresh(x, st, key);
    var e, s := st.client.endpoint, st.server.tables.sessions[key];
    Network.PassSends(e, payload, receivedAt, now);
    Network.StillSends(e, true);
    var send := ClientPass(Endpoints.Input(Some(payload), None, receivedAt, now, 0));
    var u := Service.Next(x, st, send);
    var a, n := u.client.endpoint, |e.log|;
    Network.SentCarries(a, n);
    ClientsCanArrive(x, u, n);
    IntactPacketWritten(x.cfg, u.server, key, a.log[n], a.sent[n].data, draw);
  }

  // ----- downwards

  /** With fresh randomness, the numbers the client has marked are below the counter of its live session. */
  lemma NextTransmissionFresh(x: Setup, st: State, key: SessionKey)
    requires Service.Inv(x, st) && Live(x, st, key) && DrawsApart(st.server.events, [])
    ensures !Refused(DEFAULT_REPLAY_WINDOW_SIZE, st.client.endpoint.marks, st.server.tables.sessions[key].sendSequence)
  {
    hide HonestHellos, Joined, Upwards, Servers.Inv, Received, PeerOf;
    var e := st.client.endpoint;
    forall m | m in e.marks ensures 0 <= m < st.server.tables.sessions[key].sendSequence {
      var k :| 0 <= k < |e.written| && e.written[k].sequence == m;
      WriteNumbered(x, st, key, k);
    }
  }

  lemma WriteNumbered(x: Setup, st: State, key: SessionKey, k: nat)
    requires Service.Inv(x, st) && Live(x, st, key) && DrawsApart(st.server.events, [])
    requires k < |st.client.endpoint.written|
    ensures 0 <= st.client.endpoint.written[k].sequence < st.server.tables.sessions[key].sendSequence
  {
    hide Service.Inv, InfoOf, VouchedHello, SealedFor, SealedForClient;
    LiveSession(x, st, key);
    ProperSetup(x, st);
    var log, serial := st.server.tables.origins, st.server.tables.sessions[key].serial;
    var place := WriteSealedForClient(x, st, k);
    SealedOnce(x, st, st.client.endpoint.written[k], place);
    SealedByPeer(x, st, st.client.endpoint.written[k], place);
    SameCipherSameClient(x, st.server.events, serial, log[place].serial);
    PlaceNumbered(x, st, place);
    LaterSealing(log, place, |log|);
    assert log[..|log|] == log;
  }

  lemma SealedByPeer(x: Setup, st: State, d: Endpoints.Delivery, place: nat)
    requires st.client.Connected? && SealedForClient(x, st, d, place)
    ensures PeerOf(x, st.client.endpoint, st.server.events, st.server.tables.origins[place].serial)
  {
  }

  lemma PlaceNumbered(x: Setup, st: State, place: nat)
    requires Service.Inv(x, st) && place < |st.server.tables.origins| && st.server.tables.origins[place].Transmission?
    ensures var log := st.server.tables.origins; log[place].sequence == SealedFor(log[..place], log[place].serial)
  {
  }

  /** A payload that fits, for the address of a session, is sealed in that session. */
  lemma PayloadSealed(t: Tables, key: SessionKey, payload: Bytes) returns (data: Bytes)
    requires ProperTables(t) && Bijective(t) && key in t.sessions && t.sessions[key].sendSequence <= MAX_SEQUENCE_NUMBER
    requires Ipv4Destination(payload) == Some(t.sessions[key].info.tunnel) && |payload| <= MAX_PAYLOAD_SIZE - TAG_SIZE
    ensures HandleTun(t, payload).1 == Ok(true) && SealedNext(t, HandleTun(t, payload).0, key, payload, data)
  {
    hide Ipv4Destination, CipherSpec.Encrypt, SendKey, Seal;
    var s := t.sessions[key];
    assert s.info.Proper();
    EncryptSucceeds(s.info.cipher, Packet(DATA, s.info.sessionId, s.sendSequence, payload));
    HandleTunEffect(t, payload);
    data := HandleTun(t, payload).0.sent[|t.sent|].data;
  }

  /** An intact, unseen packet of the peer is written, whatever the pass does after that. */
  lemma PassWrites(e: Endpoint, p: Packet, data: Bytes, receivedAt: real, now: real)
    requires Network.SendsWhatItRead(e, true) && e.cipher.Some? && e.cipher.value.Usable()
    requires p.kind == DATA && p.sessionId == e.sessionId && !Refused(DEFAULT_REPLAY_WINDOW_SIZE, e.marks, p.sequence)
    requires Carries(e.cipher.value.Mirror(), p, data)
    ensures var i := Endpoints.Input(None, Some(Datagram(data, e.remote)), receivedAt, now, |p.payload|);
      Endpoints.Step(e, i).0.written == e.written + [Endpoints.Delivery(p.sequence, p.payload)]
  {
    hide Network.SendsWhatItRead, Receive, Encode, CipherSpec.Encrypt, CipherSpec.Decrypt, Refused, Maintain,
         ReceiveUdpPacket;
    var i := Endpoints.Input(None, Some(Datagram(data, e.remote)), receivedAt, now, |p.payload|);
    Network.StillSends(e, true);
    var cipher := e.cipher.value.Mirror();
    assert cipher.Mirror() == e.cipher.value;
    var q := cipher.Encrypt(p).value;
    ReceiveOfEncode(q, data);
    EncryptSucceeds(cipher, p);
    PeersInterop(cipher, p, q);
    ReceiveEffect(e, i.udp.value, receivedAt, i.taken);
    Network.UdpStageKeeps(e, i);
    Network.MaintainKeeps(UdpStage(e, i).0, now);
  }

  /** What the server sends is on the wire. */
  lemma ServersCanArrive(x: Setup, st: State, i: nat)
    requires x.Proper() && i < |st.server.tables.sent|
    ensures CanArrive(x, st, st.server.tables.sent[i].data)
  {
    hide ClientsKey, Setup.ClientHello, SentByClient;
    forall o | o in st.server.tables.sent[i].data ensures SentByServer(st, o) {}
  }

  /**
   Downwards: while its session is live, a payload for the client's address that fits is sealed in the server's pass
   that reads it, and if the datagram arrives intact, the client's next pass writes the payload.
   */
  lemma DownPayloadServed(x: Setup, st: State, key: SessionKey, payload: Bytes, receivedAt: real, now: real, draw: Draw)
    requires Service.Inv(x, st) && Live(x, st, key) && st.client.up && st.serverUp && draw.Proper()
    requires DrawsApart(st.server.events, [])
    requires Ipv4Destination(payload) == Some(st.server.tables.sessions[key].info.tunnel)
    requires |payload| <= MAX_PAYLOAD_SIZE - TAG_SIZE
    requires st.server.tables.sessions[key].sendSequence <= MAX_SEQUENCE_NUMBER
    ensures var n := |st.server.tables.sent|;
      var send := ServerPass(ServerInput(Some(payload), None, draw, 0));
      && x.Proper() && Allowed(x, st, send)
      && var u := Service.Next(x, st, send);
      && u.serverUp && |u.server.tables.sent| == n + 1 && u.client == st.client
      && var data := u.server.tables.sent[n].data;
      var hear := ClientPass(Endpoints.Input(None, Some(Datagram(data, st.client.endpoint.remote)), receivedAt, now,
                                             |payload|));
      && Allowed(x, u, hear)
      && var v := Service.Next(x, u, hear);
      && v.client.Connected?
      && v.client.endpoint.written
           == st.client.endpoint.written + [Endpoints.Delivery(st.server.tables.sessions[key].sendSequence, payload)]
  {
    hide Service.Inv, SessionInfo.Key, Refused, Ipv4Destination, HandleTun, Network.SendsWhatItRead, CanArrive,
         Endpoints.Step, ProperTables, Bijective, InfoOf;
    ProperSetup(x, st);
    LiveSession(x, st, key);
    NextTransmissionFresh(x, st, key);
    var e, s := st.client.endpoint, st.server.tables.sessions[key];
    var data := PayloadSealed(st.server.tables, key, payload);
    var send := ServerPass(ServerInput(Some(payload), None, draw, 0));
    var u := Service.Next(x, st, send);
    Network.StillSends(e, true);
    ServersCanArrive(x, u, |st.server.tables.sent|);
    PassWrites(e, Packet(DATA, e.sessionId, s.sendSequence, payload), data, receivedAt, now);
  }

  // ----- from the first hello to the first packets

  /** The server's one session is the one the client joined. */
  lemma ConnectedIsLive(x: Setup, actions: seq<Action>, key: SessionKey)
    requires x.Proper() && AllowedRun(x, Service.Start(x), actions)
    requires var st := Service.Run(x, Service.Start(x), actions);
      st.client.Connected? && |st.server.events| == 1 && key in st.server.tables.sessions
    ensures var st := Service.Run(x, Service.Start(x), actions);
      && Service.Inv(x, st) && Live(x, st, key) && DrawsApart(st.server.events, [])
      && OfClient(x, st.server.events, st.server.tables.sessions[key].serial)
      && exists c :: c in x.cfg.clients && c.publicKey == PublicKey(x.clientKey)
           && c.tunnel == st.server.tables.sessions[key].info.tunnel
  {
    hide Service.Run, AllowedRun, Service.Start, Service.Inv, InfoOf, VouchedHello, Setup.Proper;
    Service.StartInv(x);
    Service.RunKeeps(x, Service.Start(x), actions);
    var st := Service.Run(x, Service.Start(x), actions);
    var serial := ConnectedMeansOpened(x, actions);
    SessionVouched(x, st, key);
  }

  lemma SessionVouched(x: Setup, st: State, key: SessionKey)
    requires Service.Inv(x, st) && key in st.server.tables.sessions
    ensures var events, s := st.server.events, st.server.tables.sessions[key];
      && s.serial < |events| && events[s.serial].identity in x.cfg.clients
      && events[s.serial].identity.tunnel == s.info.tunnel
  {
    assert Vouched(x.cfg, st.server.events, st.server.tables.sessions[key]);
  }

  /** `c` is the one registered client with this setup's key. */
  ghost predicate OnlyClient(x: Setup, c: ClientIdentity) {
    && c in x.cfg.clients && c.publicKey == PublicKey(x.clientKey)
    && forall d :: d in x.cfg.clients && d.publicKey == PublicKey(x.clientKey) ==> d == c
  }

  /** If hello, response and first packet arrive, the server writes what the client's TUN device supplied. */
  lemma QuietNetworkServesUp(x: Setup, i: nat, address: Address, draw: Draw, payload: Bytes, now: real, draw': Draw)
    returns (actions: seq<Action>)
    requires x.Proper() && x.attempts > 0 && draw.Proper() && draw'.Proper()
    requires i < |x.cfg.clients| && OnlyClient(x, x.cfg.clients[i])
    requires Ipv4Source(payload) == Some(x.cfg.clients[i].tunnel) && |payload| <= MAX_PAYLOAD_SIZE - TAG_SIZE
    ensures AllowedRun(x, Service.Start(x), actions)
    ensures var st := Service.Run(x, Service.Start(x), actions);
      && |st.server.tables.written| == 1 && st.server.tables.written[0].payload == payload
      && OfClient(x, st.server.events, st.server.tables.written[0].serial)
  {
    hide Service.Run, AllowedRun, Service.Start, Service.Inv, Service.Next, Allowed, Ipv4Source, Live, Setup.Proper;
    var first := QuietNetworkConnects(x, i, address, draw, now);
    var st, key := Service.Run(x, Service.Start(x), first), SessionKey(address, x.sessionId);
    ConnectedIsLive(x, first, key);
    UpPayloadServed(x, st, key, payload, now, now, draw');
    var send := ClientPass(Endpoints.Input(Some(payload), None, now, now, 0));
    var u := Service.Next(x, st, send);
    var data := u.client.endpoint.sent[0].data;
    var hear := ServerPass(ServerInput(None, Some(Datagram(data, address)), draw', |payload|));
    TwoMore(x, first, send, hear);
    actions := first + [send, hear];
    NextKeepsEvents(x, st, send);
    NextKeepsEvents(x, u, hear);
    OfClientPrefix(x, st.server.events, Service.Next(x, u, hear).server.events);
  }

  /** If hello, response and first packet arrive, the client writes what the server's TUN device supplied. */
  lemma QuietNetworkServesDown(x: Setup, i: nat, address: Address, draw: Draw, payload: Bytes, now: real, draw': Draw)
    returns (actions: seq<Action>)
    requires x.Proper() && x.attempts > 0 && draw.Proper() && draw'.Proper()
    requires i < |x.cfg.clients| && OnlyClient(x, x.cfg.clients[i])
    requires Ipv4Destination(payload) == Some(x.cfg.clients[i].tunnel) && |payload| <= MAX_PAYLOAD_SIZE - TAG_SIZE
    ensures AllowedRun(x, Service.Start(x), actions)
    ensures var st := Service.Run(x, Service.Start(x), actions);
      && st.client.Connected? && |st.client.endpoint.written| == 1 && st.client.endpoint.written[0].payload == payload
  {
    hide Service.Run, AllowedRun, Service.Start, Service.Inv, Service.Next, Allowed, Ipv4Destination, Live,
         Setup.Proper;
    var first := QuietNetworkConnects(x, i, address, draw, now);
    var st, key := Service.Run(x, Service.Start(x), first), SessionKey(address, x.sessionId);
    ConnectedIsLive(x, first, key);
    DownPayloadServed(x, st, key, payload, now, now, draw');
    var send := ServerPass(ServerInput(Some(payload), None, draw', 0));
    var u := Service.Next(x, st, send);
    var data := u.server.tables.sent[|st.server.tables.sent|].data;
    var hear := ClientPass(Endpoints.Input(None, Some(Datagram(data, st.client.endpoint.remote)), now, now, |payload|));
    TwoMore(x, first, send, hear);
    actions := first + [send, hear];
  }

  lemma NextKeepsEvents(x: Setup, st: State, a: Action)
    requires x.Proper() && Allowed(x, st, a)
    ensures st.server.events <= Service.Next(x, st, a).server.events
  {
    hide Servers.Step, Endpoints.Step, CanArrive, Answer;
    if a.ServerPass? { EventsOnlyGrow(x.cfg, st.server, a.serverInput); }
  }

  lemma TwoMore(x: Setup, first: seq<Action>, a: Action, b: Action)
    requires x.Proper() && AllowedRun(x, Service.Start(x), first)
    requires var st := Service.Run(x, Service.Start(x), first);
      Allowed(x, st, a) && Allowed(x, Service.Next(x, st, a), b)
    ensures AllowedRun(x, Service.Start(x), first + [a, b])
    ensures Service.Run(x, Service.Start(x), first + [a, b])
      == Service.Next(x, Service.Next(x, Service.Run(x, Service.Start(x), first), a), b)
  {
    hide Allowed, Service.Next, Service.Start;
    var st := Service.Run(x, Service.Start(x), first);
    Service.OneAction(x, Service.Next(x, st, a), b, []);
    Service.OneAction(x, st, a, [b]);
    assert [b] + [] == [b] && [a] + [b] == [a, b];
    AppendActions(x, Service.Start(x), first, [a, b]);
  }

  // ----- silence

  /** The server has sealed nothing for this client. */
  ghost predicate NothingSealed(x: Setup, st: State) {
    st.client.Connected? ==>
      forall place :: 0 <= place < |st.server.tables.origins| && st.server.tables.origins[place].Transmission? ==>
        !PeerOf(x, st.client.endpoint, st.server.events, st.server.tables.origins[place].serial)
  }

  /** Then the client has not heard from it since the handshake. */
  lemma NothingHeard(x: Setup, st: State)
    requires Service.Inv(x, st) && st.client.Connected? && NothingSealed(x, st)
    ensures st.client.endpoint.written == [] && st.client.endpoint.lastReceive == st.client.since
  {
    hide HonestHellos, Joined, Upwards, Servers.Inv, NothingSealed;
    if st.client.endpoint.written != [] { HeardMeansSealed(x, st); }
  }

  lemma HeardMeansSealed(x: Setup, st: State)
    requires Service.Inv(x, st) && st.client.Connected? && st.client.endpoint.written != []
    ensures !NothingSealed(x, st)
  {
    hide HonestHellos, Joined, Upwards, Servers.Inv, PeerOf;
    var e := st.client.endpoint;
    assert Received(x, e, st.server.events, st.server.tables.origins, e.written[0]);
  }

  /**
   The server answers no keepalive and sends none.  So, over any run and whatever the network brings, a client with
   liveness on does not survive a pass at its deadline, counted from the handshake, unless a packet from the server's
   TUN device was sealed for it; and if the pass reads nothing from TUN and the counter lasts, it raises `TimeoutError`.
   */
  lemma KeepalivesDoNotKeepAlive(x: Setup, actions: seq<Action>, i: Endpoints.Input)
    requires x.Proper() && x.interval > 0.0 && AllowedRun(x, Service.Start(x), actions)
    requires var st := Service.Run(x, Service.Start(x), actions);
      && st.client.Connected? && NothingSealed(x, st) && Allowed(x, st, ClientPass(i))
      && i.now - st.client.since >= x.liveness
    ensures var st := Service.Run(x, Service.Start(x), actions);
      && !Service.Next(x, st, ClientPass(i)).client.up
      && (i.tun.None? && |st.client.endpoint.log| <= MAX_SEQUENCE_NUMBER ==>
            Endpoints.Step(st.client.endpoint, i).1 == Err(TimeoutError))
  {
    Service.StartInv(x);
    Service.RunKeeps(x, Service.Start(x), actions);
    var st := Service.Run(x, Service.Start(x), actions);
    hide Service.Inv, Service.Run, Service.Start, AllowedRun, Endpoints.Step;
    NothingHeard(x, st);
    SilentPassRaises(x, st, i);
  }

  lemma SilentPassRaises(x: Setup, st: State, i: Endpoints.Input)
    requires Service.Inv(x, st) && x.Proper() && x.interval > 0.0 && Allowed(x, st, ClientPass(i))
    requires NothingSealed(x, st) && st.client.endpoint.lastReceive == st.client.since
    requires i.now - st.client.since >= x.liveness
    ensures var (a, r) := Endpoints.Step(st.client.endpoint, i);
      && r.Err?
      && (i.tun.None? && |st.client.endpoint.log| <= MAX_SEQUENCE_NUMBER ==> r == Err(TimeoutError))
  {
    hide Service.Inv, CanArrive, UdpStage, Maintain, Network.SendsWhatItRead, Accepts, PeerOf;
    var e := st.client.endpoint;
    SendingHalf(x, st);
    JoinedCipher(x, st);
    Network.TunStageKeeps(e, i);
    var (m, error) := TunStage(e, i);
    hide TunStage;
    if error.None? {
      ClientGrows(x, st, m, true);
      var mid := st.(client := Connected(m, true, st.client.since));
      StillNothingSealed(x, st, m);
      NothingArrives(x, mid, i);
      DeadlineRaises(m, i.now);
    }
  }

  lemma StillNothingSealed(x: Setup, st: State, m: Endpoint)
    requires NothingSealed(x, st) && st.client.Connected? && m.cipher == st.client.endpoint.cipher
    ensures NothingSealed(x, st.(client := Connected(m, true, st.client.since)))
  {
    hide OfClient, InfoOf;
  }

  /** With nothing sealed for it, the client's endpoint accepts nothing. */
  lemma NothingArrives(x: Setup, st: State, i: Endpoints.Input)
    requires Service.Inv(x, st) && st.client.Connected? && Proper(st.client.endpoint) && NothingSealed(x, st)
    requires i.udp.Some? ==> CanArrive(x, st, i.udp.value.data)
    ensures UdpStage(st.client.endpoint, i) == (st.client.endpoint, Ok(false))
  {
    hide Service.Inv, CanArrive, PeerOf, Accepts, ReceiveUdpPacket;
    JoinedCipher(x, st);
    if i.udp.Some? {
      if Accepts(st.client.endpoint, i.udp.value) { var place := AcceptedWasSealed(x, st, i.udp.value); }
      ReceiveEffect(st.client.endpoint, i.udp.value, i.receivedAt, i.taken);
    }
  }

  lemma DeadlineRaises(e: Endpoint, now: real)
    requires Network.SendsWhatItRead(e, true) && e.interval > 0.0 && now - e.lastReceive >= e.liveness
    ensures Proper(e) && Maintain(e, now).1.Some?
    ensures |e.log| <= MAX_SEQUENCE_NUMBER ==> Maintain(e, now).1 == Some(TimeoutError)
  {
    hide Outgoing;
    SmallSendSucceeds(e, KEEPALIVE, []);
    SendKeeps(e, KEEPALIVE, []);
  }
}
