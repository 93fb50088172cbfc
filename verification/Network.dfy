/** Two endpoints of one session and a network that loses, reorders, duplicates, reflects and forges. */
module Network {
  import opened Outcome
  import opened Octets
  import opened Protocol
  import opened Transport
  import opened Replay
  import opened Ciphers
  import opened Handshake
  import opened Endpoints

  datatype Net = Net(client: Endpoint, server: Endpoint, clientUp: bool, serverUp: bool)

  /** A pass of one endpoint's loop. */
  datatype Action = Action(atClient: bool, input: Input)

  ghost predicate Paired(client: Endpoint, server: Endpoint) {
    && Proper(client) && Proper(server)
    && client.cipher.Some? && client.cipher.value.role == Role.CLIENT
    && server.cipher == Some(client.cipher.value.Mirror())
    && client.sessionId == server.sessionId == client.cipher.value.sessionId
  }

  /** The octet belongs to a datagram one of the two endpoints sent. */
  ghost predicate OnTheWire(n: Net, o: Octet) {
    || (exists i :: 0 <= i < |n.client.sent| && o in n.client.sent[i].data)
    || (exists i :: 0 <= i < |n.server.sent| && o in n.server.sent[i].data)
  }

  ghost predicate KeyOfSession(spec: CipherSpec, key: Bytes)
    requires spec.Usable()
  {
    exists s: nat :: key == ClientKey(spec, s) || key == ServerKey(spec, s)
  }

  /**
   What the network can deliver, and from any address: every octet string, except that octets of a ciphertext under a
   key of the session must have been on the wire before.
   */
  ghost predicate Deliverable(n: Net, data: Bytes)
    requires Paired(n.client, n.server)
  {
    forall o :: o in data && o.Part? && o.source.Sealed? && KeyOfSession(n.client.cipher.value, o.source.key) ==>
      OnTheWire(n, o)
  }

  /** A pass reads UDP after it sent what came from TUN, so what arrives may hold that, too. */
  ghost predicate Allowed(n: Net, a: Action)
    requires Paired(n.client, n.server)
  {
    a.input.udp.Some? ==>
      var m := MidPass(n, a);
      Paired(m.client, m.server) && Deliverable(m, a.input.udp.value.data)
  }

  ghost function MidPass(n: Net, a: Action): Net
    requires Paired(n.client, n.server)
  {
    if a.atClient then n.(client := TunStage(n.client, a.input).0) else n.(server := TunStage(n.server, a.input).0)
  }

  /** An exception ends the endpoint's run. */
  ghost function Next(n: Net, a: Action): Net
    requires Proper(n.client) && Proper(n.server)
  {
    if a.atClient then
      if !n.clientUp then n
      else var (e, r) := Step(n.client, a.input); n.(client := e, clientUp := r.Ok?)
    else
      if !n.serverUp then n
      else var (e, r) := Step(n.server, a.input); n.(server := e, serverUp := r.Ok?)
  }

  // ----- invariants

  /** Sent DATA packets carry the payloads read from the TUN device, in order; only a failing send leaves one over. */
  ghost predicate SendsWhatItRead(e: Endpoint, up: bool) {
    && Counted(e)
    && DataPayloads(e.log) <= e.tunRead
    && (up ==> DataPayloads(e.log) == e.tunRead)
  }

  /** What `r` delivered, `s` sent, and no packet was delivered twice. */
  ghost predicate DeliversWhatWasSent(r: Endpoint, s: Endpoint) {
    && (forall k :: 0 <= k < |r.written| ==>
          var d := r.written[k];
          0 <= d.sequence < |s.log| && s.log[d.sequence] == Packet(DATA, s.sessionId, d.sequence, d.payload))
    && (forall j, k :: 0 <= j < k < |r.written| ==> r.written[j].sequence != r.written[k].sequence)
    && (forall k :: 0 <= k < |r.written| ==> r.written[k].sequence in r.marks)
    && (forall m :: m in r.marks ==> 0 <= m < |s.log|)
  }

  ghost predicate Inv(n: Net) {
    && Paired(n.client, n.server)
    && SendsWhatItRead(n.client, n.clientUp) && SendsWhatItRead(n.server, n.serverUp)
    && DeliversWhatWasSent(n.client, n.server) && DeliversWhatWasSent(n.server, n.client)
  }

  lemma SentCarries(e: Endpoint, i: nat)
    requires Counted(e) && e.cipher.Some? && i < |e.sent|
    ensures Carries(e.cipher.value, e.log[i], e.sent[i].data) && e.log[i].sequence == i
    ensures e.log[i].sessionId == e.sessionId
  {
  }

  lemma FirstOctet(data: Bytes, p: Packet)
    requires Receive(data) == Ok(p) && p.payload != []
    ensures p.payload[0] in data
  {
    var buffer := if |data| > MAX_UDP_DATAGRAM_SIZE then data[..MAX_UDP_DATAGRAM_SIZE] else data;
    assert p.payload[0] == buffer[HEADER_SIZE] == data[HEADER_SIZE];
  }

  ghost function Receiver(n: Net, atClient: bool): Endpoint { if atClient then n.client else n.server }

  ghost function Sender(n: Net, atClient: bool): Endpoint { if atClient then n.server else n.client }

  /** What an end accepts is sealed, under its peer's key, and some datagram sent by the peer holds that sealing. */
  lemma AcceptedCiphertext(n: Net, atClient: bool, d: Datagram) returns (o: Octet, q: Packet)
    requires Inv(n) && Deliverable(n, d.data) && Accepts(Receiver(n, atClient), d)
    ensures var p := Receive(d.data).value;
      var spec := Sender(n, atClient).cipher.value;
      && spec.Usable() && FieldsFit(q) && |q.payload| + TAG_SIZE <= MAX_PAYLOAD_SIZE
      && Receiver(n, atClient).cipher.value.Decrypt(p) == Ok(q)
      && q.sequence == p.sequence && q.sessionId == p.sessionId
      && OnTheWire(n, o) && o.Part?
      && o.source == Sealed(SendKey(spec, q.sequence), Nonce(q.sessionId, q.sequence),
           Header(q.kind, q.sessionId, q.sequence, |q.payload| + TAG_SIZE), q.payload)
  {
    hide Inv, OnTheWire, Receive;
    SessionOf(n);
    var spec := Sender(n, atClient).cipher.value;
    var p := Receive(d.data).value;
    q := Receiver(n, atClient).cipher.value.Decrypt(p).value;
    assert spec.Usable() && spec.Mirror() == Receiver(n, atClient).cipher.value;
    assert Encode(p).Ok?;
    PeersInterop(spec, q, p);
    EncryptSucceeds(spec, q);
    o := p.payload[0];
    FirstOctet(d.data, p);
    SendKeyIsOfSession(n.client.cipher.value, spec, q.sequence);
  }

  lemma SessionOf(n: Net)
    requires Inv(n)
    ensures Paired(n.client, n.server) && Counted(n.client) && Counted(n.server)
  {
  }

  /** An authenticated arrival at one end is exactly the packet that the other logged under its sequence number. */
  lemma AcceptedWasSent(n: Net, atClient: bool, d: Datagram)
    requires Inv(n) && Deliverable(n, d.data) && Accepts(Receiver(n, atClient), d)
    ensures var p := Receive(d.data).value;
      0 <= p.sequence < |Sender(n, atClient).log|
      && Receiver(n, atClient).cipher.value.Decrypt(p) == Ok(Sender(n, atClient).log[p.sequence])
  {
    var o, q := AcceptedCiphertext(n, atClient, d);
    hide Inv, Receive, Accepts, Deliverable, CipherSpec.Decrypt, SendKey, Nonce, Header;
    SessionOf(n);
    var r, s := Receiver(n, atClient), Sender(n, atClient);
    var spec := s.cipher.value;
    if i :| 0 <= i < |s.sent| && o in s.sent[i].data {
      SentCarries(s, i);
      SealedOctets(s.cipher.value, s.log[i], s.sent[i].data, o);
      NonceInjective(s.sessionId, i, q.sessionId, q.sequence);
      HeaderInjective(s.log[i].kind, s.sessionId, i, |s.log[i].payload| + TAG_SIZE,
                      q.kind, q.sessionId, q.sequence, |q.payload| + TAG_SIZE);
    } else {
      var i :| 0 <= i < |r.sent| && o in r.sent[i].data;
      SentCarries(r, i);
      SealedOctets(r.cipher.value, r.log[i], r.sent[i].data, o);
      assert r.cipher.value == spec.Mirror();
      DirectionsSeparate(spec, q.sequence, i);
    }
  }

  lemma SendKeyIsOfSession(client: CipherSpec, spec: CipherSpec, s: nat)
    requires client.Usable() && (spec == client || spec == client.Mirror())
    ensures KeyOfSession(client, SendKey(spec, s))
  {
    assert spec.EpochSecret(spec.Epoch(s)) == client.EpochSecret(client.Epoch(s));
    assert SendKey(spec, s) == ClientKey(client, s) || SendKey(spec, s) == ServerKey(client, s);
  }

  // ----- every step keeps the invariant

  /** The sending half of `e` has at most grown into that of `a`. */
  ghost predicate Grown(e: Endpoint, a: Endpoint) {
    && e.log <= a.log && e.sent <= a.sent
    && a.remote == e.remote && a.sessionId == e.sessionId && a.cipher == e.cipher
    && a.interval == e.interval && a.liveness == e.liveness
  }

  ghost predicate SameReceiver(e: Endpoint, a: Endpoint) {
    a.written == e.written && a.marks == e.marks && a.lastReceive == e.lastReceive
  }

  lemma TunStageKeeps(e: Endpoint, i: Input)
    requires SendsWhatItRead(e, true)
    ensures var (a, error) := TunStage(e, i);
      SendsWhatItRead(a, error.None?) && Grown(e, a) && SameReceiver(e, a)
  {
    if i.tun.Some? {
      SendKeeps(e.(tunRead := e.tunRead + [i.tun.value]), DATA, i.tun.value);
    }
  }

  lemma UdpStageKeeps(e: Endpoint, i: Input)
    requires SendsWhatItRead(e, true) && e.cipher.Some?
    ensures var a := UdpStage(e, i).0;
      && SendsWhatItRead(a, true) && Grown(e, a)
      && (SameReceiver(e, a) || (i.udp.Some? && Accepts(e, i.udp.value)))
  {
    if i.udp.Some? {
      ReceiveEffect(e, i.udp.value, i.receivedAt, i.taken);
      var a := UdpStage(e, i).0;
      assert a == e.(marks := a.marks, lastReceive := a.lastReceive, written := a.written);
    }
  }

  lemma MaintainKeeps(e: Endpoint, now: real)
    requires SendsWhatItRead(e, true)
    ensures var a := Maintain(e, now).0;
      SendsWhatItRead(a, true) && Grown(e, a) && SameReceiver(e, a)
  {
    hide SendPacket;
    KeepaliveGrows(e);
    hide SendsWhatItRead;
    TimerDoesNotSend(SendPacket(e, KEEPALIVE, []).0, now + e.interval);
  }

  lemma KeepaliveGrows(e: Endpoint)
    requires SendsWhatItRead(e, true)
    ensures var a := SendPacket(e, KEEPALIVE, []).0;
      SendsWhatItRead(a, true) && Grown(e, a) && SameReceiver(e, a)
  {
    SendKeeps(e, KEEPALIVE, []);
    hide SendPacket, Outgoing, DataPayloads;
  }

  lemma TimerDoesNotSend(e: Endpoint, t: real)
    requires SendsWhatItRead(e, true)
    ensures SendsWhatItRead(e.(nextKeepalive := t), true)
  {
    hide Outgoing;
  }

  lemma StillSends(e: Endpoint, up: bool)
    requires SendsWhatItRead(e, true)
    ensures SendsWhatItRead(e, up) && Proper(e)
  {
  }

  /** A whole pass: the sending half grows, and the receiving half changes only by one accepted datagram. */
  lemma StepKeeps(e: Endpoint, i: Input)
    requires SendsWhatItRead(e, true) && e.cipher.Some?
    ensures var (a, r) := Step(e, i);
      && SendsWhatItRead(a, r.Ok?) && Grown(e, a)
      && var m := TunStage(e, i).0;
      && Proper(m) && Grown(e, m) && SameReceiver(e, m)
      && (SameReceiver(e, a) || (i.udp.Some? && Accepts(m, i.udp.value) && SameReceiver(UdpStage(m, i).0, a)))
  {
    hide TunStage, UdpStage, Maintain, SendsWhatItRead, Accepts;
    StillSends(e, true);
    var (a, e1) := TunStage(e, i);
    TunStageKeeps(e, i);
    if e1.None? {
      StillSends(a, true);
      var (b, e2) := UdpStage(a, i);
      UdpStageKeeps(a, i);
      StillSends(b, false);
      var c := Maintain(b, i.now).0;
      MaintainKeeps(b, i.now);
      StillSends(c, false);
    } else {
      ProperOf(a, false);
    }
  }

  lemma ProperOf(a: Endpoint, up: bool)
    requires SendsWhatItRead(a, up)
    ensures Proper(a)
  {
  }

  /** What was delivered from a shorter log is delivered from a longer one. */
  lemma LongerLog(s: Endpoint, r: Endpoint, r': Endpoint)
    requires DeliversWhatWasSent(s, r) && Grown(r, r')
    ensures DeliversWhatWasSent(s, r')
  {
  }

  /** The receiving half after one more packet, which its peer sent, was marked and perhaps delivered. */
  lemma NewDelivery(r: Endpoint, s: Endpoint, n: int, delivered: bool, a: Endpoint)
    requires DeliversWhatWasSent(r, s) && n !in r.marks
    requires 0 <= n < |s.log| && (delivered ==> s.log[n] == Packet(DATA, s.sessionId, n, s.log[n].payload))
    requires a.marks == r.marks + {n}
    requires a.written == r.written + (if delivered then [Delivery(n, s.log[n].payload)] else [])
    ensures DeliversWhatWasSent(a, s)
  {
    if !delivered { assert a.written == r.written; }
  }

  /** Accepting one datagram delivers a packet that was sent, and not delivered before. */
  lemma OneMoreDelivery(n: Net, atClient: bool, m: Endpoint, i: Input, a: Endpoint)
    requires Inv(n) && Proper(m) && Grown(Receiver(n, atClient), m) && SameReceiver(Receiver(n, atClient), m)
    requires i.udp.Some? && Deliverable(n, i.udp.value.data) && Accepts(m, i.udp.value)
    requires SameReceiver(UdpStage(m, i).0, a)
    ensures DeliversWhatWasSent(a, Sender(n, atClient))
  {
    hide CipherSpec.Decrypt, Receive, ReceiveUdpPacket, Deliverable, DeliversWhatWasSent, SendsWhatItRead, Refused;
    var d := i.udp.value;
    var r, s := Receiver(n, atClient), Sender(n, atClient);
    ReceiveEffect(m, d, i.receivedAt, i.taken);
    assert Accepts(r, d);
    AcceptedWasSent(n, atClient, d);
    var p := Receive(d.data).value;
    DecryptKeepsHeader(m.cipher.value, p);
    NotRefused(DEFAULT_REPLAY_WINDOW_SIZE, m.marks, p.sequence);
    NewDelivery(r, s, p.sequence, p.kind == DATA, a);
  }

  lemma NotRefused(size: nat, marks: set<int>, s: int)
    requires !Refused(size, marks, s)
    ensures s !in marks
  {
  }

  lemma DecryptKeepsHeader(spec: CipherSpec, p: Packet)
    requires spec.Usable() && spec.Decrypt(p).Ok?
    ensures spec.Decrypt(p).value == p.(payload := spec.Decrypt(p).value.payload)
    ensures p.sequence >= 0
  {
  }

  ghost function WithSender(n: Net, atClient: bool, s: Endpoint): Net {
    if atClient then n.(server := s) else n.(client := s)
  }

  lemma SenderGrows(n: Net, atClient: bool, s: Endpoint)
    requires Inv(n) && SendsWhatItRead(s, true) && Grown(Sender(n, atClient), s) && SameReceiver(Sender(n, atClient), s)
    ensures Inv(WithSender(n, atClient, s))
  {
    hide DataPayloads, Outgoing;
    var r := Receiver(n, atClient);
    LongerLog(r, Sender(n, atClient), s);
    SameDeliveries(Sender(n, atClient), s, r);
  }

  /** The whole pass, when it delivers: what arrived could arrive in mid-pass. */
  lemma DeliveryPass(n: Net, a: Action)
    requires Inv(n) && Allowed(n, a) && a.input.udp.Some?
    requires var r := Receiver(n, a.atClient);
      && TunStage(r, a.input).1.None? && SendsWhatItRead(r, true) && r.cipher.Some?
      && Accepts(TunStage(r, a.input).0, a.input.udp.value)
      && SameReceiver(UdpStage(TunStage(r, a.input).0, a.input).0, Step(r, a.input).0)
    ensures DeliversWhatWasSent(Step(Receiver(n, a.atClient), a.input).0, Sender(n, a.atClient))
  {
    hide Step, TunStage, UdpStage, Accepts, SendsWhatItRead, DeliversWhatWasSent, Deliverable, Inv;
    var r := Receiver(n, a.atClient);
    TunStageKeeps(r, a.input);
    var m := TunStage(r, a.input).0;
    SenderGrows(n, !a.atClient, m);
    assert MidPass(n, a) == WithSender(n, !a.atClient, m);
    OneMoreDelivery(MidPass(n, a), a.atClient, m, a.input, Step(r, a.input).0);
  }

  lemma NextKeeps(n: Net, a: Action)
    requires Inv(n) && Allowed(n, a)
    ensures Inv(Next(n, a))
  {
    hide Step, TunStage, UdpStage, Accepts, SendsWhatItRead, DeliversWhatWasSent, Deliverable, Allowed;
    var r, s := Receiver(n, a.atClient), Sender(n, a.atClient);
    if if a.atClient then n.clientUp else n.serverUp {
      StepKeeps(r, a.input);
      var r' := Step(r, a.input).0;
      LongerLog(s, r, r');
      if SameReceiver(r, r') {
        SameDeliveries(r, r', s);
      } else {
        FailedStageReceivesNothing(r, a.input);
        DeliveryPass(n, a);
      }
      ProperOf(r', Step(r, a.input).1.Ok?);
    }
  }

  lemma FailedStageReceivesNothing(e: Endpoint, i: Input)
    requires SendsWhatItRead(e, true)
    ensures TunStage(e, i).1.Some? ==> SameReceiver(e, Step(e, i).0)
  {
    TunStageKeeps(e, i);
    hide TunStage, UdpStage, Maintain;
  }

  lemma SameDeliveries(r: Endpoint, r': Endpoint, s: Endpoint)
    requires DeliversWhatWasSent(r, s) && SameReceiver(r, r')
    ensures DeliversWhatWasSent(r', s)
  {
  }

  // ----- whole runs

  ghost function Run(n: Net, actions: seq<Action>): Net
    requires Proper(n.client) && Proper(n.server)
    decreases |actions|
  {
    if actions == [] then n
    else
      StepProper(n.client, actions[0].input);
      StepProper(n.server, actions[0].input);
      Run(Next(n, actions[0]), actions[1..])
  }

  ghost predicate AllowedRun(n: Net, actions: seq<Action>)
    requires Paired(n.client, n.server)
    decreases |actions|
  {
    StepProper(n.client, if actions == [] then Input(None, None, 0.0, 0.0, 0) else actions[0].input);
    StepProper(n.server, if actions == [] then Input(None, None, 0.0, 0.0, 0) else actions[0].input);
    actions == [] || (Allowed(n, actions[0]) && AllowedRun(Next(n, actions[0]), actions[1..]))
  }

  /** Just constructed, for some remote address and at some time. */
  ghost predicate IsFresh(e: Endpoint) {
    exists a: Address, t: real :: e == Fresh(a, e.sessionId, e.cipher, e.interval, e.liveness, t)
  }

  ghost predicate Start(n: Net) {
    && Paired(n.client, n.server) && n.clientUp && n.serverUp
    && IsFresh(n.client) && IsFresh(n.server)
  }

  lemma {:induction false} RunKeeps(n: Net, actions: seq<Action>)
    requires Inv(n) && AllowedRun(n, actions)
    ensures Inv(Run(n, actions))
    decreases |actions|
  {
    if actions != [] {
      NextKeeps(n, actions[0]);
      RunKeeps(Next(n, actions[0]), actions[1..]);
    }
  }

  /**
   The tunnel theorem.  Over any run of a session, every delivery at one end is the DATA packet the other end sent
   under that sequence number, its payload is the one the sender's TUN device supplied for it, and distinct deliveries
   come from distinct sends.
   */
  lemma TunnelIsAuthentic(n: Net, actions: seq<Action>, atClient: bool)
    requires Start(n) && AllowedRun(n, actions)
    ensures var m := Run(n, actions);
      var r := if atClient then m.client else m.server;
      var s := if atClient then m.server else m.client;
      && (forall k :: 0 <= k < |r.written| ==>
            var d := r.written[k];
            && 0 <= d.sequence < |s.log|
            && s.log[d.sequence] == Packet(DATA, s.sessionId, d.sequence, d.payload)
            && |DataPayloads(s.log[..d.sequence])| < |s.tunRead|
            && s.tunRead[|DataPayloads(s.log[..d.sequence])|] == d.payload)
      && (forall j, k :: 0 <= j < k < |r.written| ==> r.written[j].sequence != r.written[k].sequence)
  {
    RunKeeps(n, actions);
    var m := Run(n, actions);
    var r := if atClient then m.client else m.server;
    var s := if atClient then m.server else m.client;
    forall k | 0 <= k < |r.written|
      ensures 0 <= r.written[k].sequence < |s.log|
      ensures |DataPayloads(s.log[..r.written[k].sequence])| < |s.tunRead|
      ensures s.tunRead[|DataPayloads(s.log[..r.written[k].sequence])|] == r.written[k].payload
    {
      DataPosition(s.log, r.written[k].sequence);
    }
  }

  /** The `i`-th packet, if DATA, holds the payload at the position counted by the DATA packets before it. */
  lemma {:induction false} DataPosition(log: seq<Packet>, i: nat)
    requires i < |log| && log[i].kind == DATA
    ensures |DataPayloads(log[..i])| < |DataPayloads(log)|
    ensures DataPayloads(log)[|DataPayloads(log[..i])|] == log[i].payload
    decreases |log|
  {
    var init := log[..|log| - 1];
    if i < |log| - 1 {
      DataPosition(init, i);
      assert init[..i] == log[..i];
    }
  }

  /** Distinct sends are read from distinct positions, so deliveries inject into TUN reads. */
  lemma {:induction false} PositionsDistinct(log: seq<Packet>, i: nat, j: nat)
    requires i < j < |log| && log[i].kind == DATA
    ensures |DataPayloads(log[..i])| < |DataPayloads(log[..j])|
  {
    DataPosition(log[..j], i);
    assert log[..j][..i] == log[..i];
  }

  /**
   An unmodified arrival from the configured peer is delivered exactly when it is DATA and its number is not refused.
   */
  lemma UnmodifiedArrival(n: Net, atClient: bool, i: nat, receivedAt: real, taken: int)
    requires Inv(n)
    requires i < |(if atClient then n.server else n.client).sent|
    ensures var r := if atClient then n.client else n.server;
      var s := if atClient then n.server else n.client;
      var after := ReceiveUdpPacket(r, Datagram(s.sent[i].data, r.remote), receivedAt, taken).0;
      if i in r.marks || exists m :: m in r.marks && i <= m - 64 then after == r
      else
        && after.marks == r.marks + {i as int} && after.lastReceive == receivedAt
        && after.written == r.written + (if s.log[i].kind == DATA then [Delivery(i, s.log[i].payload)] else [])
  {
    var r := if atClient then n.client else n.server;
    var s := if atClient then n.server else n.client;
    var spec := s.cipher.value;
    assert spec.Mirror() == r.cipher.value && spec.Usable();
    var p := s.log[i];
    var q := spec.Encrypt(p).value;
    EncryptSucceeds(spec, p);
    ReceiveOfEncode(q, s.sent[i].data);
    PeersInterop(spec, p, q);
    ReceiveEffect(r, Datagram(s.sent[i].data, r.remote), receivedAt, taken);
  }

  /** What an end sent, the network can deliver. */
  lemma SentIsDeliverable(n: Net, atClient: bool, i: nat)
    requires Paired(n.client, n.server) && i < |Sender(n, atClient).sent|
    ensures Deliverable(n, Sender(n, atClient).sent[i].data)
  {
  }

  lemma NewNumberNotRefused(r: Endpoint, s: Endpoint, i: nat)
    requires DeliversWhatWasSent(r, s) && i >= |s.log|
    ensures !Refused(DEFAULT_REPLAY_WINDOW_SIZE, r.marks, i)
  {
  }

  /** A payload that fits is sent, as the next packet. */
  lemma PayloadSent(e: Endpoint, payload: Bytes)
    requires SendsWhatItRead(e, true)
    requires |payload| <= MAX_PAYLOAD_SIZE - TAG_SIZE && |e.log| <= MAX_SEQUENCE_NUMBER
    ensures var (s, error) := SendTunPacket(e, payload);
      && error == None && SendsWhatItRead(s, true) && Grown(e, s) && SameReceiver(e, s)
      && s.log == e.log + [Packet(DATA, e.sessionId, |e.log|, payload)] && |s.sent| == |e.log| + 1
  {
    hide Outgoing, DataPayloads, SendPacket;
    var read := e.(tunRead := e.tunRead + [payload]);
    SendKeeps(read, DATA, payload);
    SmallSendSucceeds(read, DATA, payload);
  }

  /** The same for a whole pass that reads it, whatever the pass does after that. */
  lemma PassSends(e: Endpoint, payload: Bytes, receivedAt: real, now: real)
    requires SendsWhatItRead(e, true)
    requires |payload| <= MAX_PAYLOAD_SIZE - TAG_SIZE && |e.log| <= MAX_SEQUENCE_NUMBER
    ensures var a := Step(e, Input(Some(payload), None, receivedAt, now, 0)).0;
      && Counted(a) && Grown(e, a)
      && |e.log| < |a.log| == |a.sent| && a.log[|e.log|] == Packet(DATA, e.sessionId, |e.log|, payload)
  {
    hide SendsWhatItRead, SendTunPacket, Maintain;
    StillSends(e, true);
    PayloadSent(e, payload);
    var s := SendTunPacket(e, payload).0;
    StillSends(s, true);
    MaintainKeeps(s, now);
    CountedOf(Maintain(s, now).0);
  }

  lemma CountedOf(e: Endpoint)
    requires SendsWhatItRead(e, true)
    ensures Counted(e)
  {
  }

  /**
   In any reachable state, a payload that fits is sent when the TUN device supplies it, and if the network then brings
   its datagram to the other end, that end delivers it.
   */
  lemma PayloadArrives(n: Net, atClient: bool, payload: Bytes, receivedAt: real)
    requires Inv(n) && (if atClient then n.serverUp else n.clientUp)
    requires |payload| <= MAX_PAYLOAD_SIZE - TAG_SIZE && |Sender(n, atClient).log| <= MAX_SEQUENCE_NUMBER
    ensures var i := |Sender(n, atClient).log|;
      var (s, error) := SendTunPacket(Sender(n, atClient), payload);
      var r := Receiver(n, atClient);
      && error == None && |s.sent| == i + 1
      && var m := WithSender(n, atClient, s);
      && Inv(m) && Deliverable(m, s.sent[i].data)
      && var after := ReceiveUdpPacket(r, Datagram(s.sent[i].data, r.remote), receivedAt, |payload|).0;
      && after.written == r.written + [Delivery(i, payload)]
  {
    hide SendTunPacket, ReceiveUdpPacket, Deliverable, SendsWhatItRead, DeliversWhatWasSent;
    var e := Sender(n, atClient);
    StillSends(e, true);
    PayloadSent(e, payload);
    var s := SendTunPacket(e, payload).0;
    SenderGrows(n, atClient, s);
    var m := WithSender(n, atClient, s);
    SentIsDeliverable(m, atClient, |e.log|);
    NewNumberNotRefused(Receiver(n, atClient), e, |e.log|);
    UnmodifiedArrival(m, atClient, |e.log|, receivedAt, |payload|);
  }

  /** An intact datagram of the peer that is not refused counts as an authenticated arrival of the logged packet. */
  lemma IntactIsAccepted(n: Net, atClient: bool, i: nat)
    requires Inv(n) && i < |Sender(n, atClient).sent|
    requires !Refused(64, Receiver(n, atClient).marks, i)
    ensures var r, s := Receiver(n, atClient), Sender(n, atClient);
      var d := Datagram(s.sent[i].data, r.remote);
      && Accepts(r, d) && r.cipher.value.Decrypt(Receive(d.data).value) == Ok(s.log[i])
  {
    var r, s := Receiver(n, atClient), Sender(n, atClient);
    var spec := s.cipher.value;
    assert spec.Mirror() == r.cipher.value && spec.Usable();
    var q := spec.Encrypt(s.log[i]).value;
    EncryptSucceeds(spec, s.log[i]);
    ReceiveOfEncode(q, s.sent[i].data);
    PeersInterop(spec, s.log[i], q);
  }

  /**
   A pass that finds both descriptors readable serves both: the TUN payload is sent as the next packet, and the payload
   of the peer's intact and unseen DATA packet is written.
   */
  lemma PassServesBoth(n: Net, atClient: bool, k: nat, payload: Bytes, receivedAt: real, now: real)
    requires Inv(n) && k < |Sender(n, atClient).sent| && Sender(n, atClient).log[k].kind == DATA
    requires !Refused(64, Receiver(n, atClient).marks, k)
    requires |payload| <= 65475 && |Receiver(n, atClient).log| < 0xFFFF_FFFF_FFFF_FFFF
    ensures var r, s := Receiver(n, atClient), Sender(n, atClient);
      var i := Input(Some(payload), Some(Datagram(s.sent[k].data, r.remote)), receivedAt, now, |s.log[k].payload|);
      var (a, result) := Step(r, i);
      && a.written == r.written + [Delivery(k, s.log[k].payload)]
      && r.log + [Packet(DATA, r.sessionId, |r.log|, payload)] <= a.log
      && (r.interval == 0.0 || now - receivedAt < r.liveness ==> result == Ok(2))
      && (r.interval != 0.0 && now - receivedAt >= r.liveness ==> result == Err(TimeoutError))
  {
    hide Step, Accepts, Receive, CipherSpec.Decrypt, Refused, DeliversWhatWasSent, DataPayloads;
    var r, s := Receiver(n, atClient), Sender(n, atClient);
    IntactIsAccepted(n, atClient, k);
    PassEffect(r, Input(Some(payload), Some(Datagram(s.sent[k].data, r.remote)), receivedAt, now, |s.log[k].payload|));
  }

  // ----- no key and nonce are used twice

  /** Every datagram of `e` is a sealing. */
  ghost predicate AllSealed(e: Endpoint) {
    forall i :: 0 <= i < |e.sent| ==> IsSealed(e.sent[i].data)
  }

  /** No key and nonce seal two datagrams of `e`. */
  ghost predicate SealsOnce(e: Endpoint) {
    forall i, j, key, nonce :: 0 <= i < j < |e.sent| ==>
      !(Seals(e.sent[i].data, key, nonce) && Seals(e.sent[j].data, key, nonce))
  }

  /** No key seals for both. */
  ghost predicate SealApart(e: Endpoint, a: Endpoint) {
    forall i, j, key :: 0 <= i < |e.sent| && 0 <= j < |a.sent| ==>
      !(SealsUnder(e.sent[i].data, key) && SealsUnder(a.sent[j].data, key))
  }

  lemma DatagramSeals(e: Endpoint, i: nat)
    requires Counted(e) && e.cipher.Some? && i < |e.sent|
    ensures IsSealed(e.sent[i].data)
    ensures forall key, nonce :: Seals(e.sent[i].data, key, nonce) ==> nonce == Nonce(e.sessionId, i)
    ensures forall key :: SealsUnder(e.sent[i].data, key) ==> key == SendKey(e.cipher.value, i)
  {
    OneSealing(e.cipher.value, e.log[i], e.sent[i].data);
    assert Seals(e.sent[i].data, SendKey(e.cipher.value, i), Nonce(e.sessionId, i));
  }

  lemma EndpointSealsOnce(e: Endpoint)
    requires Counted(e) && e.cipher.Some?
    ensures AllSealed(e) && SealsOnce(e)
  {
    hide Seals, Outgoing, Nonce, SendKey;
    forall i | 0 <= i < |e.sent| ensures IsSealed(e.sent[i].data) {
      DatagramSeals(e, i);
    }
    forall i, j, key, nonce | 0 <= i < j < |e.sent|
      ensures !(Seals(e.sent[i].data, key, nonce) && Seals(e.sent[j].data, key, nonce))
    {
      DatagramSeals(e, i);
      DatagramSeals(e, j);
      if Nonce(e.sessionId, i) == Nonce(e.sessionId, j) { NonceInjective(e.sessionId, i, e.sessionId, j); }
    }
  }

  /** Among all datagrams of both ends, no key and nonce seal two. */
  lemma NoKeyNonceReuse(n: Net)
    requires Inv(n)
    ensures AllSealed(n.client) && SealsOnce(n.client)
    ensures AllSealed(n.server) && SealsOnce(n.server)
    ensures SealApart(n.client, n.server)
  {
    EndpointSealsOnce(n.client);
    EndpointSealsOnce(n.server);
    hide Outgoing, SealsUnder, Seals, SendKey;
    forall i, j, key | 0 <= i < |n.client.sent| && 0 <= j < |n.server.sent|
      ensures !(SealsUnder(n.client.sent[i].data, key) && SealsUnder(n.server.sent[j].data, key))
    {
      DatagramSeals(n.client, i);
      DatagramSeals(n.server, j);
      DirectionsSeparate(n.client.cipher.value, i, j);
    }
  }

  /**
   Over any run: the two ends never seal under one key and nonce twice, each end's packets are numbered 0, 1, 2 and so
   on and end at 2^64 - 1, and with rotation on no key seals more than `packetsPerKey` of them.
   */
  lemma RunNeverReusesNonce(n: Net, actions: seq<Action>, key: Bytes)
    requires Start(n) && AllowedRun(n, actions)
    ensures var m := Run(n, actions);
      && Inv(m)
      && AllSealed(m.client) && SealsOnce(m.client)
      && AllSealed(m.server) && SealsOnce(m.server)
      && SealApart(m.client, m.server)
      && UseOfKey(m.client, key) && UseOfKey(m.server, key)
  {
    RunKeeps(n, actions);
    NoKeyNonceReuse(Run(n, actions));
    KeyUse(Run(n, actions).client, key);
    KeyUse(Run(n, actions).server, key);
  }

  ghost predicate UseOfKey(e: Endpoint, key: Bytes)
    requires Proper(e) && e.cipher.Some?
  {
    && |e.sent| == |e.log| <= MAX_SEQUENCE_NUMBER + 1
    && (forall i :: 0 <= i < |e.log| ==> e.log[i].sequence == i)
    && (e.cipher.value.packetsPerKey > 0 ==> |SealedUnder(e, key)| <= e.cipher.value.packetsPerKey)
  }

  /** The datagrams of an endpoint that seal under `key`. */
  ghost function SealedUnder(e: Endpoint, key: Bytes): set<nat> {
    set i: nat | i < |e.sent| && SealsUnder(e.sent[i].data, key)
  }

  lemma KeyUse(e: Endpoint, key: Bytes)
    requires Counted(e) && e.cipher.Some?
    ensures UseOfKey(e, key)
  {
    if e.cipher.value.packetsPerKey > 0 {
      forall i | i in SealedUnder(e, key) ensures i <= MAX_SEQUENCE_NUMBER && SendKey(e.cipher.value, i) == key {
        DatagramSeals(e, i);
      }
      KeyUseBounded(e.cipher.value, SealedUnder(e, key), key);
    }
  }

  // ----- from a handshake to a tunnel

  /**
   End to end: when a client's handshake run completes under any traffic, the server made a matching accept call, and
   the endpoints built on the two ciphers start a session to which the tunnel theorem applies.
   */
  lemma CompletedHandshakeOpensTunnel(w: World, c: CreateCall, remote: Address, packetsPerKey: nat, arrival: Arrival,
                                      clientAddress: Address, interval: real, liveness: real, t: real, t': real)
    returns (a: AcceptCall, n: Net)
    requires w.Proper() && c in w.creates && w.Created(c).Ok?
    requires Answer(w.Created(c).value.state, remote, arrival).Ok?
    requires Receive(arrival.datagram.data).Ok? ==> w.Deliverable(Receive(arrival.datagram.data).value.payload)
    requires Configured(0, None, interval, liveness)
    ensures a in w.accepts && a.hello == w.Created(c).value.packet && w.Accepted(a).Ok?
    ensures Start(n)
    ensures n.client.cipher.value.secret == Answer(w.Created(c).value.state, remote, arrival).value
      && n.server.cipher.value.secret == w.Accepted(a).value.secret
    ensures n.client.sessionId == c.sessionId && n.server.sessionId == a.hello.sessionId
  {
    hide AcceptClientHello, FinishClientHandshake, CreateClientHello;
    a := CompletedRunHasPeer(w, c, remote, packetsPerKey, arrival);
    var secret := Answer(w.Created(c).value.state, remote, arrival).value;
    var client := CreateCipher(secret, c.sessionId, Role.CLIENT, packetsPerKey).value;
    n := Net(Fresh(remote, c.sessionId, Some(client), interval, liveness, t),
             Fresh(clientAddress, c.sessionId, Some(client.Mirror()), interval, liveness, t'), true, true);
  }
}
