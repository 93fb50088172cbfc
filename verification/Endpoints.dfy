/** One end of the point-to-point tunnel of src/matf_vpn/engine.py, as a step machine on values. */
module Endpoints {
  import opened Outcome
  import opened Reals
  import opened Octets
  import opened Protocol
  import opened Transport
  import opened Replay
  import opened Ciphers

  /** A write to the TUN device, with the sequence number of the packet it came from. */
  datatype Delivery = Delivery(sequence: int, payload: Bytes)

  datatype Endpoint = Endpoint(
    remote: Address,
    sessionId: nat,
    cipher: Option<CipherSpec>,
    interval: real,                // 0 when keepalives are off
    liveness: real,
    sequence: nat,
    marks: set<int>,
    lastReceive: real,
    nextKeepalive: real,
    tunRead: seq<Bytes>,           // what the TUN device supplied
    log: seq<Packet>,              // the packets sent, before encryption
    sent: seq<Datagram>,           // the datagrams sent
    written: seq<Delivery>)        // what the TUN device was given

  /**
   What one pass of the loop meets: readable descriptors, clock readings, and how much of a TUN write the device took.
   */
  datatype Input = Input(tun: Option<Bytes>, udp: Option<Datagram>, receivedAt: real, now: real, taken: int)

  predicate Configured(sessionId: int, cipher: Option<CipherSpec>, interval: real, liveness: real) {
    && 0 <= sessionId <= MAX_SESSION_ID
    && interval >= 0.0 && liveness >= 0.0
    && (interval != 0.0 <==> liveness != 0.0)
    && (liveness != 0.0 ==> liveness > interval)
    && (cipher.Some? ==> cipher.value.Usable())
  }

  ghost predicate Proper(e: Endpoint) {
    Configured(e.sessionId, e.cipher, e.interval, e.liveness)
  }

  ghost function Fresh(remote: Address, sessionId: nat, cipher: Option<CipherSpec>, interval: real, liveness: real,
                       now: real): Endpoint {
    Endpoint(remote, sessionId, cipher, interval, liveness, 0, {}, now, now + interval, [], [], [], [])
  }

  function Outgoing(cipher: Option<CipherSpec>, p: Packet): Result<Bytes>
    requires cipher.Some? ==> cipher.value.Usable()
  {
    match (if cipher.None? then Ok(p) else cipher.value.Encrypt(p))
    case Err(e) => Err(e)
    case Ok(q) => Encode(q)
  }

  ghost function SendPacket(e: Endpoint, kind: MessageType, payload: Bytes): (Endpoint, Option<Error>)
    requires Proper(e)
  {
    if e.sequence > MAX_SEQUENCE_NUMBER then (e, Some(OverflowError))
    else
      var p := Packet(kind, e.sessionId, e.sequence, payload);
      match Outgoing(e.cipher, p)
      case Err(error) => (e, Some(error))
      case Ok(data) => (e.(sequence := e.sequence + 1, log := e.log + [p],
                           sent := e.sent + [Datagram(data, e.remote)]), None)
  }

  ghost function SendTunPacket(e: Endpoint, payload: Bytes): (Endpoint, Option<Error>)
    requires Proper(e)
  {
    SendPacket(e.(tunRead := e.tunRead + [payload]), DATA, payload)
  }

  ghost function WriteTun(e: Endpoint, p: Packet, taken: int): (Endpoint, Result<bool>) {
    if p.kind == KEEPALIVE then (e, Ok(false))
    else
      var after := e.(written := e.written + [Delivery(p.sequence, p.payload)]);
      if taken != |p.payload| then (after, Err(OSError)) else (after, Ok(true))
  }

  ghost function ReceiveUdpPacket(e: Endpoint, d: Datagram, receivedAt: real, taken: int): (Endpoint, Result<bool>)
    requires Proper(e)
  {
    match Receive(d.data)
    case Err(_) => (e, Ok(false))
    case Ok(p) =>
      if d.peer != e.remote then (e, Ok(false))
      else if p.sessionId != e.sessionId then (e, Ok(false))
      else if p.kind != DATA && p.kind != KEEPALIVE then (e, Ok(false))
      else if e.cipher.None? then WriteTun(e, p, taken)
      else if Refused(DEFAULT_REPLAY_WINDOW_SIZE, e.marks, p.sequence) then (e, Ok(false))
      else
        match e.cipher.value.Decrypt(p)
        case Err(InvalidTag) => (e, Ok(false))
        case Err(error) => (e, Err(error))
        case Ok(q) => WriteTun(e.(marks := e.marks + {p.sequence}, lastReceive := receivedAt), q, taken)
  }

  /** The end of a pass: a keepalive when one is due, then the liveness check. */
  ghost function Maintain(e: Endpoint, now: real): (Endpoint, Option<Error>)
    requires Proper(e)
  {
    if e.interval == 0.0 then (e, None)
    else
      var (a, error) := if now >= e.nextKeepalive then SendPacket(e, KEEPALIVE, []) else (e, None);
      if error.Some? then (a, error)
      else
        var b := if now >= e.nextKeepalive then a.(nextKeepalive := now + e.interval) else a;
        (b, if now - b.lastReceive >= b.liveness then Some(TimeoutError) else None)
  }

  ghost function TunStage(e: Endpoint, i: Input): (Endpoint, Option<Error>)
    requires Proper(e)
  {
    if i.tun.Some? then SendTunPacket(e, i.tun.value) else (e, None)
  }

  ghost function UdpStage(e: Endpoint, i: Input): (Endpoint, Result<bool>)
    requires Proper(e)
  {
    if i.udp.Some? then ReceiveUdpPacket(e, i.udp.value, i.receivedAt, i.taken) else (e, Ok(false))
  }

  /** One `run_once`: the new state, and the number of packets forwarded or the exception that ends the run. */
  ghost function Step(e: Endpoint, i: Input): (Endpoint, Result<nat>)
    requires Proper(e)
  {
    var (a, sendError) := TunStage(e, i);
    if sendError.Some? then (a, Err(sendError.value))
    else
      var (b, received) := UdpStage(a, i);
      if received.Err? then (b, Err(received.error))
      else
        var (c, error) := Maintain(b, i.now);
        if error.Some? then (c, Err(error.value))
        else (c, Ok((if i.tun.Some? then 1 else 0) + (if received.value then 1 else 0)))
  }

  /** What never changes: the configuration. */
  ghost predicate SameConfig(e: Endpoint, a: Endpoint) {
    && a.remote == e.remote && a.sessionId == e.sessionId && a.cipher == e.cipher
    && a.interval == e.interval && a.liveness == e.liveness
  }

  lemma StageConfigs(e: Endpoint, i: Input)
    requires Proper(e)
    ensures SameConfig(e, TunStage(e, i).0) && SameConfig(e, UdpStage(e, i).0) && SameConfig(e, Maintain(e, i.now).0)
  {
    hide Outgoing, Receive, CipherSpec.Decrypt, Refused;
  }

  lemma StepProper(e: Endpoint, i: Input)
    requires Proper(e)
    ensures Proper(Step(e, i).0) && SameConfig(e, Step(e, i).0)
  {
    StageConfigs(e, i);
    var a := TunStage(e, i).0;
    StageConfigs(a, i);
    StageConfigs(UdpStage(a, i).0, i);
    hide TunStage, UdpStage, Maintain;
  }

  /** A run of one endpoint: passes until the first exception. */
  ghost function RunUntilRaised(e: Endpoint, inputs: seq<Input>): (Endpoint, Option<Error>)
    requires Proper(e)
    decreases |inputs|
  {
    if inputs == [] then (e, None)
    else
      StepProper(e, inputs[0]);
      var (a, r) := Step(e, inputs[0]);
      if r.Err? then (a, Some(r.error)) else RunUntilRaised(a, inputs[1..])
  }

  /** How long `run_once` sleeps at most; `None` is for ever. */
  ghost function SelectTimeout(e: Endpoint, requested: Option<real>, now: real): Option<real> {
    if e.interval == 0.0 then requested
    else
      var internal := Min(Max(0.0, e.nextKeepalive - now), Max(0.0, e.liveness - (now - e.lastReceive)));
      match requested
      case None => Some(internal)
      case Some(r) => Some(Min(r, internal))
  }

  // ----- the sender's counter

  /**
   The sending half of an endpoint: packet `i` of the log carries sequence number `i` and is what datagram `i` holds.
   */
  ghost predicate Counted(e: Endpoint) {
    && Proper(e)
    && e.sequence == |e.log| == |e.sent|
    && e.sequence <= MAX_SEQUENCE_NUMBER + 1
    && (forall i :: 0 <= i < |e.log| ==>
          && e.log[i].sequence == i && e.log[i].sessionId == e.sessionId
          && (e.log[i].kind == DATA || e.log[i].kind == KEEPALIVE))
    && (forall i :: 0 <= i < |e.sent| ==>
          e.sent[i].peer == e.remote && Outgoing(e.cipher, e.log[i]) == Ok(e.sent[i].data))
  }

  function DataPayloads(log: seq<Packet>): seq<Bytes> {
    if log == [] then []
    else DataPayloads(log[..|log| - 1]) + (if log[|log| - 1].kind == DATA then [log[|log| - 1].payload] else [])
  }

  function KeepaliveCount(log: seq<Packet>): nat {
    if log == [] then 0
    else KeepaliveCount(log[..|log| - 1]) + (if log[|log| - 1].kind == KEEPALIVE then 1 else 0)
  }

  /** What everything but receiving leaves alone, and sending keeps. */
  lemma SendKeeps(e: Endpoint, kind: MessageType, payload: Bytes)
    requires Counted(e) && (kind == DATA || kind == KEEPALIVE)
    ensures var (a, error) := SendPacket(e, kind, payload);
      && Counted(a)
      && a == e.(sequence := a.sequence, log := a.log, sent := a.sent)
      && (error.Some? ==> a == e)
      && (error.None? ==> a.log == e.log + [Packet(kind, e.sessionId, e.sequence, payload)])
      && DataPayloads(a.log) == DataPayloads(e.log) + (if error.None? && kind == DATA then [payload] else [])
      && KeepaliveCount(a.log) == KeepaliveCount(e.log) + (if error.None? && kind == KEEPALIVE then 1 else 0)
  {
    var (a, error) := SendPacket(e, kind, payload);
    if error.None? {
      assert a.log[..|a.log| - 1] == e.log;
    }
  }

  /** The counter alone stops transmission: after 2^64 packets every send fails and changes nothing. */
  lemma ExhaustedCounterStops(e: Endpoint, kind: MessageType, payload: Bytes)
    requires Counted(e)
    ensures SendPacket(e, kind, payload) == (e, Some(OverflowError)) <==> |e.log| == MAX_SEQUENCE_NUMBER + 1
  {
    if e.sequence <= MAX_SEQUENCE_NUMBER {
      var p := Packet(kind, e.sessionId, e.sequence, payload);
      if e.cipher.Some? { EncryptSucceeds(e.cipher.value, p); KeysAt(e.cipher.value, e.sequence); }
    }
  }

  /** While the counter lasts, what leaves room for the tag is sent. */
  lemma SmallSendSucceeds(e: Endpoint, kind: MessageType, payload: Bytes)
    requires Counted(e) && |payload| <= MAX_PAYLOAD_SIZE - TAG_SIZE
    ensures SendPacket(e, kind, payload).1 == if e.sequence > MAX_SEQUENCE_NUMBER then Some(OverflowError) else None
  {
    if e.sequence <= MAX_SEQUENCE_NUMBER && e.cipher.Some? {
      EncryptSucceeds(e.cipher.value, Packet(kind, e.sessionId, e.sequence, payload));
    }
  }

  /** A datagram that counts as an authenticated arrival. */
  ghost predicate Accepts(e: Endpoint, d: Datagram)
    requires Proper(e)
  {
    && e.cipher.Some? && d.peer == e.remote
    && Receive(d.data).Ok?
    && var p := Receive(d.data).value;
    && p.sessionId == e.sessionId
    && (p.kind == DATA || p.kind == KEEPALIVE)
    && !Refused(DEFAULT_REPLAY_WINDOW_SIZE, e.marks, p.sequence)
    && e.cipher.value.Decrypt(p).Ok?
  }

  /** Wire packets can fail to decrypt only by their tag. */
  lemma OnlyTagsFail(spec: CipherSpec, p: Packet)
    requires spec.Usable() && Encode(p).Ok?
    ensures spec.Decrypt(p).Err? ==> spec.Decrypt(p).error == InvalidTag
  {
    KeysAt(spec, p.sequence);
  }

  /**
   Foreign, replayed, malformed and badly tagged datagrams leave an encrypted endpoint exactly as it was, deadline
   included; an accepted one marks its number, restarts the deadline, and delivers its payload if it is DATA.
   */
  lemma ReceiveEffect(e: Endpoint, d: Datagram, receivedAt: real, taken: int)
    requires Proper(e) && e.cipher.Some?
    ensures !Accepts(e, d) ==> ReceiveUdpPacket(e, d, receivedAt, taken) == (e, Ok(false))
    ensures Accepts(e, d) ==>
      var p := Receive(d.data).value;
      var q := e.cipher.value.Decrypt(p).value;
      var written := if p.kind == DATA then [Delivery(p.sequence, q.payload)] else [];
      && ReceiveUdpPacket(e, d, receivedAt, taken).0
           == e.(marks := e.marks + {p.sequence}, lastReceive := receivedAt, written := e.written + written)
      && ReceiveUdpPacket(e, d, receivedAt, taken).1
           == if p.kind == KEEPALIVE then Ok(false) else if taken != |q.payload| then Err(OSError) else Ok(true)
  {
    if Receive(d.data).Ok? {
      OnlyTagsFail(e.cipher.value, Receive(d.data).value);
    }
  }

  /**
   Datagrams that change nothing and are not counted: from another address, malformed, of another session, hellos, and
   on an encrypted endpoint those seen before, those 64 or more behind the highest, and those that do not open.
   */
  lemma IgnoredDatagrams(e: Endpoint, d: Datagram, receivedAt: real, taken: int)
    requires Proper(e)
    requires
      || d.peer != e.remote
      || Receive(d.data).Err?
      || Receive(d.data).value.sessionId != e.sessionId
      || Receive(d.data).value.kind == MessageType.CLIENT_HELLO
      || Receive(d.data).value.kind == MessageType.SERVER_HELLO
      || (e.cipher.Some? && Receive(d.data).value.sequence in e.marks)
      || (e.cipher.Some? && exists m :: m in e.marks && Receive(d.data).value.sequence <= m - 64)
      || (e.cipher.Some? && e.cipher.value.Decrypt(Receive(d.data).value).Err?)
    ensures ReceiveUdpPacket(e, d, receivedAt, taken) == (e, Ok(false))
  {
    if e.cipher.Some? && Receive(d.data).Ok? { OnlyTagsFail(e.cipher.value, Receive(d.data).value); }
  }

  /** Without a cipher every well-formed packet of the session is taken, again and again, and restarts no deadline. */
  lemma PlainReceive(e: Endpoint, d: Datagram, receivedAt: real, taken: int)
    requires Proper(e) && e.cipher.None? && d.peer == e.remote
    requires Receive(d.data).Ok? && Receive(d.data).value.sessionId == e.sessionId
    ensures var p := Receive(d.data).value;
      && (p.kind == KEEPALIVE ==> ReceiveUdpPacket(e, d, receivedAt, taken) == (e, Ok(false)))
      && (p.kind == DATA ==>
            ReceiveUdpPacket(e, d, receivedAt, taken)
              == (e.(written := e.written + [Delivery(p.sequence, p.payload)]),
                  if taken == |p.payload| then Ok(true) else Err(OSError)))
  {
  }

  /** Without a cipher, packets go out as they are. */
  lemma PlainSend(e: Endpoint, kind: MessageType, payload: Bytes)
    requires Counted(e) && e.cipher.None? && |e.log| <= 0xFFFF_FFFF_FFFF_FFFF && |payload| <= 65491
    ensures var p := Packet(kind, e.sessionId, |e.log|, payload);
      && Encode(p).Ok?
      && SendPacket(e, kind, payload) == (e.(sequence := e.sequence + 1, log := e.log + [p],
           sent := e.sent + [Datagram(Encode(p).value, e.remote)]), None)
  {
  }

  // ----- a whole pass

  /** What TUN supplies in this pass can be sent. */
  ghost predicate TunFits(e: Endpoint, i: Input) {
    i.tun.Some? ==> |e.log| <= 0xFFFF_FFFF_FFFF_FFFF && |i.tun.value| <= 65475
  }

  /** A packet of the peer arrives in this pass. */
  ghost predicate Arrives(e: Endpoint, i: Input)
    requires Proper(e)
  {
    i.udp.Some? && Accepts(e, i.udp.value)
  }

  function DeliveryOf(p: Packet): Delivery { Delivery(p.sequence, p.payload) }

  /** What that packet was before encryption. */
  ghost function ArrivedPacket(e: Endpoint, i: Input): Packet
    requires Proper(e) && Arrives(e, i)
  {
    e.cipher.value.Decrypt(Receive(i.udp.value.data).value).value
  }

  ghost predicate KeepaliveDue(e: Endpoint, i: Input) {
    e.interval != 0.0 && i.now >= e.nextKeepalive
  }

  lemma TunStageEffect(e: Endpoint, i: Input)
    requires Counted(e) && e.cipher.Some?
    ensures var (a, error) := TunStage(e, i);
      && a == e.(tunRead := a.tunRead, sequence := a.sequence, log := a.log, sent := a.sent) && Counted(a)
      && a.tunRead == e.tunRead + (if i.tun.Some? then [i.tun.value] else [])
      && (error.None? <==> TunFits(e, i))
      && a.log == e.log + (if i.tun.Some? && error.None? then [Packet(DATA, e.sessionId, |e.log|, i.tun.value)] else [])
      && (error.Some? ==> a == e.(tunRead := a.tunRead))
  {
    if i.tun.Some? {
      var read := e.(tunRead := e.tunRead + [i.tun.value]);
      SendKeeps(read, DATA, i.tun.value);
      EncryptSucceeds(e.cipher.value, Packet(DATA, e.sessionId, e.sequence, i.tun.value));
    }
  }

  lemma UdpStageEffect(e: Endpoint, i: Input)
    requires Counted(e) && e.cipher.Some?
    ensures var (a, r) := UdpStage(e, i);
      && a == e.(marks := a.marks, lastReceive := a.lastReceive, written := a.written) && Counted(a)
      && a.marks == e.marks + (if Arrives(e, i) then {ArrivedPacket(e, i).sequence} else {})
      && a.lastReceive == (if Arrives(e, i) then i.receivedAt else e.lastReceive)
      && a.written == e.written
           + (if Arrives(e, i) && ArrivedPacket(e, i).kind == DATA then [DeliveryOf(ArrivedPacket(e, i))] else [])
      && r == if Arrives(e, i) && ArrivedPacket(e, i).kind == DATA
              then if i.taken == |ArrivedPacket(e, i).payload| then Ok(true) else Err(OSError)
              else Ok(false)
  {
    hide Receive, CipherSpec.Decrypt, Refused, ReceiveUdpPacket;
    if i.udp.Some? {
      ReceiveEffect(e, i.udp.value, i.receivedAt, i.taken);
      if Arrives(e, i) { OpenedPacket(e.cipher.value, Receive(i.udp.value.data).value); }
      CountedIgnoresReceiver(e, UdpStage(e, i).0);
    }
  }

  lemma OpenedPacket(spec: CipherSpec, p: Packet)
    requires spec.Usable() && spec.Decrypt(p).Ok?
    ensures spec.Decrypt(p).value == p.(payload := spec.Decrypt(p).value.payload)
  {
  }

  lemma CountedIgnoresReceiver(e: Endpoint, a: Endpoint)
    requires Counted(e) && a == e.(marks := a.marks, lastReceive := a.lastReceive, written := a.written)
    ensures Counted(a)
  {
  }

  lemma MaintainEffect(e: Endpoint, i: Input)
    requires Counted(e) && e.cipher.Some?
    ensures var (a, error) := Maintain(e, i.now);
      && a == e.(sequence := a.sequence, log := a.log, sent := a.sent, nextKeepalive := a.nextKeepalive) && Counted(a)
      && if KeepaliveDue(e, i) && |e.log| > 0xFFFF_FFFF_FFFF_FFFF then error == Some(OverflowError) && a == e
         else
           && a.log == e.log + (if KeepaliveDue(e, i) then [Packet(KEEPALIVE, e.sessionId, |e.log|, [])] else [])
           && a.nextKeepalive == (if KeepaliveDue(e, i) then i.now + e.interval else e.nextKeepalive)
           && error == if e.interval != 0.0 && i.now - e.lastReceive >= e.liveness then Some(TimeoutError) else None
  {
    hide Outgoing;
    SendKeeps(e, KEEPALIVE, []);
    SmallSendSucceeds(e, KEEPALIVE, []);
    TimerIsNotCounted(SendPacket(e, KEEPALIVE, []).0, i.now + e.interval);
  }

  lemma TimerIsNotCounted(e: Endpoint, t: real)
    requires Counted(e)
    ensures Counted(e.(nextKeepalive := t))
  {
  }

  /**
   What one pass does, whatever is readable.  The TUN packet is read and sent first; if that fails nothing else happens.
   Then a packet of the peer is taken, also when TUN was readable: its number is marked, the deadline restarted, its
   payload written if it is DATA.  Then, unless the write was short, a keepalive goes out if one is due, and the
   deadline is checked.  The result counts the TUN packet and the payload written.
   */
  lemma PassEffect(e: Endpoint, i: Input)
    requires Counted(e) && e.cipher.Some?
    ensures var (a, r) := Step(e, i);
      && Counted(a) && SameConfig(e, a)
      && a.tunRead == e.tunRead + (if i.tun.Some? then [i.tun.value] else [])
      && if !TunFits(e, i) then r.Err? && a == e.(tunRead := a.tunRead)
         else
           var log := e.log + (if i.tun.Some? then [Packet(DATA, e.sessionId, |e.log|, i.tun.value)] else []);
           var data := Arrives(e, i) && ArrivedPacket(e, i).kind == DATA;
           && a.marks == e.marks + (if Arrives(e, i) then {ArrivedPacket(e, i).sequence} else {})
           && a.lastReceive == (if Arrives(e, i) then i.receivedAt else e.lastReceive)
           && a.written == e.written + (if data then [DeliveryOf(ArrivedPacket(e, i))] else [])
           && if data && i.taken != |ArrivedPacket(e, i).payload| then
                r == Err(OSError) && a.log == log && a.nextKeepalive == e.nextKeepalive
              else if KeepaliveDue(e, i) && |log| > 0xFFFF_FFFF_FFFF_FFFF then
                r == Err(OverflowError) && a.log == log && a.nextKeepalive == e.nextKeepalive
              else
                && a.log == log + (if KeepaliveDue(e, i) then [Packet(KEEPALIVE, e.sessionId, |log|, [])] else [])
                && a.nextKeepalive == (if KeepaliveDue(e, i) then i.now + e.interval else e.nextKeepalive)
                && r == if e.interval != 0.0 && i.now - a.lastReceive >= e.liveness then Err(TimeoutError)
                        else Ok((if i.tun.Some? then 1 else 0) + (if data then 1 else 0))
  {
    hide TunStage, UdpStage, Maintain, Receive, CipherSpec.Decrypt, Refused, Outgoing, Counted;
    CountedIsProper(e);
    StepProper(e, i);
    TunStageEffect(e, i);
    var (m, error) := TunStage(e, i);
    CountedIsProper(m);
    if error.None? {
      UdpStageEffect(m, i);
      var (b, got) := UdpStage(m, i);
      CountedIsProper(b);
      if got.Ok? { MaintainEffect(b, i); }
    }
  }

  lemma CountedIsProper(e: Endpoint)
    requires Counted(e)
    ensures Proper(e)
  {
  }

  // ----- whole runs

  /** What follows a raising pass is not executed; what follows other passes goes on from where they left off. */
  lemma {:induction false} RunStops(e: Endpoint, inputs: seq<Input>, k: nat)
    requires Proper(e) && k <= |inputs|
    ensures var (a, error) := RunUntilRaised(e, inputs[..k]);
      && Proper(a)
      && RunUntilRaised(e, inputs) == if error.Some? then (a, error) else RunUntilRaised(a, inputs[k..])
    decreases k
  {
    if k > 0 {
      StepProper(e, inputs[0]);
      assert inputs[..k][0] == inputs[0] && inputs[..k][1..] == inputs[1..][..k - 1];
      assert inputs[1..][k - 1..] == inputs[k..];
      hide Step;
      if Step(e, inputs[0]).1.Ok? { RunStops(Step(e, inputs[0]).0, inputs[1..], k - 1); }
    } else {
      assert inputs[..0] == [] && inputs[0..] == inputs;
    }
  }

  /** A run of one pass is that pass. */
  lemma RunOfOne(e: Endpoint, i: Input)
    requires Proper(e)
    ensures RunUntilRaised(e, [i]) == (Step(e, i).0, if Step(e, i).1.Err? then Some(Step(e, i).1.error) else None)
  {
    StepProper(e, i);
    hide Step;
    assert [i][1..] == [];
  }
}
