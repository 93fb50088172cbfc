/** The point-to-point forwarding loop of src/matf_vpn/engine.py, on its own fields. */
module Engine {
  import opened Outcome
  import opened Reals
  import opened Octets
  import opened Protocol
  import opened Transport
  import opened Replay
  import opened Ciphers
  import opened Endpoints

  class TunnelEngine {
    const remoteAddress: Address
    const sessionId: nat
    const cipher: Option<Cipher>
    ghost const spec: Option<CipherSpec>
    const keepaliveInterval: real
    const livenessTimeout: real
    const replayWindow: ReplayWindow

    var sequenceNumber: nat
    var lastAuthenticatedReceive: real
    var nextKeepalive: real

    // what went through the TUN device and the transport
    var tunRead: seq<Bytes>
    var sent: seq<Datagram>
    var written: seq<Delivery>
    ghost var log: seq<Packet>

    ghost function Repr(): set<object> {
      {this, replayWindow} + (if cipher.Some? then Footprint(cipher.value) else {})
    }

    ghost predicate Valid()
      reads Repr()
    {
      && replayWindow.Valid() && replayWindow.size == DEFAULT_REPLAY_WINDOW_SIZE
      && Configured(sessionId, spec, keepaliveInterval, livenessTimeout)
      && (cipher.Some? <==> spec.Some?)
      && (cipher.Some? ==> Implements(cipher.value, spec.value))
    }

    /** The endpoint these fields stand for. */
    ghost function State(): Endpoint
      reads Repr()
    {
      Endpoint(remoteAddress, sessionId, spec, keepaliveInterval, livenessTimeout, sequenceNumber, replayWindow.marks,
               lastAuthenticatedReceive, nextKeepalive, tunRead, log, sent, written)
    }

    constructor (remoteAddress: Address, sessionId: nat, cipher: Option<Cipher>, ghost spec: Option<CipherSpec>,
                 keepaliveInterval: real, livenessTimeout: real, now: real)
      requires Configured(sessionId, spec, keepaliveInterval, livenessTimeout)
      requires (cipher.Some? <==> spec.Some?) && (cipher.Some? ==> Implements(cipher.value, spec.value))
      ensures Valid() && State() == Fresh(remoteAddress, sessionId, spec, keepaliveInterval, livenessTimeout, now)
      ensures this.cipher == cipher && fresh(replayWindow)
    {
      this.remoteAddress, this.sessionId, this.cipher, this.spec := remoteAddress, sessionId, cipher, spec;
      this.keepaliveInterval, this.livenessTimeout := keepaliveInterval, livenessTimeout;
      sequenceNumber := 0;
      replayWindow := new ReplayWindow();
      lastAuthenticatedReceive := now;
      nextKeepalive := now + keepaliveInterval;
      tunRead, sent, written, log := [], [], [], [];
    }

    method SendPacket(kind: MessageType, payload: Bytes) returns (error: Option<Error>)
      requires Valid()
      modifies Repr()
      ensures Valid()
      ensures (State(), error) == Endpoints.SendPacket(old(State()), kind, payload)
    {
      if sequenceNumber > MAX_SEQUENCE_NUMBER { return Some(OverflowError); }
      var packet := Packet(kind, sessionId, sequenceNumber, payload);
      var wire := packet;
      if cipher.Some? {
        var sealed := EncryptWith(cipher.value, spec.value, packet);
        if sealed.Err? { return Some(sealed.error); }
        wire := sealed.value;
      }
      var data := Encode(wire);
      if data.Err? { return Some(data.error); }
      sent := sent + [Datagram(data.value, remoteAddress)];
      log := log + [packet];
      sequenceNumber := sequenceNumber + 1;
      return None;
    }

    method SendTunPacket(payload: Bytes) returns (error: Option<Error>)
      requires Valid()
      modifies Repr()
      ensures Valid()
      ensures (State(), error) == Endpoints.SendTunPacket(old(State()), payload)
    {
      tunRead := tunRead + [payload];
      error := SendPacket(DATA, payload);
    }

    method ReceiveUdpPacket(d: Datagram, receivedAt: real, taken: int) returns (forwarded: Result<bool>)
      requires Valid()
      modifies Repr()
      ensures Valid()
      ensures (State(), forwarded) == Endpoints.ReceiveUdpPacket(old(State()), d, receivedAt, taken)
    {
      hide Receive, CipherSpec.Decrypt, Refused, ReplayWindow.Valid;
      var received := Receive(d.data);
      if received.Err? { return Ok(false); }
      var packet := received.value;
      if d.peer != remoteAddress { return Ok(false); }
      if packet.sessionId != sessionId { return Ok(false); }
      if packet.kind != DATA && packet.kind != KEEPALIVE { return Ok(false); }
      if cipher.Some? {
        var replay := replayWindow.IsReplay(packet.sequence);
        if replay { return Ok(false); }
        var plain := DecryptWith(cipher.value, spec.value, packet);
        if plain.Err? {
          return if plain.error.InvalidTag? then Ok(false) else Err(plain.error);
        }
        var ok := replayWindow.MarkAuthenticated(packet.sequence);
        assert ok;
        packet := plain.value;
        lastAuthenticatedReceive := receivedAt;
      }
      if packet.kind == KEEPALIVE { return Ok(false); }
      written := written + [Delivery(packet.sequence, packet.payload)];
      return if taken != |packet.payload| then Err(OSError) else Ok(true);
    }

    method RunOnce(i: Input) returns (forwarded: Result<nat>)
      requires Valid()
      modifies Repr()
      ensures Valid()
      ensures (State(), forwarded) == Step(old(State()), i)
    {
      hide Endpoints.SendPacket, Endpoints.ReceiveUdpPacket, Implements, ReplayWindow.Valid;
      var count := 0;
      if i.tun.Some? {
        var error := SendTunPacket(i.tun.value);
        if error.Some? { return Err(error.value); }
        count := count + 1;
      }
      if i.udp.Some? {
        var received := ReceiveUdpPacket(i.udp.value, i.receivedAt, i.taken);
        if received.Err? { return Err(received.error); }
        if received.value { count := count + 1; }
      }
      if keepaliveInterval != 0.0 {
        if i.now >= nextKeepalive {
          var error := SendPacket(KEEPALIVE, []);
          if error.Some? { return Err(error.value); }
          nextKeepalive := i.now + keepaliveInterval;
        }
        if i.now - lastAuthenticatedReceive >= livenessTimeout { return Err(TimeoutError); }
      }
      return Ok(count);
    }

    /** `run`: passes until one raises. */
    method Run(inputs: seq<Input>) returns (error: Option<Error>)
      requires Valid()
      modifies Repr()
      ensures Valid()
      ensures (State(), error) == RunUntilRaised(old(State()), inputs)
    {
      hide Step, Implements, ReplayWindow.Valid;
      ghost var start := State();
      for k := 0 to |inputs|
        invariant Valid()
        invariant RunUntilRaised(State(), inputs[k..]) == RunUntilRaised(start, inputs)
      {
        assert inputs[k..][0] == inputs[k] && inputs[k..][1..] == inputs[k + 1..];
        var forwarded := RunOnce(inputs[k]);
        if forwarded.Err? { return Some(forwarded.error); }
      }
      return None;
    }

    /**
     How long the loop sleeps.  Without keepalives, as asked; with them, to the nearest of the request, the next
     keepalive and the deadline, and never a negative time unless one was asked for.
     */
    method GetSelectTimeout(requested: Option<real>, now: real) returns (timeout: Option<real>)
      requires Valid()
      ensures timeout == SelectTimeout(State(), requested, now)
      ensures keepaliveInterval == 0.0 ==> timeout == requested
      ensures keepaliveInterval != 0.0 ==>
        && timeout.Some?
        && timeout.value <= Max(0.0, nextKeepalive - now)
        && timeout.value <= Max(0.0, lastAuthenticatedReceive + livenessTimeout - now)
        && (requested.Some? ==> timeout.value <= requested.value)
        && (timeout.value < 0.0 ==> timeout == requested)
        && (timeout == requested || timeout.value == Max(0.0, nextKeepalive - now)
            || timeout.value == Max(0.0, lastAuthenticatedReceive + livenessTimeout - now))
    {
      if keepaliveInterval == 0.0 { return requested; }
      var internal := Min(Max(0.0, nextKeepalive - now), Max(0.0, livenessTimeout - (now - lastAuthenticatedReceive)));
      if requested.None? { return Some(internal); }
      return Some(Min(requested.value, internal));
    }
  }

  /** What the original's constructor does with any settings. */
  method NewTunnelEngine(remoteAddress: Address, sessionId: int, cipher: Option<Cipher>, ghost spec: Option<CipherSpec>,
                         keepaliveInterval: real, livenessTimeout: real, now: real) returns (r: Result<TunnelEngine>)
    requires (cipher.Some? <==> spec.Some?) && (cipher.Some? ==> Implements(cipher.value, spec.value))
    ensures r.Ok? <==>
      && 0 <= sessionId <= 0xFFFF_FFFF && keepaliveInterval >= 0.0 && livenessTimeout >= 0.0
      && (keepaliveInterval == 0.0 <==> livenessTimeout == 0.0)
      && (livenessTimeout == 0.0 || livenessTimeout > keepaliveInterval)
    ensures r.Err? ==> r.error == ValueError
    ensures r.Ok? ==>
      && fresh(r.value) && r.value.Valid()
      && r.value.State() == Fresh(remoteAddress, sessionId, spec, keepaliveInterval, livenessTimeout, now)
  {
    if !(0 <= sessionId <= MAX_SESSION_ID) { return Err(ValueError); }
    if keepaliveInterval < 0.0 || livenessTimeout < 0.0 { return Err(ValueError); }
    if (keepaliveInterval != 0.0) != (livenessTimeout != 0.0) { return Err(ValueError); }
    if livenessTimeout != 0.0 && livenessTimeout <= keepaliveInterval { return Err(ValueError); }
    var engine := new TunnelEngine(remoteAddress, sessionId, cipher, spec, keepaliveInterval, livenessTimeout, now);
    return Ok(engine);
  }
}
