/** The keys and nonces under which the multi-client server seals, over whole runs. */
module ServerKeys {
  import opened Octets
  import opened Protocol
  import opened Transport
  import opened Ciphers
  import opened Handshake
  import opened SessionTables
  import opened Servers

  // ----- one session

  /** What a logged packet of a session seals under, and nothing else. */
  lemma TransmissionSeals(cfg: Config, events: seq<HelloEvent>, d: Datagram, x: Origin)
    requires x.Transmission? && Accounted(cfg, events, d, x)
    ensures Opened(cfg, events, x.serial) && x.sequence <= MAX_SEQUENCE_NUMBER
    ensures var info := InfoOf(cfg, events, x.serial);
      && info.cipher.Usable() && IsSealed(d.data)
      && (forall key :: SealsUnder(d.data, key) <==> key == SendKey(info.cipher, x.sequence))
      && (forall key, nonce :: Seals(d.data, key, nonce) <==>
            key == SendKey(info.cipher, x.sequence) && nonce == Nonce(info.sessionId, x.sequence))
  {
    var info := InfoOf(cfg, events, x.serial);
    hide AcceptClientHello, Carries, InfoOf, Ipv4Destination;
    OneSealing(info.cipher, PacketOf(info, x), d.data);
    assert Seals(d.data, SendKey(info.cipher, x.sequence), Nonce(info.sessionId, x.sequence));
  }

  /** Responses to hellos are not sealed. */
  lemma ReplySealsNothing(cfg: Config, events: seq<HelloEvent>, d: Datagram, x: Origin, o: Octet)
    requires x.Reply? && Accounted(cfg, events, d, x)
    requires o in d.data && o.Part?
    ensures o in events[x.serial].response.payload && !o.source.Sealed?
  {
    var e := events[x.serial];
    var p := e.response;
    assert o in Header(p.kind, p.sessionId, p.sequence, |p.payload|) || o in p.payload;
    ResponseOctets(e.hello, cfg.privateKey, e.identity.publicKey, e.draw, o);
  }

  /** What an opened session's cipher is made of. */
  lemma OpenedCipher(cfg: Config, events: seq<HelloEvent>, serial: nat)
    requires Opened(cfg, events, serial)
    ensures var e, info := events[serial], InfoOf(cfg, events, serial);
      && info.cipher.Usable() && info.cipher.role == Role.SERVER && info.cipher.packetsPerKey == cfg.packetsPerKey
      && info.sessionId == info.cipher.sessionId == e.hello.sessionId && 0 <= info.sessionId <= MAX_SESSION_ID
      && info.cipher.secret == AcceptClientHello(e.hello, cfg.privateKey, e.identity.publicKey, e.draw).value.secret
  {
    hide AcceptClientHello;
  }

  /** Over every run, no key and nonce seal two packets of one session. */
  lemma SessionSealsOnce(cfg: Config, inputs: seq<ServerInput>, j: nat, k: nat, key: Bytes, nonce: Bytes)
    requires forall i :: i in inputs ==> i.draw.Proper()
    requires j < k < |AfterRun(cfg, inputs).tables.origins| && SameSession(AfterRun(cfg, inputs).tables.origins, j, k)
    ensures var sent := AfterRun(cfg, inputs).tables.sent;
      && |sent| == |AfterRun(cfg, inputs).tables.origins|
      && IsSealed(sent[j].data) && IsSealed(sent[k].data)
      && !(Seals(sent[j].data, key, nonce) && Seals(sent[k].data, key, nonce))
  {
    hide Inv, Run, Accounted, Seals, IsSealed;
    StartInv(cfg);
    RunKeeps(cfg, START, inputs);
    var s := AfterRun(cfg, inputs);
    LogInv(cfg, s);
    NumbersIncrease(cfg, s, j, k);
    SealedApart(cfg, s.events, s.tables.sent[j], s.tables.origins[j], s.tables.sent[k], s.tables.origins[k], key,
                nonce);
  }

  lemma LogInv(cfg: Config, s: Server)
    requires Inv(cfg, s)
    ensures |s.tables.sent| == |s.tables.origins|
    ensures forall k :: 0 <= k < |s.tables.sent| ==> Accounted(cfg, s.events, s.tables.sent[k], s.tables.origins[k])
  {
  }

  /** A later packet of one session has a later number. */
  lemma NumbersIncrease(cfg: Config, s: Server, j: nat, k: nat)
    requires Inv(cfg, s) && j < k < |s.tables.origins| && SameSession(s.tables.origins, j, k)
    ensures s.tables.origins[j].sequence < s.tables.origins[k].sequence
  {
    hide SealedFor, Accounted, SessionInv, DeliveryInv, CacheInv, EventInv;
    LaterSealing(s.tables.origins, j, k);
  }

  lemma SealedApart(cfg: Config, events: seq<HelloEvent>, d: Datagram, x: Origin, d': Datagram, x': Origin, key: Bytes,
                    nonce: Bytes)
    requires x.Transmission? && Accounted(cfg, events, d, x) && x'.Transmission? && Accounted(cfg, events, d', x')
    requires x.serial == x'.serial && x.sequence < x'.sequence
    ensures IsSealed(d.data) && IsSealed(d'.data) && !(Seals(d.data, key, nonce) && Seals(d'.data, key, nonce))
  {
    TransmissionSeals(cfg, events, d, x);
    TransmissionSeals(cfg, events, d', x');
    OpenedCipher(cfg, events, x.serial);
    var id := InfoOf(cfg, events, x.serial).sessionId;
    hide InfoOf, Seals, Nonce, SendKey, Carries, AcceptClientHello, IsSealed;
    if Nonce(id, x.sequence) == Nonce(id, x'.sequence) { NonceInjective(id, x.sequence, id, x'.sequence); }
  }

  /** The packets of session `serial` that were sealed under `key`, by their place in the log. */
  ghost function SealedUnder(t: Tables, serial: nat, key: Bytes): set<nat>
    requires |t.sent| == |t.origins|
  {
    set k: nat |
      && k < |t.sent| && SealsUnder(t.sent[k].data, key)
      && t.origins[k].Transmission? && t.origins[k].serial == serial
  }

  /** Over every run, with rotation on, no key seals more than `packetsPerKey` packets of a session. */
  lemma SessionKeyUseBounded(cfg: Config, inputs: seq<ServerInput>, serial: nat, key: Bytes)
    requires forall i :: i in inputs ==> i.draw.Proper()
    ensures var t := AfterRun(cfg, inputs).tables;
      && |t.sent| == |t.origins|
      && (cfg.packetsPerKey > 0 ==> |SealedUnder(t, serial, key)| <= cfg.packetsPerKey)
  {
    hide Inv, Run, SealedUnder;
    StartInv(cfg);
    RunKeeps(cfg, START, inputs);
    LogInv(cfg, AfterRun(cfg, inputs));
    if cfg.packetsPerKey > 0 { StateKeyUse(cfg, AfterRun(cfg, inputs), serial, key); }
  }

  lemma StateKeyUse(cfg: Config, s: Server, serial: nat, key: Bytes)
    requires Inv(cfg, s) && cfg.packetsPerKey > 0 && |s.tables.sent| == |s.tables.origins|
    ensures |SealedUnder(s.tables, serial, key)| <= cfg.packetsPerKey
  {
    hide Inv, Accounted, InfoOf, SealsUnder;
    LogInv(cfg, s);
    var t := s.tables;
    var places := SealedUnder(t, serial, key);
    if places != {} {
      forall k | k in places
        ensures Opened(cfg, s.events, serial) && t.origins[k].sequence <= MAX_SEQUENCE_NUMBER
        ensures InfoOf(cfg, s.events, serial).cipher.Usable()
        ensures key == SendKey(InfoOf(cfg, s.events, serial).cipher, t.origins[k].sequence)
      {
        TransmissionSeals(cfg, s.events, t.sent[k], t.origins[k]);
      }
      forall j, k | j in places && k in places && j < k ensures t.origins[j].sequence < t.origins[k].sequence {
        NumbersIncrease(cfg, s, j, k);
      }
      OpenedCipher(cfg, s.events, serial);
      var numbers := set k | k in places :: t.origins[k].sequence;
      SameCount(t.origins, places, numbers);
      KeyUseBounded(InfoOf(cfg, s.events, serial).cipher, numbers, key);
    }
  }

  /** Packets of one session are as many as their numbers. */
  lemma {:induction false} SameCount(log: seq<Origin>, places: set<nat>, numbers: set<nat>)
    requires forall k :: k in places ==> k < |log| && log[k].Transmission?
    requires forall j, k :: j in places && k in places && j < k ==> log[j].sequence < log[k].sequence
    requires numbers == set k | k in places :: log[k].sequence
    ensures |places| == |numbers|
    decreases places
  {
    if places != {} {
      var x :| x in places;
      var n := log[x].sequence;
      assert n in numbers;
      assert numbers - {n} == set k | k in places - {x} :: log[k].sequence;
      SameCount(log, places - {x}, numbers - {n});
      assert |places| == |places - {x}| + 1 && |numbers| == |numbers - {n}| + 1;
    }
  }

  // ----- all sessions, with fresh randomness

  /** No pass of the run gets random octets that another got. */
  ghost predicate FreshDraws(inputs: seq<ServerInput>) {
    forall i, j :: 0 <= i < j < |inputs| ==> inputs[i].draw.token != inputs[j].draw.token
  }

  /** No two hellos were answered with the same randomness, and `inputs` brings none of it again. */
  ghost predicate DrawsApart(events: seq<HelloEvent>, inputs: seq<ServerInput>) {
    && (forall i, j :: 0 <= i < j < |events| ==> events[i].draw.token != events[j].draw.token)
    && (forall i, j :: 0 <= i < |events| && 0 <= j < |inputs| ==> events[i].draw.token != inputs[j].draw.token)
  }

  /** A pass answers at most one hello, with its own randomness. */
  lemma PassAnswersOnce(cfg: Config, s: Server, i: ServerInput)
    requires i.draw.Proper() && ProperTables(s.tables) && Bijective(s.tables)
    ensures var events := Step(cfg, s, i).0.events;
      events == s.events || exists e: HelloEvent :: e.draw == i.draw && events == s.events + [e]
  {
    hide HandleTun, HandleUdp, Accept, AnsweredTables, Receive, Encode, ProperTables, Bijective;
  }

  lemma {:induction false} RunDrawsApart(cfg: Config, s: Server, inputs: seq<ServerInput>)
    requires Inv(cfg, s) && forall i :: i in inputs ==> i.draw.Proper()
    requires FreshDraws(inputs) && DrawsApart(s.events, inputs)
    ensures DrawsApart(Run(cfg, s, inputs).0.events, [])
    decreases |inputs|
  {
    if inputs != [] {
      assert inputs[0] in inputs;
      var a := Step(cfg, s, inputs[0]).0;
      PassAnswersOnce(cfg, s, inputs[0]);
      StepKeeps(cfg, s, inputs[0]);
      hide Step, Inv;
      assert DrawsApart(a.events, inputs[1..]);
      if Step(cfg, s, inputs[0]).1.Ok? { RunDrawsApart(cfg, a, inputs[1..]); }
    }
  }

  /** Two sessions opened with different randomness share no key. */
  lemma SessionsShareNoKey(cfg: Config, events: seq<HelloEvent>, a: nat, b: nat, n: nat, m: nat)
    requires Opened(cfg, events, a) && Opened(cfg, events, b) && events[a].draw.token != events[b].draw.token
    requires n <= MAX_SEQUENCE_NUMBER && m <= MAX_SEQUENCE_NUMBER
    ensures InfoOf(cfg, events, a).cipher.Usable() && InfoOf(cfg, events, b).cipher.Usable()
    ensures SendKey(InfoOf(cfg, events, a).cipher, n) != SendKey(InfoOf(cfg, events, b).cipher, m)
  {
    OpenedCipher(cfg, events, a);
    OpenedCipher(cfg, events, b);
    var e, e' := events[a], events[b];
    hide InfoOf, AcceptClientHello, SendKey;
    if SendKey(InfoOf(cfg, events, a).cipher, n) == SendKey(InfoOf(cfg, events, b).cipher, m) {
      KeyDeterminesSpec(InfoOf(cfg, events, a).cipher, InfoOf(cfg, events, b).cipher, n, m);
      SecretDeterminesCall(e.hello, e'.hello, cfg.privateKey, e.identity.publicKey, e'.identity.publicKey, e.draw,
                           e'.draw);
    }
  }

  /**
   With fresh randomness for every answer, the server never uses a key and nonce twice, in whatever sessions, over any
   run: clients that reconnect, evicted hellos answered anew and clients with the same session id included.
   */
  lemma ServerNeverReusesNonce(cfg: Config, inputs: seq<ServerInput>, j: nat, k: nat, key: Bytes, nonce: Bytes)
    requires FreshDraws(inputs) && forall i :: i in inputs ==> i.draw.Proper()
    requires j < k < |AfterRun(cfg, inputs).tables.sent|
    ensures var sent := AfterRun(cfg, inputs).tables.sent;
      !(Seals(sent[j].data, key, nonce) && Seals(sent[k].data, key, nonce))
  {
    hide Inv, Run, FreshDraws, Accounted, Seals;
    StartInv(cfg);
    RunKeeps(cfg, START, inputs);
    RunDrawsApart(cfg, START, inputs);
    var s := AfterRun(cfg, inputs);
    LogInv(cfg, s);
    var x, y := s.tables.origins[j], s.tables.origins[k];
    var d, e := s.tables.sent[j], s.tables.sent[k];
    if SameSession(s.tables.origins, j, k) { NumbersIncrease(cfg, s, j, k); }
    AnyTwoApart(cfg, s.events, d, x, e, y, key, nonce);
  }

  lemma AnyTwoApart(cfg: Config, events: seq<HelloEvent>, d: Datagram, x: Origin, e: Datagram, y: Origin, key: Bytes,
                    nonce: Bytes)
    requires DrawsApart(events, []) && Accounted(cfg, events, d, x) && Accounted(cfg, events, e, y)
    requires x.Transmission? && y.Transmission? && x.serial == y.serial ==> x.sequence < y.sequence
    ensures !(Seals(d.data, key, nonce) && Seals(e.data, key, nonce))
  {
    hide Seals, Carries, InfoOf, AcceptClientHello, SendKey;
    if x.Reply? {
      ReplyNotSealed(cfg, events, d, x, key, nonce);
    } else if y.Reply? {
      ReplyNotSealed(cfg, events, e, y, key, nonce);
    } else if x.serial == y.serial {
      SealedApart(cfg, events, d, x, e, y, key, nonce);
    } else {
      TransmissionSeals(cfg, events, d, x);
      TransmissionSeals(cfg, events, e, y);
      SessionsShareNoKey(cfg, events, x.serial, y.serial, x.sequence, y.sequence);
    }
  }

  lemma ReplyNotSealed(cfg: Config, events: seq<HelloEvent>, d: Datagram, x: Origin, key: Bytes, nonce: Bytes)
    requires x.Reply? && Accounted(cfg, events, d, x)
    ensures !Seals(d.data, key, nonce)
  {
    forall o | o in d.data && o.Part? ensures !o.source.Sealed? {
      ReplySealsNothing(cfg, events, d, x, o);
    }
  }
}
