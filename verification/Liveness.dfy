/** Keepalive pacing and the liveness deadline of src/matf_vpn/engine.py, over real time. */
module Liveness {
  import opened Outcome
  import opened Protocol
  import opened Transport
  import opened Ciphers
  import opened Endpoints

  /** `n` intervals. */
  function Intervals(n: nat, x: real): real {
    if n == 0 then 0.0 else Intervals(n - 1, x) + x
  }

  lemma {:induction false} IntervalsProduct(n: nat, x: real)
    ensures Intervals(n, x) == n as real * x
  {
    if n > 0 {
      IntervalsProduct(n - 1, x);
      assert n as real * x == (n - 1) as real * x + x;
    }
  }

  // ----- pacing under any traffic

  /** The next keepalive is due no earlier than one interval for every keepalive sent, and one more. */
  ghost predicate Paced(e: Endpoint, start: real, now: real) {
    && Counted(e)
    && Intervals(KeepaliveCount(e.log) + 1, e.interval) <= e.nextKeepalive - start
    && Intervals(KeepaliveCount(e.log), e.interval) <= now - start
  }

  lemma ReceiveSendsNothing(e: Endpoint, i: Input)
    requires Counted(e)
    ensures var a := UdpStage(e, i).0;
      && Counted(a) && a.log == e.log && a.nextKeepalive == e.nextKeepalive && a.interval == e.interval
  {
    hide Receive, CipherSpec.Decrypt, Outgoing;
    var a := UdpStage(e, i).0;
    assert a == e.(marks := a.marks, lastReceive := a.lastReceive, written := a.written);
  }

  lemma TunStagePaced(e: Endpoint, i: Input, start: real, now: real)
    requires Paced(e, start, now)
    ensures Paced(TunStage(e, i).0, start, now) && TunStage(e, i).0.interval == e.interval
  {
    hide SendPacket, Intervals;
    if i.tun.Some? { SendKeeps(e.(tunRead := e.tunRead + [i.tun.value]), DATA, i.tun.value); }
  }

  lemma MaintainPaced(e: Endpoint, start: real, at: real, now: real)
    requires Paced(e, start, now) && at <= now
    ensures Paced(Maintain(e, at).0, start, now) && Maintain(e, at).0.interval == e.interval
  {
    hide SendPacket, Outgoing;
    SendKeeps(e, KEEPALIVE, []);
    TimerIsNotCounted(SendPacket(e, KEEPALIVE, []).0, at + e.interval);
    hide Counted;
    var k := KeepaliveCount(e.log);
    assert Intervals(k + 2, e.interval) == Intervals(k + 1, e.interval) + e.interval;
  }

  lemma PassStaysPaced(e: Endpoint, i: Input, start: real, now: real)
    requires Paced(e, start, now) && i.now <= now
    ensures Paced(Step(e, i).0, start, now) && Step(e, i).0.interval == e.interval
  {
    TunStagePaced(e, i, start, now);
    var m := TunStage(e, i).0;
    ReceiveSendsNothing(m, i);
    var b := UdpStage(m, i).0;
    MaintainPaced(b, start, i.now, now);
    hide TunStage, UdpStage, Maintain, Intervals, KeepaliveCount;
  }

  lemma {:induction false} RunStaysPaced(e: Endpoint, inputs: seq<Input>, start: real, now: real)
    requires Paced(e, start, now)
    requires forall i :: i in inputs ==> i.now <= now
    ensures Paced(RunUntilRaised(e, inputs).0, start, now)
    ensures RunUntilRaised(e, inputs).0.interval == e.interval
    decreases |inputs|
  {
    if inputs != [] {
      hide Step;
      PassStaysPaced(e, inputs[0], start, now);
      if Step(e, inputs[0]).1.Ok? {
        RunStaysPaced(Step(e, inputs[0]).0, inputs[1..], start, now);
      }
    }
  }

  /** Under any traffic, the keepalives sent by time `now` number at most floor((now - start) / interval). */
  lemma KeepaliveRate(remote: Address, sessionId: nat, cipher: Option<CipherSpec>, interval: real, liveness: real,
                      start: real, inputs: seq<Input>, now: real)
    requires Configured(sessionId, cipher, interval, liveness) && interval > 0.0
    requires start <= now && forall i :: i in inputs ==> i.now <= now
    ensures var e := RunUntilRaised(Fresh(remote, sessionId, cipher, interval, liveness, start), inputs).0;
      KeepaliveCount(e.log) <= ((now - start) / interval).Floor
  {
    var e0 := Fresh(remote, sessionId, cipher, interval, liveness, start);
    assert Intervals(1, interval) == Intervals(0, interval) + interval;
    assert Paced(e0, start, now);
    hide RunUntilRaised, Counted, Intervals, Configured, KeepaliveCount;
    RunStaysPaced(e0, inputs, start, now);
    PacedCount(RunUntilRaised(e0, inputs).0, start, now);
  }

  lemma PacedCount(e: Endpoint, start: real, now: real)
    requires Paced(e, start, now) && e.interval > 0.0
    ensures KeepaliveCount(e.log) <= ((now - start) / e.interval).Floor
  {
    var k := KeepaliveCount(e.log);
    IntervalsProduct(k, e.interval);
    hide Counted, KeepaliveCount, Intervals;
    QuotientAtLeast(k, now - start, e.interval);
  }

  lemma QuotientAtLeast(k: nat, x: real, d: real)
    requires d > 0.0 && k as real * d <= x
    ensures k <= (x / d).Floor
  {
    var q := x / d;
    assert q * d == x;
    if q < k as real { Smaller(q, k as real, d); }
  }

  lemma Smaller(a: real, b: real, d: real)
    requires d > 0.0 && a < b
    ensures a * d < b * d
  {
  }

  // ----- a silent peer

  /** One pass with no traffic that wakes exactly when `select` times out. */
  ghost function IdlePass(e: Endpoint, now: real): (Endpoint, real, Option<Error>)
    requires Proper(e) && e.interval > 0.0
  {
    var wake := now + SelectTimeout(e, None, now).value;
    var (a, r) := Step(e, Input(None, None, wake, wake, 0));
    (a, wake, if r.Err? then Some(r.error) else None)
  }

  ghost function IdleRun(e: Endpoint, now: real, passes: nat): (Endpoint, real, Option<Error>)
    requires Proper(e) && e.interval > 0.0
  {
    if passes == 0 then (e, now, None)
    else
      var (a, t, error) := IdleRun(e, now, passes - 1);
      if error.Some? || !(Proper(a) && a.interval > 0.0) then (a, t, error) else IdlePass(a, t)
  }

  /** After `k` idle passes: `k` keepalives, one per interval, and nothing heard since `start`. */
  ghost predicate Idle(e: Endpoint, start: real, interval: real, liveness: real, k: nat, now: real) {
    && Counted(e)
    && e.interval == interval && e.liveness == liveness
    && now == start + Intervals(k, interval) && e.nextKeepalive == now + interval && e.lastReceive == start
    && |e.log| == k && forall i :: 0 <= i < k ==> e.log[i].kind == KEEPALIVE
  }

  /** A pass without traffic only maintains. */
  lemma IdlePassMaintains(e: Endpoint, now: real)
    requires Proper(e) && e.interval > 0.0
    ensures var wake := now + SelectTimeout(e, None, now).value;
      IdlePass(e, now) == (Maintain(e, wake).0, wake, Maintain(e, wake).1)
  {
    hide Maintain, SelectTimeout, Proper;
  }

  /** When the next idle pass wakes: at the next keepalive, or at the deadline if that comes first. */
  lemma IdleWake(e: Endpoint, start: real, interval: real, liveness: real, k: nat, now: real)
    requires interval > 0.0 && Idle(e, start, interval, liveness, k, now) && Intervals(k, interval) < liveness
    ensures Intervals(k + 1, interval) == Intervals(k, interval) + interval
    ensures now + SelectTimeout(e, None, now).value
      == start + (if Intervals(k + 1, interval) <= liveness then Intervals(k + 1, interval) else liveness)
  {
    hide Counted;
  }

  /** Maintaining at that moment. */
  lemma IdleMaintain(e: Endpoint, start: real, interval: real, liveness: real, k: nat, now: real, next: real)
    requires interval > 0.0 && Idle(e, start, interval, liveness, k, now) && next == Intervals(k + 1, interval)
    requires next == Intervals(k, interval) + interval && Intervals(k, interval) < liveness
    ensures var wake := start + (if next <= liveness then next else liveness);
      var (a, error) := Maintain(e, wake);
      if next > liveness then error == Some(TimeoutError) && a.log == e.log
      else if k > MAX_SEQUENCE_NUMBER then error == Some(OverflowError) && a.log == e.log
      else
        && Idle(a, start, interval, liveness, k + 1, wake)
        && error == if next == liveness then Some(TimeoutError) else None
  {
    hide SendPacket, Outgoing, Intervals;
    SendKeeps(e, KEEPALIVE, []);
    SmallSendSucceeds(e, KEEPALIVE, []);
    TimerIsNotCounted(SendPacket(e, KEEPALIVE, []).0, start + next + interval);
    hide Counted;
  }

  lemma IdlePassEffect(e: Endpoint, start: real, interval: real, liveness: real, k: nat, now: real)
    requires interval > 0.0 && Idle(e, start, interval, liveness, k, now) && Intervals(k, interval) < liveness
    ensures var (a, wake, error) := IdlePass(e, now);
      if Intervals(k + 1, interval) > liveness then
        error == Some(TimeoutError) && a.log == e.log
      else if k > MAX_SEQUENCE_NUMBER then
        error == Some(OverflowError) && a.log == e.log
      else
        && Idle(a, start, interval, liveness, k + 1, wake)
        && error == if Intervals(k + 1, interval) == liveness then Some(TimeoutError) else None
  {
    hide IdlePass, Maintain;
    IdleWake(e, start, interval, liveness, k, now);
    IdleMaintain(e, start, interval, liveness, k, now, Intervals(k + 1, interval));
    IdlePassMaintains(e, now);
    hide Idle, Intervals, SelectTimeout;
  }

  lemma IdleProper(e: Endpoint, start: real, interval: real, liveness: real, k: nat, now: real)
    requires Idle(e, start, interval, liveness, k, now)
    ensures Proper(e) && e.interval == interval
  {
  }

  lemma {:induction false} IdleUntil(e: Endpoint, start: real, k: nat)
    requires Idle(e, start, e.interval, e.liveness, 0, start) && e.interval > 0.0
    requires k == 0 || Intervals(k, e.interval) < e.liveness
    requires k <= MAX_SEQUENCE_NUMBER + 1
    ensures var (a, now, error) := IdleRun(e, start, k);
      error == None && Idle(a, start, e.interval, e.liveness, k, now)
  {
    hide Idle, IdlePass, SelectTimeout;
    IdleProper(e, start, e.interval, e.liveness, 0, start);
    if k > 0 {
      assert Intervals(k - 1, e.interval) < e.liveness;
      IdleUntil(e, start, k - 1);
      var (a, now, error) := IdleRun(e, start, k - 1);
      IdleProper(a, start, e.interval, e.liveness, k - 1, now);
      IdlePassEffect(a, start, e.interval, e.liveness, k - 1, now);
    }
  }

  lemma LastIdlePass(e: Endpoint, start: real, passes: nat)
    requires Idle(e, start, e.interval, e.liveness, 0, start) && e.interval > 0.0
    requires 0 < passes && Intervals(passes - 1, e.interval) < e.liveness <= Intervals(passes, e.interval)
    requires passes <= MAX_SEQUENCE_NUMBER + 2
    ensures forall k :: 0 <= k < passes ==> IdleRun(e, start, k).2 == None
    ensures var (a, now, error) := IdleRun(e, start, passes);
      if passes == MAX_SEQUENCE_NUMBER + 2 && Intervals(passes, e.interval) == e.liveness then
        error == Some(OverflowError) && |a.log| == passes - 1
      else
        && error == Some(TimeoutError)
        && |a.log| == (if Intervals(passes, e.interval) == e.liveness then passes else passes - 1)
        && forall i :: 0 <= i < |a.log| ==> a.log[i].kind == KEEPALIVE
  {
    hide IdlePass;
    forall k | 0 <= k < passes ensures IdleRun(e, start, k).2 == None {
      IntervalsMonotone(k, passes - 1, e.interval);
      IdleUntil(e, start, k);
    }
    IdleUntil(e, start, passes - 1);
    var (a, now, error) := IdleRun(e, start, passes - 1);
    IdlePassEffect(a, start, e.interval, e.liveness, passes - 1, now);
    hide Intervals, Counted;
  }

  lemma CounterRunsOut(e: Endpoint, start: real)
    requires Idle(e, start, e.interval, e.liveness, 0, start) && e.interval > 0.0
    requires Intervals(MAX_SEQUENCE_NUMBER + 2, e.interval) <= e.liveness
    ensures IdleRun(e, start, MAX_SEQUENCE_NUMBER + 1).2 == None
    ensures IdleRun(e, start, MAX_SEQUENCE_NUMBER + 2).2 == Some(OverflowError)
    ensures |IdleRun(e, start, MAX_SEQUENCE_NUMBER + 2).0.log| == MAX_SEQUENCE_NUMBER + 1
  {
    hide IdlePass;
    var k := MAX_SEQUENCE_NUMBER + 1;
    assert Intervals(k + 1, e.interval) == Intervals(k, e.interval) + e.interval;
    IdleUntil(e, start, k);
    var (a, now, error) := IdleRun(e, start, k);
    IdlePassEffect(a, start, e.interval, e.liveness, k, now);
    hide Intervals, Counted;
  }

  /**
   With no traffic and exact wake-ups, a fresh endpoint raises the liveness timeout on pass ceil(L/I) and on none
   before, having sent floor(L/I) keepalives.  The one exception is a deadline of 2^64 + 1 intervals or more, where
   the sequence numbers run out first.
   */
  lemma SilenceTimesOut(remote: Address, sessionId: nat, cipher: Option<CipherSpec>, interval: real, liveness: real,
                        start: real)
    requires Configured(sessionId, cipher, interval, liveness) && interval > 0.0
    ensures var e := Fresh(remote, sessionId, cipher, interval, liveness, start);
      var keepalives, passes := (liveness / interval).Floor, -((-liveness / interval).Floor);
      if keepalives <= MAX_SEQUENCE_NUMBER + 1 then
        && passes > 0
        && (forall k :: 0 <= k < passes ==> IdleRun(e, start, k).2 == None)
        && IdleRun(e, start, passes).2 == Some(TimeoutError)
        && |IdleRun(e, start, passes).0.log| == keepalives
        && (forall i :: 0 <= i < keepalives ==> IdleRun(e, start, passes).0.log[i].kind == KEEPALIVE)
      else
        && IdleRun(e, start, MAX_SEQUENCE_NUMBER + 1).2 == None
        && IdleRun(e, start, MAX_SEQUENCE_NUMBER + 2).2 == Some(OverflowError)
        && |IdleRun(e, start, MAX_SEQUENCE_NUMBER + 2).0.log| == MAX_SEQUENCE_NUMBER + 1
  {
    var e := Fresh(remote, sessionId, cipher, interval, liveness, start);
    var keepalives, passes := (liveness / interval).Floor, -((-liveness / interval).Floor);
    FloorAndCeiling(liveness, interval);
    assert Idle(e, start, interval, liveness, 0, start);
    hide IdleRun, Idle, Intervals;
    if keepalives <= MAX_SEQUENCE_NUMBER + 1 {
      LastIdlePass(e, start, passes);
    } else {
      IntervalsMonotone(MAX_SEQUENCE_NUMBER + 2, keepalives, interval);
      CounterRunsOut(e, start);
    }
  }

  lemma {:induction false} IntervalsMonotone(a: nat, b: nat, x: real)
    requires a <= b && x > 0.0
    ensures Intervals(a, x) <= Intervals(b, x)
    decreases b
  {
    if a < b { IntervalsMonotone(a, b - 1, x); }
  }

  lemma IntervalsCompare(n: nat, q: real, d: real)
    requires d > 0.0
    ensures n as real < q <==> Intervals(n, d) < q * d
    ensures n as real == q <==> Intervals(n, d) == q * d
  {
    IntervalsProduct(n, d);
    if n as real < q { Smaller(n as real, q, d); }
    if q < n as real { Smaller(q, n as real, d); }
  }

  /** floor(L/I) is the last whole number of intervals within the deadline, ceil(L/I) the first to reach it. */
  lemma FloorAndCeiling(liveness: real, interval: real)
    requires liveness > interval > 0.0
    ensures var m, c := (liveness / interval).Floor, -((-liveness / interval).Floor);
      && 0 < m && 0 < c
      && Intervals(m, interval) <= liveness < Intervals(m + 1, interval)
      && Intervals(c - 1, interval) < liveness <= Intervals(c, interval)
      && (m == c || m == c - 1)
      && (m == c <==> Intervals(c, interval) == liveness)
  {
    var q := liveness / interval;
    var m, c := q.Floor, -((-liveness / interval).Floor);
    assert q * interval == liveness;
    assert (-q) * interval == -liveness;
    Quotient(-q, -liveness, interval);
    IntervalsCompare(1, q, interval);
    assert Intervals(1, interval) == Intervals(0, interval) + interval;
    IntervalsCompare(m, q, interval);
    IntervalsCompare(m + 1, q, interval);
    IntervalsCompare(c, q, interval);
    IntervalsCompare(c - 1, q, interval);
  }

  lemma Quotient(q: real, x: real, d: real)
    requires d > 0.0 && q * d == x
    ensures x / d == q
  {
    var r := x / d;
    assert r * d == x;
    if r < q { Smaller(r, q, d); }
    if q < r { Smaller(q, r, d); }
  }
}
