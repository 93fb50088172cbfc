/** The balanced randomised schedule, `create_balanced_schedule` of src/matf_vpn/experiment.py. */
module Schedule {
  import opened Outcome
  import opened Sequences

  datatype ScheduledBlock = ScheduledBlock(sequence: int, roundNumber: int, mode: string, repetitions: int)

  /** The characters `str.strip` removes. */
  predicate IsSpace(c: char) {
    var n := c as int;
    || 0x09 <= n <= 0x0D || 0x1C <= n <= 0x20 || n == 0x85 || n == 0xA0 || n == 0x1680
    || 0x2000 <= n <= 0x200A || n == 0x2028 || n == 0x2029 || n == 0x202F || n == 0x205F || n == 0x3000
  }

  predicate Blank(mode: string) { forall i :: 0 <= i < |mode| ==> IsSpace(mode[i]) }

  /** What the checks at the top let through. */
  predicate Acceptable(modes: seq<string>, rounds: int, repetitions: int) {
    && |modes| >= 2
    && (forall i, j :: 0 <= i < j < |modes| ==> modes[i] != modes[j])
    && (forall i :: 0 <= i < |modes| ==> !Blank(modes[i]))
    && rounds > 0 && repetitions > 0
  }

  // ----- the schedule the loops build

  /** A shuffled order, with its first two modes exchanged when it would repeat the last mode of the round before. */
  function Repaired(shuffled: seq<string>, previousLast: Option<string>): seq<string>
    requires |shuffled| >= 2
  {
    if previousLast == Some(shuffled[0]) then [shuffled[1], shuffled[0]] + shuffled[2..] else shuffled
  }

  ghost predicate Shuffles(modes: seq<string>, shuffles: seq<seq<string>>) {
    forall k :: 0 <= k < |shuffles| ==> |shuffles[k]| == |modes| && multiset(shuffles[k]) == multiset(modes)
  }

  /** The order run in round `r`, counted from 0. */
  function Order(shuffles: seq<seq<string>>, r: nat): (o: seq<string>)
    requires r < |shuffles| && forall k :: 0 <= k <= r ==> |shuffles[k]| >= 2
    ensures |o| == |shuffles[r]|
  {
    if r == 0 then Repaired(shuffles[0], None)
    else
      var before := Order(shuffles, r - 1);
      Repaired(shuffles[r], Some(before[|before| - 1]))
  }

  function RoundBlocks(order: seq<string>, start: int, roundNumber: int, repetitions: int): (b: seq<ScheduledBlock>)
    ensures |b| == |order|
    ensures forall m :: 0 <= m < |order| ==> b[m] == ScheduledBlock(start + m, roundNumber, order[m], repetitions)
  {
    seq(|order|, m requires 0 <= m < |order| => ScheduledBlock(start + m, roundNumber, order[m], repetitions))
  }

  function Plan(shuffles: seq<seq<string>>, rounds: nat, repetitions: int): seq<ScheduledBlock>
    requires rounds <= |shuffles| && forall k :: 0 <= k < rounds ==> |shuffles[k]| >= 2
  {
    if rounds == 0 then []
    else
      var before := Plan(shuffles, rounds - 1, repetitions);
      before + RoundBlocks(Order(shuffles, rounds - 1), |before| + 1, rounds, repetitions)
  }

  lemma PlanStep(shuffles: seq<seq<string>>, rounds: nat, repetitions: int)
    requires rounds <= |shuffles| && forall k :: 0 <= k < rounds ==> |shuffles[k]| >= 2
    ensures rounds == 0 ==> Plan(shuffles, rounds, repetitions) == []
    ensures rounds > 0 ==>
      var before := Plan(shuffles, rounds - 1, repetitions);
      Plan(shuffles, rounds, repetitions)
        == before + RoundBlocks(Order(shuffles, rounds - 1), |before| + 1, rounds, repetitions)
  {
  }

  lemma OrderStep(shuffles: seq<seq<string>>, r: nat)
    requires r < |shuffles| && forall k :: 0 <= k <= r ==> |shuffles[k]| >= 2
    ensures Order(shuffles, r)
      == Repaired(shuffles[r], if r == 0 then None else Some(Order(shuffles, r - 1)[|Order(shuffles, r - 1)| - 1]))
  {
  }

  /** The swap search; the original raises when it runs off the end. */
  method FindOther(order: array<string>, mode: string) returns (found: Option<nat>)
    ensures found.Some? ==>
      && 1 <= found.value < order.Length && order[found.value] != mode
      && forall k :: 1 <= k < found.value ==> order[k] == mode
    ensures found.None? ==> forall k :: 1 <= k < order.Length ==> order[k] == mode
  {
    var index := 1;
    while index < order.Length
      invariant index >= 1
      invariant forall k :: 1 <= k < index && k < order.Length ==> order[k] == mode
    {
      if order[index] != mode { return Some(index); }
      index := index + 1;
    }
    return None;
  }

  /** One shuffled list, repaired in place; with distinct modes the search always finds an index. */
  method Repair(order: array<string>, previousLast: Option<string>)
    requires order.Length >= 2 && Distinct(order[..])
    modifies order
    ensures order[..] == Repaired(old(order[..]), previousLast)
  {
    assert order[..][0] == order[0] && order[..][1] == order[1];
    if previousLast.Some? && order[0] == previousLast.value {
      var swapIndex := FindOther(order, previousLast.value);
      assert swapIndex.Some?;
      order[0], order[swapIndex.value] := order[swapIndex.value], order[0];
    }
  }

  /** The order of one round: the modes as shuffled, repaired. */
  method RoundOrder(shuffled: seq<string>, previousLast: Option<string>) returns (result: seq<string>)
    requires |shuffled| >= 2 && Distinct(shuffled)
    ensures result == Repaired(shuffled, previousLast)
  {
    var order := new string[|shuffled|](k requires 0 <= k < |shuffled| => shuffled[k]);
    assert order[..] == shuffled;
    Repair(order, previousLast);
    result := order[..];
  }

  /** The inner loop: appends one round's blocks, numbering them on. */
  method AppendRound(schedule: seq<ScheduledBlock>, order: seq<string>, roundNumber: int, repetitions: int)
    returns (extended: seq<ScheduledBlock>, sequence: int)
    ensures extended == schedule + RoundBlocks(order, |schedule| + 1, roundNumber, repetitions)
    ensures sequence == |extended| + 1
  {
    extended, sequence := schedule, |schedule| + 1;
    ghost var blocks := RoundBlocks(order, sequence, roundNumber, repetitions);
    for m := 0 to |order|
      invariant extended == schedule + blocks[..m] && sequence == |extended| + 1
    {
      extended := extended + [ScheduledBlock(sequence, roundNumber, order[m], repetitions)];
      sequence := sequence + 1;
    }
  }

  /** The checks at the top; every failure is a `ValueError`. */
  method CheckParameters(modes: seq<string>, rounds: int, repetitions: int) returns (error: Option<Error>)
    ensures error == if Acceptable(modes, rounds, repetitions) then None else Some(ValueError)
  {
    if |modes| < 2 { return Some(ValueError); }
    DistinctBySize(modes);
    if |Elements(modes)| != |modes| { return Some(ValueError); }
    if exists i :: 0 <= i < |modes| && Blank(modes[i]) { return Some(ValueError); }
    if rounds <= 0 || repetitions <= 0 { return Some(ValueError); }
    return None;
  }

  method CreateBalancedSchedule(modes: seq<string>, rounds: int, repetitions: int, shuffles: seq<seq<string>>)
    returns (r: Result<seq<ScheduledBlock>>)
    requires rounds > 0 ==> |shuffles| == rounds
    requires Shuffles(modes, shuffles)
    ensures r.Err? <==>
      || |modes| < 2 || (exists i, j :: 0 <= i < j < |modes| && modes[i] == modes[j])
      || (exists i :: 0 <= i < |modes| && Blank(modes[i]))
      || rounds <= 0 || repetitions <= 0
    ensures r.Err? ==> r.error == ValueError
    ensures r.Ok? ==> r == Ok(Plan(shuffles, rounds, repetitions))
  {
    var error := CheckParameters(modes, rounds, repetitions);
    if error.Some? { return Err(error.value); }
    var schedule := BuildSchedule(modes, rounds, repetitions, shuffles);
    return Ok(schedule);
  }

  /** The outer loop. */
  method BuildSchedule(modes: seq<string>, rounds: nat, repetitions: int, shuffles: seq<seq<string>>)
    returns (schedule: seq<ScheduledBlock>)
    requires |modes| >= 2 && Distinct(modes) && Shuffles(modes, shuffles) && |shuffles| == rounds
    ensures schedule == Plan(shuffles, rounds, repetitions)
  {
    hide Plan, Order, Repaired, RoundBlocks;
    PlanStep(shuffles, 0, repetitions);
    schedule := [];
    var sequence := 1;
    var previousLast: Option<string> := None;
    for round := 0 to rounds
      invariant schedule == Plan(shuffles, round, repetitions)
      invariant sequence == |schedule| + 1
      invariant previousLast == if round == 0 then None else Some(Order(shuffles, round - 1)[|modes| - 1])
    {
      StillDistinct(shuffles[round], modes);
      var order := RoundOrder(shuffles[round], previousLast);
      OrderStep(shuffles, round);
      PlanStep(shuffles, round + 1, repetitions);
      schedule, sequence := AppendRound(schedule, order, round + 1, repetitions);
      previousLast := Some(order[|order| - 1]);
    }
  }

  // ----- what every schedule satisfies

  lemma {:induction false} CountInDistinct(s: seq<string>, x: string)
    requires Distinct(s)
    ensures multiset(s)[x] == if x in s then 1 else 0
  {
    if s != [] {
      assert s == [s[0]] + s[1..];
      CountInDistinct(s[1..], x);
      assert s[0] !in s[1..];
    }
  }

  /** An element at two places counts twice. */
  lemma CountTwice(s: seq<string>, i: nat, j: nat)
    requires i < j < |s| && s[i] == s[j]
    ensures multiset(s)[s[i]] >= 2
  {
    assert s == s[..i] + [s[i]] + s[i + 1..j] + [s[j]] + s[j + 1..];
  }

  /** A shuffle of distinct modes has distinct modes. */
  lemma StillDistinct(shuffled: seq<string>, modes: seq<string>)
    requires Distinct(modes) && multiset(shuffled) == multiset(modes)
    ensures Distinct(shuffled)
  {
    forall i, j | 0 <= i < j < |shuffled| ensures shuffled[i] != shuffled[j] {
      CountInDistinct(modes, shuffled[i]);
      if shuffled[i] == shuffled[j] { CountTwice(shuffled, i, j); }
    }
  }

  /** Every round runs every mode once, and never starts with the mode before. */
  lemma RoundIsPermutation(modes: seq<string>, shuffles: seq<seq<string>>, r: nat)
    requires |modes| >= 2 && Distinct(modes) && Shuffles(modes, shuffles) && r < |shuffles|
    ensures multiset(Order(shuffles, r)) == multiset(modes)
    ensures Distinct(Order(shuffles, r))
    ensures r > 0 ==> Order(shuffles, r)[0] != Order(shuffles, r - 1)[|modes| - 1]
  {
    var s := shuffles[r];
    StillDistinct(s, modes);
    assert s == [s[0], s[1]] + s[2..];
    StillDistinct(Order(shuffles, r), modes);
  }

  /**
   A round runs as it was shuffled, unless it begins with the mode before it: then its first two modes change places.
   */
  lemma OrderIsShuffle(modes: seq<string>, shuffles: seq<seq<string>>, r: nat)
    requires |modes| >= 2 && Distinct(modes) && Shuffles(modes, shuffles) && r < |shuffles|
    ensures var order, shuffled := Order(shuffles, r), shuffles[r];
      if r > 0 && shuffled[0] == Order(shuffles, r - 1)[|modes| - 1] then
        && order[0] == shuffled[1] && order[1] == shuffled[0]
        && forall m :: 2 <= m < |modes| ==> order[m] == shuffled[m]
      else
        order == shuffled
  {
    OrderStep(shuffles, r);
    hide Order;
  }

  /** The repetitions a schedule gives a mode. */
  function Total(blocks: seq<ScheduledBlock>, mode: string): int {
    if blocks == [] then 0
    else
      var last := blocks[|blocks| - 1];
      Total(blocks[..|blocks| - 1], mode) + (if last.mode == mode then last.repetitions else 0)
  }

  lemma {:induction false} TotalConcat(a: seq<ScheduledBlock>, b: seq<ScheduledBlock>, mode: string)
    ensures Total(a + b, mode) == Total(a, mode) + Total(b, mode)
    decreases |b|
  {
    if b == [] {
      assert a + b == a;
    } else {
      var init := b[..|b| - 1];
      assert (a + b)[..|a + b| - 1] == a + init;
      TotalConcat(a, init, mode);
    }
  }

  lemma {:induction false} RoundTotal(order: seq<string>, start: int, roundNumber: int, repetitions: int, mode: string)
    requires Distinct(order)
    ensures Total(RoundBlocks(order, start, roundNumber, repetitions), mode) == if mode in order then repetitions else 0
    decreases |order|
  {
    if order != [] {
      var init := order[..|order| - 1];
      assert order == init + [order[|order| - 1]];
      RoundTotal(init, start, roundNumber, repetitions, mode);
      var blocks := RoundBlocks(order, start, roundNumber, repetitions);
      assert blocks[..|blocks| - 1] == RoundBlocks(init, start, roundNumber, repetitions);
    }
  }

  lemma SameMembers(a: seq<string>, b: seq<string>, x: string)
    requires multiset(a) == multiset(b)
    ensures x in a <==> x in b
  {
    assert x in multiset(a) <==> x in multiset(b);
  }

  ghost predicate Alternating(blocks: seq<ScheduledBlock>) {
    forall b :: 0 <= b < |blocks| - 1 ==> blocks[b].mode != blocks[b + 1].mode
  }

  ghost predicate Numbered(blocks: seq<ScheduledBlock>, repetitions: int) {
    forall b :: 0 <= b < |blocks| ==> blocks[b].sequence == b + 1 && blocks[b].repetitions == repetitions
  }

  lemma RoundExtends(before: seq<ScheduledBlock>, order: seq<string>, roundNumber: int, repetitions: int)
    requires Alternating(before) && Numbered(before, repetitions) && Distinct(order) && order != []
    requires before != [] ==> before[|before| - 1].mode != order[0]
    ensures var plan := before + RoundBlocks(order, |before| + 1, roundNumber, repetitions);
      Alternating(plan) && Numbered(plan, repetitions) && plan[|plan| - 1].mode == order[|order| - 1]
  {
  }

  lemma Distribute(r: nat, n: int)
    requires r > 0
    ensures r * n == (r - 1) * n + n
  {
  }

  lemma {:induction false} PlanShape(modes: seq<string>, shuffles: seq<seq<string>>, rounds: nat, repetitions: int)
    requires |modes| >= 2 && Distinct(modes) && Shuffles(modes, shuffles) && rounds <= |shuffles|
    ensures var plan := Plan(shuffles, rounds, repetitions);
      && Numbered(plan, repetitions) && Alternating(plan)
      && (plan != [] <==> rounds > 0)
      && (rounds > 0 ==> plan[|plan| - 1].mode == Order(shuffles, rounds - 1)[|modes| - 1])
  {
    hide Plan, Order, RoundBlocks;
    PlanStep(shuffles, rounds, repetitions);
    if rounds > 0 {
      PlanShape(modes, shuffles, rounds - 1, repetitions);
      RoundIsPermutation(modes, shuffles, rounds - 1);
      hide Alternating, Numbered;
      RoundExtends(Plan(shuffles, rounds - 1, repetitions), Order(shuffles, rounds - 1), rounds, repetitions);
    }
  }

  lemma {:induction false} PlanSize(modes: seq<string>, shuffles: seq<seq<string>>, rounds: nat, repetitions: int)
    requires |modes| >= 2 && Shuffles(modes, shuffles) && rounds <= |shuffles|
    ensures |Plan(shuffles, rounds, repetitions)| == rounds * |modes|
  {
    hide Plan, Order, RoundBlocks;
    PlanStep(shuffles, rounds, repetitions);
    if rounds > 0 {
      PlanSize(modes, shuffles, rounds - 1, repetitions);
      Distribute(rounds, |modes|);
    }
  }

  lemma {:induction false} PlanTotal(modes: seq<string>, shuffles: seq<seq<string>>, rounds: nat, repetitions: int,
                                     mode: string)
    requires |modes| >= 2 && Distinct(modes) && Shuffles(modes, shuffles) && rounds <= |shuffles| && mode in modes
    ensures Total(Plan(shuffles, rounds, repetitions), mode) == rounds * repetitions
  {
    hide Plan, Order, RoundBlocks;
    PlanStep(shuffles, rounds, repetitions);
    if rounds > 0 {
      PlanTotal(modes, shuffles, rounds - 1, repetitions, mode);
      RoundIsPermutation(modes, shuffles, rounds - 1);
      hide Total, Distinct;
      var before := Plan(shuffles, rounds - 1, repetitions);
      var order := Order(shuffles, rounds - 1);
      TotalConcat(before, RoundBlocks(order, |before| + 1, rounds, repetitions), mode);
      RoundTotal(order, |before| + 1, rounds, repetitions, mode);
      SameMembers(order, modes, mode);
      Distribute(rounds, repetitions);
    }
  }

  /**
   Whatever permutations the shuffle returns: the blocks are numbered 1 to rounds * |modes|, no two neighbours share a
   mode, even across rounds, and each mode gets rounds * repetitions.
   */
  lemma ScheduleIsBalanced(modes: seq<string>, shuffles: seq<seq<string>>, rounds: nat, repetitions: int)
    requires |modes| >= 2 && Distinct(modes) && Shuffles(modes, shuffles) && rounds <= |shuffles|
    ensures var plan := Plan(shuffles, rounds, repetitions);
      && |plan| == rounds * |modes|
      && (forall b :: 0 <= b < |plan| ==> plan[b].sequence == b + 1 && plan[b].repetitions == repetitions)
      && (forall b :: 0 <= b < |plan| - 1 ==> plan[b].mode != plan[b + 1].mode)
      && (forall mode :: mode in modes ==> Total(plan, mode) == rounds * repetitions)
  {
    hide Plan, Order, Total;
    PlanShape(modes, shuffles, rounds, repetitions);
    PlanSize(modes, shuffles, rounds, repetitions);
    forall mode | mode in modes ensures Total(Plan(shuffles, rounds, repetitions), mode) == rounds * repetitions {
      PlanTotal(modes, shuffles, rounds, repetitions, mode);
    }
  }

  /** Round `r` occupies its own stretch of the schedule and is a permutation of the modes. */
  lemma {:induction false} RoundsArePermutations(modes: seq<string>, shuffles: seq<seq<string>>, rounds: nat,
                                                 repetitions: int, r: nat)
    requires |modes| >= 2 && Distinct(modes) && Shuffles(modes, shuffles) && r < rounds <= |shuffles|
    ensures var plan := Plan(shuffles, rounds, repetitions);
      && 0 <= r * |modes| <= r * |modes| + |modes| <= |plan|
      && plan[r * |modes|..r * |modes| + |modes|]
        == RoundBlocks(Order(shuffles, r), r * |modes| + 1, r + 1, repetitions)
      && multiset(Order(shuffles, r)) == multiset(modes)
    decreases rounds
  {
    hide Plan, Order, RoundBlocks, Distinct;
    PlanSize(modes, shuffles, rounds - 1, repetitions);
    PlanStep(shuffles, rounds, repetitions);
    var before := Plan(shuffles, rounds - 1, repetitions);
    var blocks := RoundBlocks(Order(shuffles, rounds - 1), |before| + 1, rounds, repetitions);
    RoundIsPermutation(modes, shuffles, r);
    if r < rounds - 1 {
      RoundsArePermutations(modes, shuffles, rounds - 1, repetitions, r);
    }
    SliceOfConcat(before, blocks, r * |modes|, r * |modes| + |modes|);
    assert r == rounds - 1 ==> r * |modes| == |before|;
  }

  lemma SliceOfConcat<T>(a: seq<T>, b: seq<T>, i: nat, j: nat)
    ensures i <= j <= |a| ==> (a + b)[i..j] == a[i..j]
    ensures i == |a| && j == |a| + |b| ==> (a + b)[i..j] == b
  {
  }
}
