/** The anti-replay window of src/matf_vpn/crypto.py, lines 29-64 (the scheme of section 3.4.3 of RFC 4303). */
module Replay {
  import opened Outcome
  import opened Bits

  const DEFAULT_REPLAY_WINDOW_SIZE: nat := 64

  // ----- what the window stands for: the set of numbers marked so far

  ghost predicate IsHighest(marks: set<int>, h: int) {
    && (forall m :: m in marks ==> 0 <= m <= h)
    && (marks == {} ==> h == -1)
    && (marks != {} ==> h in marks)
  }

  /** The numbers refused once `marks` have been marked. */
  ghost predicate Refused(size: nat, marks: set<int>, s: int) {
    s < 0 || s in marks || exists m :: m in marks && s <= m - size
  }

  ghost predicate Represents(size: nat, marks: set<int>, highest: int, bitmap: nat) {
    && IsHighest(marks, highest)
    && forall d: nat :: Bit(bitmap, d) <==> d < size && highest - d in marks
  }

  class ReplayWindow {
    const size: nat
    var highest: int
    var bitmap: nat
    ghost var marks: set<int>

    ghost predicate Valid()
      reads this
    {
      size > 0 && Represents(size, marks, highest, bitmap)
    }

    constructor (size: nat := DEFAULT_REPLAY_WINDOW_SIZE)
      requires size > 0
      ensures Valid() && this.size == size && marks == {}
    {
      this.size := size;
      highest := -1;
      bitmap := 0;
      marks := {};
      new;
      forall d: nat ensures !Bit(0, d) { ZeroBits(d); }
    }

    method IsReplay(s: int) returns (replay: bool)
      requires Valid()
      ensures replay <==> Refused(size, marks, s)
    {
      if s < 0 { return true; }
      if s > highest { return false; }
      var distance := highest - s;
      if distance >= size {
        assert highest in marks;
        return true;
      }
      OneTest(bitmap, distance);
      assert highest - distance == s;
      return And(bitmap, Shl(1, distance)) != 0;
    }

    method MarkAuthenticated(s: int) returns (ok: bool)
      requires Valid()
      modifies this
      ensures Valid()
      ensures ok <==> !Refused(size, old(marks), s)
      ensures marks == if ok then old(marks) + {s} else old(marks)
      ensures !ok ==> highest == old(highest) && bitmap == old(bitmap)
    {
      var replay := IsReplay(s);
      if replay { return false; }
      if s > highest {
        var shift := s - highest;
        if shift >= size {
          bitmap := 0;
        } else {
          bitmap := Shl(bitmap, shift);
          bitmap := And(bitmap, Shl(1, size) - 1);
        }
        ShiftedBits(size, marks, highest, old(bitmap), s, bitmap);
        highest := s;
        SetBit(size, marks, s, bitmap, 0);
        assert Shl(1, 0) == 1;
        bitmap := Or(bitmap, 1);
        marks := marks + {s};
        return true;
      }
      var distance := highest - s;
      SetBit(size, marks, highest, bitmap, distance);
      bitmap := Or(bitmap, Shl(1, distance));
      marks := marks + {s};
      return true;
    }
  }

  /** What the original's constructor does with any size. */
  method NewReplayWindow(size: int) returns (r: Result<ReplayWindow>)
    ensures r.Err? <==> size <= 0
    ensures r.Err? ==> r.error == ValueError
    ensures r.Ok? ==> fresh(r.value) && r.value.Valid() && r.value.size == size && r.value.marks == {}
  {
    if size <= 0 { return Err(ValueError); }
    var w := new ReplayWindow(size);
    return Ok(w);
  }

  /** `bitmap & (1 << d)` is non-zero exactly when bit `d` is set. */
  lemma OneTest(bitmap: nat, d: nat)
    ensures And(bitmap, Shl(1, d)) != 0 <==> Bit(bitmap, d)
  {
    var r := And(bitmap, Shl(1, d));
    AndBits(bitmap, Shl(1, d), d);
    OneBit(d, d);
    ZeroBits(d);
    if r != 0 && !Bit(bitmap, d) {
      forall i: nat ensures Bit(r, i) <==> Bit(0, i) {
        AndBits(bitmap, Shl(1, d), i);
        OneBit(d, i);
        ZeroBits(i);
      }
      SameBits(r, 0);
    }
  }

  /** Shifting and masking moves the window up: only bits of old marks remain. */
  lemma ShiftedBits(size: nat, marks: set<int>, highest: int, bitmap: nat, s: int, shifted: nat)
    requires size > 0 && Represents(size, marks, highest, bitmap) && s > highest
    requires shifted == if s - highest >= size then 0 else And(Shl(bitmap, s - highest), Shl(1, size) - 1)
    ensures forall d: nat :: Bit(shifted, d) <==> d < size && s - d in marks
  {
    forall d: nat ensures Bit(shifted, d) <==> d < size && s - d in marks {
      var shift := s - highest;
      if shift >= size {
        ZeroBits(d);
      } else {
        AndBits(Shl(bitmap, shift), Shl(1, size) - 1, d);
        ShlBits(bitmap, shift, d);
        MaskBits(size, d);
        if d >= shift { assert highest - (d - shift) == s - d; }
      }
    }
  }

  lemma SetBit(size: nat, marks: set<int>, highest: int, bitmap: nat, distance: nat)
    requires distance < size
    requires forall d: nat :: Bit(bitmap, d) <==> d < size && highest - d in marks
    ensures forall d: nat :: Bit(Or(bitmap, Shl(1, distance)), d) <==>
      d < size && highest - d in marks + {highest - distance}
  {
    forall d: nat
      ensures Bit(Or(bitmap, Shl(1, distance)), d) <==> d < size && highest - d in marks + {highest - distance}
    {
      OrBits(bitmap, Shl(1, distance), d);
      OneBit(distance, d);
    }
  }

  // ----- properties of every history

  /** The bitmap fits the window, bit `d` stands for `highest - d`, and the fields decide refusal. */
  lemma WindowInvariant(w: ReplayWindow, s: int)
    requires w.Valid()
    ensures w.bitmap < Shl(1, w.size)
    ensures forall d: nat :: d < w.size ==> (Bit(w.bitmap, d) <==> w.highest - d in w.marks)
    ensures Refused(w.size, w.marks, s) <==> s < 0 || s in w.marks || s <= w.highest - w.size
  {
    BoundedBits(w.bitmap, w.size);
    if w.marks != {} { assert w.highest in w.marks; }
  }

  /** Window fields are a function of the marked set alone. */
  lemma StateIsFunctionOfMarks(size: nat, marks: set<int>, h: int, b: nat, h': int, b': nat)
    requires Represents(size, marks, h, b) && Represents(size, marks, h', b')
    ensures h == h' && b == b'
  {
    if marks != {} { assert h in marks && h' in marks; }
    SameBits(b, b');
  }

  /** A number once refused stays refused, whatever is marked later. */
  lemma RefusedForever(size: nat, marks: set<int>, later: set<int>, s: int)
    requires Refused(size, marks, s) && marks <= later
    ensures Refused(size, later, s)
  {
    if s >= 0 && s !in marks {
      var m :| m in marks && s <= m - size;
      assert m in later;
    }
  }

  /** Marking a sequence of numbers in order, refused ones leaving the set unchanged. */
  ghost function MarkAll(size: nat, marks: set<int>, ss: seq<int>): set<int>
    decreases |ss|
  {
    if ss == [] then marks
    else MarkAll(size, if Refused(size, marks, ss[0]) then marks else marks + {ss[0]}, ss[1..])
  }

  ghost predicate AllAccepted(size: nat, marks: set<int>, ss: seq<int>)
    decreases |ss|
  {
    ss == [] || (!Refused(size, marks, ss[0]) && AllAccepted(size, marks + {ss[0]}, ss[1..]))
  }

  /** From `marks`, distinct unmarked numbers are all accepted as long as everything lies within one window's width. */
  lemma {:induction false} NarrowSequenceAccepted(size: nat, marks: set<int>, ss: seq<int>, low: int)
    requires low >= 0
    requires forall m :: m in marks ==> low <= m < low + size
    requires forall i :: 0 <= i < |ss| ==> low <= ss[i] < low + size && ss[i] !in marks
    requires forall i, j :: 0 <= i < j < |ss| ==> ss[i] != ss[j]
    ensures AllAccepted(size, marks, ss)
    ensures MarkAll(size, marks, ss) == marks + set s | s in ss
    decreases |ss|
  {
    if ss != [] {
      assert ss == [ss[0]] + ss[1..];
      NarrowSequenceAccepted(size, marks + {ss[0]}, ss[1..], low);
    }
  }

  /**
   Order independence: two arrangements of the same distinct non-negative numbers, spread over less than a
   window, are accepted in full and leave identical windows.
   */
  lemma OrderIndependent(size: nat, ss: seq<int>, tt: seq<int>, low: int, h: int, b: nat, h': int, b': nat)
    requires low >= 0
    requires forall i :: 0 <= i < |ss| ==> low <= ss[i] < low + size
    requires forall i, j :: 0 <= i < j < |ss| ==> ss[i] != ss[j]
    requires forall i, j :: 0 <= i < j < |tt| ==> tt[i] != tt[j]
    requires forall x :: x in ss <==> x in tt
    requires Represents(size, MarkAll(size, {}, ss), h, b) && Represents(size, MarkAll(size, {}, tt), h', b')
    ensures AllAccepted(size, {}, ss) && AllAccepted(size, {}, tt)
    ensures h == h' && b == b'
  {
    forall i | 0 <= i < |tt| ensures low <= tt[i] < low + size {
      assert tt[i] in ss;
    }
    NarrowSequenceAccepted(size, {}, ss, low);
    NarrowSequenceAccepted(size, {}, tt, low);
    assert (set s | s in ss) == (set s | s in tt);
    StateIsFunctionOfMarks(size, MarkAll(size, {}, ss), h, b, h', b');
  }

  /** Any history of marking attempts drives the real window through `MarkAll`. */
  method Replayed(ss: seq<int>, size: nat) returns (w: ReplayWindow)
    requires size > 0
    ensures fresh(w) && w.Valid() && w.size == size && w.marks == MarkAll(size, {}, ss)
  {
    w := new ReplayWindow(size);
    for i := 0 to |ss|
      invariant fresh(w) && w.Valid() && w.size == size
      invariant MarkAll(size, w.marks, ss[i..]) == MarkAll(size, {}, ss)
    {
      var _ := w.MarkAuthenticated(ss[i]);
      assert ss[i..][1..] == ss[i + 1..];
    }
  }
}
