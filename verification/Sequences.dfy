/** Lists without repeats, and the sets of their elements. */
module Sequences {
  ghost predicate Distinct<K(!new)>(s: seq<K>) {
    forall i, j :: 0 <= i < j < |s| ==> s[i] != s[j]
  }

  function Elements<K(==,!new)>(s: seq<K>): set<K> {
    set x | x in s
  }

  lemma ElementsConcat<K(!new)>(a: seq<K>, b: seq<K>)
    ensures Elements(a + b) == Elements(a) + Elements(b)
  {
  }

  lemma {:induction false} SubsetSize<K(!new)>(a: set<K>, b: set<K>)
    requires a <= b
    ensures |a| <= |b|
  {
    assert |b - a| + |a| == |b| by { assert (b - a) + a == b; }
  }

  lemma DistinctParts<K(!new)>(b: seq<K>, r: seq<K>)
    requires Distinct(b + r)
    ensures Distinct(r) && forall x :: x in r ==> x !in b
  {
    forall j, k | 0 <= j < k < |r| ensures r[j] != r[k] {
      assert (b + r)[|b| + j] == r[j] && (b + r)[|b| + k] == r[k];
    }
    forall j, k | 0 <= j < |b| && 0 <= k < |r| ensures b[j] != r[k] {
      assert (b + r)[j] == b[j] && (b + r)[|b| + k] == r[k];
    }
  }

  function IndexOf<K(==,!new)>(s: seq<K>, k: K): (i: nat)
    requires k in s
    ensures i < |s| && s[i] == k && k !in s[..i]
  {
    if s[0] == k then 0
    else
      assert s == [s[0]] + s[1..];
      var i := IndexOf(s[1..], k);
      assert s[..i + 1] == [s[0]] + s[1..][..i];
      i + 1
  }

  lemma {:induction false} DistinctSize<K(!new)>(s: seq<K>)
    requires Distinct(s)
    ensures |Elements(s)| == |s|
  {
    if s != [] {
      DistinctSize(s[1..]);
      assert s == [s[0]] + s[1..];
      assert s[0] !in s[1..];
      assert Elements(s) == {s[0]} + Elements(s[1..]);
    }
  }

  lemma {:induction false} ElementsSize<K(!new)>(s: seq<K>)
    ensures |Elements(s)| <= |s|
  {
    if s != [] {
      ElementsSize(s[1..]);
      assert s == [s[0]] + s[1..];
      ElementsConcat([s[0]], s[1..]);
      assert Elements(s) == {s[0]} + Elements(s[1..]);
    }
  }

  lemma DropRepeat<K(!new)>(s: seq<K>, i: nat, j: nat)
    requires i < j < |s| && s[i] == s[j]
    ensures Elements(s) <= Elements(s[..j] + s[j + 1..])
  {
    var t := s[..j] + s[j + 1..];
    forall k | 0 <= k < |s| ensures s[k] in t {
      assert s[k] == if k < j then t[k] else if k == j then t[i] else t[k - 1];
    }
  }

  /** A list has no repeats exactly when its set is as large as the list. */
  lemma DistinctBySize<K(!new)>(s: seq<K>)
    ensures |Elements(s)| <= |s|
    ensures |Elements(s)| == |s| <==> Distinct(s)
  {
    ElementsSize(s);
    if Distinct(s) {
      DistinctSize(s);
    } else {
      var i, j :| 0 <= i < j < |s| && s[i] == s[j];
      DropRepeat(s, i, j);
      ElementsSize(s[..j] + s[j + 1..]);
      SubsetSize(Elements(s), Elements(s[..j] + s[j + 1..]));
    }
  }
}
