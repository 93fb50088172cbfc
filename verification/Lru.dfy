/**
 Bounded least-recently-used caches kept in an `OrderedDict`: the two-entry cipher cache of crypto.py and the
 1024-entry hello cache of multi_server.py.
 */
module Lru {
  import opened Sequences

  // ----- Python's OrderedDict: a map and the order of its keys, oldest first

  datatype OrderedDict<K(==,!new), V> = OrderedDict(order: seq<K>, items: map<K, V>) {
    ghost predicate WellFormed() {
      && Distinct(order)
      && forall k :: k in items <==> k in order
    }

    function MoveToEnd(k: K): OrderedDict<K, V>
      requires k in items
    {
      OrderedDict(Without(order, k) + [k], items)
    }

    /** `d[k] = v` for a key that is not yet present. */
    function Insert(k: K, v: V): OrderedDict<K, V> {
      OrderedDict(order + [k], items[k := v])
    }

    /** `d.popitem(last=False)`. */
    function PopFirst(): OrderedDict<K, V>
      requires order != []
    {
      OrderedDict(order[1..], items - {order[0]})
    }
  }

  function Without<K(==,!new)>(s: seq<K>, k: K): seq<K> {
    if s == [] then []
    else (if s[0] == k then [] else [s[0]]) + Without(s[1..], k)
  }

  lemma {:induction false} WithoutMembers<K(!new)>(s: seq<K>, k: K)
    ensures Elements(Without(s, k)) == Elements(s) - {k}
    ensures k !in s ==> Without(s, k) == s
  {
    if s != [] {
      WithoutMembers(s[1..], k);
      assert s == [s[0]] + s[1..];
      ElementsConcat([s[0]], s[1..]);
      ElementsConcat(if s[0] == k then [] else [s[0]], Without(s[1..], k));
      assert k !in s ==> k !in s[1..];
    }
  }

  lemma {:induction false} WithoutSplit<K(!new)>(s: seq<K>, i: nat)
    requires i < |s| && Distinct(s)
    ensures Without(s, s[i]) == s[..i] + s[i + 1..]
  {
    if i > 0 {
      assert s[1..][i - 1] == s[i];
      WithoutSplit(s[1..], i - 1);
      assert s[1..][..i - 1] == s[1..i] && s[1..][i..] == s[i + 1..];
      assert s[..i] == [s[0]] + s[1..i];
    } else {
      assert s[0] !in s[1..];
      WithoutMembers(s[1..], s[0]);
    }
  }

  // ----- the cache discipline and an independent reading of it

  function Touch<K(==,!new)>(cache: seq<K>, k: K, capacity: nat): seq<K> {
    var c := Without(cache, k) + [k];
    if |c| > capacity then c[1..] else c
  }

  /** The cache after a whole history of touches. */
  function Recent<K(==,!new)>(history: seq<K>, capacity: nat): seq<K> {
    if history == [] then []
    else Touch(Recent(history[..|history| - 1], capacity), history[|history| - 1], capacity)
  }

  function LastTouch<K(==,!new)>(h: seq<K>, k: K): (i: nat)
    requires k in h
    ensures i < |h| && h[i] == k && k !in h[i + 1..]
  {
    if h[|h| - 1] == k then |h| - 1
    else
      var t := h[..|h| - 1];
      assert h == t + [h[|h| - 1]];
      var i := LastTouch(t, k);
      assert h[i + 1..] == t[i + 1..] + [h[|h| - 1]];
      i
  }

  /** The distinct keys touched after the last touch of `k`. */
  function Since<K(==,!new)>(h: seq<K>, k: K): set<K>
    requires k in h
  {
    if h[|h| - 1] == k then {}
    else
      assert h == h[..|h| - 1] + [h[|h| - 1]];
      Since(h[..|h| - 1], k) + {h[|h| - 1]}
  }

  lemma SinceExtends<K(!new)>(h: seq<K>, k: K, x: K)
    requires k in h || k == x
    ensures k == x ==> Since(h + [x], k) == {}
    ensures k != x ==> Since(h + [x], k) == Since(h, k) + {x}
  {
    var g := h + [x];
    assert g[|g| - 1] == x && g[..|g| - 1] == h;
  }

  lemma {:induction false} SinceIsLater<K(!new)>(h: seq<K>, k: K)
    requires k in h
    ensures k !in Since(h, k)
    ensures forall j :: j in Since(h, k) ==> j in h && LastTouch(h, k) < LastTouch(h, j)
  {
    var g, x := h[..|h| - 1], h[|h| - 1];
    assert h == g + [x];
    if x != k { SinceIsLater(g, k); }
  }

  lemma LastTouchExtends<K(!new)>(h: seq<K>, k: K, x: K)
    requires k in h || k == x
    ensures LastTouch(h + [x], k) == if k == x then |h| else LastTouch(h, k)
  {
    assert (h + [x])[..|h|] == h;
  }

  lemma {:induction false} LastTouchIsLast<K(!new)>(h: seq<K>, k: K, i: nat)
    requires i < |h| && h[i] == k
    ensures k in h && i <= LastTouch(h, k)
  {
    if i < |h| - 1 && h[|h| - 1] != k {
      LastTouchIsLast(h[..|h| - 1], k, i);
    }
  }

  /** `Since` read directly off the history. */
  lemma {:induction false} SinceIsTail<K(!new)>(h: seq<K>, k: K)
    requires k in h
    ensures Since(h, k) == Elements(h[LastTouch(h, k) + 1..])
  {
    var g, x := h[..|h| - 1], h[|h| - 1];
    assert h == g + [x];
    SinceExtends(g, k, x);
    LastTouchExtends(g, k, x);
    hide Since, LastTouch;
    if x != k {
      SinceIsTail(g, k);
      assert h[LastTouch(g, k) + 1..] == g[LastTouch(g, k) + 1..] + [x];
    }
  }

  /** Every entry of `u` has been followed by exactly the entries behind it. */
  ghost predicate InRecencyOrder<K(!new)>(h: seq<K>, u: seq<K>) {
    u == [] || (u[0] in h && Since(h, u[0]) == Elements(u[1..]) && InRecencyOrder(h, u[1..]))
  }

  lemma {:induction false} TouchKeepsOrder<K(!new)>(h: seq<K>, u: seq<K>, x: K)
    requires InRecencyOrder(h, u)
    ensures InRecencyOrder(h + [x], Without(u, x) + [x])
  {
    hide Since;
    if u == [] {
      SinceExtends(h, x, x);
      assert Without(u, x) + [x] == [x];
    } else {
      TouchKeepsOrder(h, u[1..], x);
      var rest := Without(u[1..], x) + [x];
      if u[0] == x {
        assert Without(u, x) + [x] == rest;
      } else {
        assert Without(u, x) + [x] == [u[0]] + rest;
        SinceExtends(h, u[0], x);
        WithoutMembers(u[1..], x);
        ElementsConcat(Without(u[1..], x), [x]);
        hide Without, Elements;
        assert Elements([x]) == {x};
        InOrderStep(h + [x], u[0], rest);
      }
    }
  }

  lemma InOrderStep<K(!new)>(h: seq<K>, k: K, rest: seq<K>)
    requires k in h && Since(h, k) == Elements(rest) && InRecencyOrder(h, rest)
    ensures InRecencyOrder(h, [k] + rest)
  {
    assert ([k] + rest)[1..] == rest;
  }

  ghost predicate SortedByTouch<K(!new)>(h: seq<K>, u: seq<K>) {
    && (forall i :: 0 <= i < |u| ==> u[i] in h)
    && (forall i, j :: 0 <= i < j < |u| ==> LastTouch(h, u[i]) < LastTouch(h, u[j]))
  }

  lemma SortedByTouchStep<K(!new)>(h: seq<K>, u: seq<K>)
    requires u != [] && u[0] in h && SortedByTouch(h, u[1..])
    requires forall k :: k in u[1..] ==> k in h && LastTouch(h, u[0]) < LastTouch(h, k)
    ensures SortedByTouch(h, u)
  {
    hide LastTouch;
    var t := u[1..];
    assert forall i :: 1 <= i < |u| ==> u[i] == t[i - 1] && t[i - 1] in t;
  }

  /** Entries of a list in recency order are distinct and sorted by their last touch. */
  lemma {:induction false} RecencyOrderSorted<K(!new)>(h: seq<K>, u: seq<K>)
    requires InRecencyOrder(h, u)
    ensures SortedByTouch(h, u) && Distinct(u)
  {
    hide Since, LastTouch;
    if u != [] {
      RecencyOrderSorted(h, u[1..]);
      SinceIsLater(h, u[0]);
      hide SortedByTouch, Distinct;
      assert forall k :: k in u[1..] ==> k in Since(h, u[0]);
      SortedByTouchStep(h, u);
    }
    SortedIsDistinct(h, u);
  }

  lemma SortedIsDistinct<K(!new)>(h: seq<K>, u: seq<K>)
    requires SortedByTouch(h, u)
    ensures Distinct(u)
  {
    hide LastTouch;
  }

  lemma {:induction false} RecencyOrderSuffix<K(!new)>(h: seq<K>, a: seq<K>, r: seq<K>)
    requires InRecencyOrder(h, a + r)
    ensures InRecencyOrder(h, r)
    ensures forall k :: k in a ==> k in h && Elements(r) <= Since(h, k)
    decreases |a|
  {
    if a == [] {
      assert a + r == r;
    } else {
      assert (a + r)[1..] == a[1..] + r && a == [a[0]] + a[1..];
      RecencyOrderSuffix(h, a[1..], r);
    }
  }

  /** All keys ever touched, in recency order: what the cache would hold if it were unbounded. */
  function AllTouched<K(==,!new)>(h: seq<K>): seq<K> {
    if h == [] then [] else Without(AllTouched(h[..|h| - 1]), h[|h| - 1]) + [h[|h| - 1]]
  }

  lemma {:induction false} AllTouchedMembers<K(!new)>(h: seq<K>)
    ensures Elements(AllTouched(h)) == Elements(h)
    decreases |h|
  {
    if h != [] {
      var g, x := h[..|h| - 1], h[|h| - 1];
      AllTouchedMembers(g);
      WithoutMembers(AllTouched(g), x);
      ElementsConcat(Without(AllTouched(g), x), [x]);
      ElementsConcat(g, [x]);
      assert g + [x] == h;
    }
  }

  lemma {:induction false} AllTouchedInOrder<K(!new)>(h: seq<K>)
    ensures InRecencyOrder(h, AllTouched(h))
    decreases |h|
  {
    if h != [] {
      var g, x := h[..|h| - 1], h[|h| - 1];
      AllTouchedInOrder(g);
      TouchKeepsOrder(g, AllTouched(g), x);
      assert g + [x] == h;
    }
  }

  lemma {:induction false} WithoutConcat<K(!new)>(a: seq<K>, b: seq<K>, x: K)
    ensures Without(a + b, x) == Without(a, x) + Without(b, x)
    decreases |a|
  {
    if a == [] {
      assert a + b == b;
    } else {
      assert (a + b)[1..] == a[1..] + b;
      WithoutConcat(a[1..], b, x);
    }
  }

  /** One touch of the cache `r` at the newest end of the unbounded list `b + r`. */
  lemma TouchSuffix<K(!new)>(b: seq<K>, r: seq<K>, x: K, capacity: nat) returns (a: seq<K>)
    requires capacity > 0 && Distinct(b + r)
    requires |r| <= capacity && (b == [] || |r| == capacity)
    ensures Without(b + r, x) + [x] == a + Touch(r, x, capacity)
    ensures |Touch(r, x, capacity)| <= capacity && (a == [] || |Touch(r, x, capacity)| == capacity)
  {
    WithoutConcat(b, r, x);
    if x in r {
      DistinctParts(b, r);
      WithoutSplit(r, IndexOf(r, x));
      WithoutMembers(b, x);
      a := b;
    } else {
      WithoutMembers(r, x);
      if |r| == capacity {
        a := Without(b, x) + [r[0]];
        assert r == [r[0]] + r[1..];
        assert (r + [x])[1..] == r[1..] + [x];
      } else {
        a := [];
      }
    }
  }

  /** The cache is the newest end of the unbounded recency list, and falls short of it only when full. */
  lemma {:induction false} RecentIsSuffix<K(!new)>(h: seq<K>, capacity: nat) returns (a: seq<K>)
    requires capacity > 0
    ensures AllTouched(h) == a + Recent(h, capacity)
    ensures |Recent(h, capacity)| <= capacity && (a == [] || |Recent(h, capacity)| == capacity)
    decreases |h|
  {
    if h == [] {
      a := [];
    } else {
      var g, x := h[..|h| - 1], h[|h| - 1];
      var b := RecentIsSuffix(g, capacity);
      AllTouchedInOrder(g);
      RecencyOrderSorted(g, AllTouched(g));
      a := TouchSuffix(b, Recent(g, capacity), x, capacity);
    }
  }

  /** In a list in recency order, fewer distinct keys were touched since an entry than the list holds. */
  lemma {:induction false} SinceCounts<K(!new)>(h: seq<K>, r: seq<K>, k: K)
    requires InRecencyOrder(h, r) && k in r
    ensures k in h && |Since(h, k)| < |r|
    decreases |r|
  {
    hide Since, LastTouch, Elements;
    if k == r[0] {
      RecencyOrderSorted(h, r[1..]);
      DistinctSize(r[1..]);
    } else {
      assert r == [r[0]] + r[1..];
      SinceCounts(h, r[1..], k);
    }
  }

  /**
   The main result: after any history, the cache holds exactly the keys after whose last use fewer than `capacity`
   other distinct keys were used, in the order of their last use.
   */
  lemma CacheHoldsMostRecent<K(!new)>(h: seq<K>, capacity: nat)
    requires capacity > 0
    ensures var r := Recent(h, capacity);
      && (forall k :: k in r <==> k in h && |Since(h, k)| < capacity)
      && (forall i, j :: 0 <= i < j < |r| ==> r[i] in h && r[j] in h && LastTouch(h, r[i]) < LastTouch(h, r[j]))
      && |r| <= capacity && Distinct(r)
  {
    var r := Recent(h, capacity);
    var a := RecentIsSuffix(h, capacity);
    AllTouchedInOrder(h);
    AllTouchedMembers(h);
    RecencyOrderSuffix(h, a, r);
    RecencyOrderSorted(h, r);
    forall k | k in r ensures k in h && |Since(h, k)| < capacity {
      SinceCounts(h, r, k);
    }
    forall k | k in h && k !in r ensures |Since(h, k)| >= capacity {
      assert k in Elements(a + r);
      assert k in a;
      DistinctSize(r);
      SubsetSize(Elements(r), Since(h, k));
    }
  }

  /** With no more distinct keys than entries, nothing is ever evicted. */
  lemma NothingEvicted<K(!new)>(h: seq<K>, capacity: nat, k: K)
    requires capacity > 0 && |Elements(h)| <= capacity
    requires k in h
    ensures k in Recent(h, capacity)
  {
    CacheHoldsMostRecent(h, capacity);
    SinceIsLater(h, k);
    SubsetSize(Since(h, k) + {k}, Elements(h));
  }

  // ----- what the OrderedDict operations do to the order

  lemma HitTouches<K(!new), V>(d: OrderedDict<K, V>, k: K, capacity: nat)
    requires d.WellFormed() && k in d.items && |d.order| <= capacity
    ensures d.MoveToEnd(k).WellFormed() && d.MoveToEnd(k).order == Touch(d.order, k, capacity)
  {
    var i := IndexOf(d.order, k);
    WithoutSplit(d.order, i);
  }

  function Store<K(==,!new), V>(d: OrderedDict<K, V>, k: K, v: V, capacity: nat): OrderedDict<K, V> {
    var e := d.Insert(k, v);
    if |e.order| > capacity then e.PopFirst() else e
  }

  lemma InsertKeepsForm<K(!new), V>(d: OrderedDict<K, V>, k: K, v: V)
    requires d.WellFormed() && k !in d.items
    ensures d.Insert(k, v).WellFormed()
  {
  }

  lemma PopKeepsForm<K(!new), V>(d: OrderedDict<K, V>)
    requires d.WellFormed() && d.order != []
    ensures d.PopFirst().WellFormed()
  {
    assert d.order == [d.order[0]] + d.order[1..];
    assert d.order[0] !in d.order[1..];
  }

  lemma MissTouches<K(!new), V>(d: OrderedDict<K, V>, k: K, v: V, capacity: nat)
    requires d.WellFormed() && k !in d.items && |d.order| <= capacity && capacity > 0
    ensures var e := Store(d, k, v, capacity);
      && e.WellFormed() && e.order == Touch(d.order, k, capacity) && k in e.items && e.items[k] == v
      && forall x :: x in e.items && x != k ==> x in d.items && e.items[x] == d.items[x]
  {
    WithoutMembers(d.order, k);
    hide Without;
    InsertKeepsForm(d, k, v);
    var e := d.Insert(k, v);
    if |e.order| > capacity {
      PopKeepsForm(e);
      assert e.order[0] in d.order;
    }
    hide OrderedDict.WellFormed;
  }

  // ----- how often a key is missed

  /** The keys not found in the cache, in order: one derivation each. */
  function Misses<K(==,!new)>(history: seq<K>, capacity: nat): seq<K> {
    if history == [] then []
    else
      var g, x := history[..|history| - 1], history[|history| - 1];
      Misses(g, capacity) + (if x in Recent(g, capacity) then [] else [x])
  }

  lemma NothingSinceLast<K(!new)>(h: seq<K>)
    requires h != []
    ensures Since(h, h[|h| - 1]) == {}
  {
  }

  /** A non-decreasing history misses each of its keys exactly once. */
  lemma {:induction false} MonotoneMissesOnce(h: seq<nat>, capacity: nat)
    requires capacity > 0
    requires forall i, j :: 0 <= i < j < |h| ==> h[i] <= h[j]
    ensures forall k :: k in h <==> k in Misses(h, capacity)
    ensures forall i, j :: 0 <= i < j < |Misses(h, capacity)| ==> Misses(h, capacity)[i] < Misses(h, capacity)[j]
    decreases |h|
  {
    if h != [] {
      hide Recent, Since, LastTouch;
      var g, x := h[..|h| - 1], h[|h| - 1];
      MonotoneMissesOnce(g, capacity);
      CacheHoldsMostRecent(g, capacity);
      assert h == g + [x];
      if x in g {
        var i := IndexOf(g, x);
        assert h[i] <= h[|g| - 1] <= h[|g|];
        NothingSinceLast(g);
      } else {
        forall k | k in g ensures k < x {
          var i :| 0 <= i < |g| && g[i] == k;
          assert h[i] <= h[|h| - 1];
        }
        var m := Misses(g, capacity);
        assert Misses(h, capacity) == m + [x];
        assert forall i :: 0 <= i < |m| ==> m[i] in m;
      }
    }
  }

  /** One more touch of the history. */
  lemma OneMoreTouch<K(!new)>(h: seq<K>, k: K, capacity: nat)
    requires capacity > 0
    ensures Recent(h + [k], capacity) == Touch(Recent(h, capacity), k, capacity)
    ensures Misses(h + [k], capacity) == Misses(h, capacity) + (if k in Recent(h, capacity) then [] else [k])
    ensures |Recent(h, capacity)| <= capacity
  {
    CacheHoldsMostRecent(h, capacity);
    assert (h + [k])[..|h|] == h;
  }
}
