/** Python's `&`, `|` and `<<` on non-negative integers of any size. */
module Bits {
  predicate Bit(n: nat, i: nat) {
    if i == 0 then n % 2 == 1 else Bit(n / 2, i - 1)
  }

  function And(a: nat, b: nat): nat {
    if a == 0 || b == 0 then 0
    else 2 * And(a / 2, b / 2) + (if a % 2 == 1 && b % 2 == 1 then 1 else 0)
  }

  function Or(a: nat, b: nat): nat
    decreases a + b
  {
    if a == 0 then b else if b == 0 then a
    else 2 * Or(a / 2, b / 2) + (if a % 2 == 1 || b % 2 == 1 then 1 else 0)
  }

  function Shl(a: nat, n: nat): (r: nat)
    ensures a > 0 ==> r > 0
  {
    if n == 0 then a else 2 * Shl(a, n - 1)
  }

  lemma {:induction false} ZeroBits(i: nat)
    ensures !Bit(0, i)
  {
    if i > 0 { ZeroBits(i - 1); }
  }

  lemma {:induction false} AndBits(a: nat, b: nat, i: nat)
    ensures Bit(And(a, b), i) <==> Bit(a, i) && Bit(b, i)
  {
    if a == 0 || b == 0 {
      ZeroBits(i);
    } else if i > 0 {
      AndBits(a / 2, b / 2, i - 1);
    }
  }

  lemma {:induction false} OrBits(a: nat, b: nat, i: nat)
    ensures Bit(Or(a, b), i) <==> Bit(a, i) || Bit(b, i)
    decreases i
  {
    if a == 0 || b == 0 {
      ZeroBits(i);
    } else if i > 0 {
      OrBits(a / 2, b / 2, i - 1);
    }
  }

  lemma {:induction false} ShlBits(a: nat, n: nat, i: nat)
    ensures Bit(Shl(a, n), i) <==> i >= n && Bit(a, i - n)
  {
    if n > 0 && i > 0 { ShlBits(a, n - 1, i - 1); }
  }

  lemma {:induction false} MaskBits(n: nat, i: nat)
    ensures Bit(Shl(1, n) - 1, i) <==> i < n
  {
    if n == 0 {
      ZeroBits(i);
    } else if i > 0 {
      assert (Shl(1, n) - 1) / 2 == Shl(1, n - 1) - 1;
      MaskBits(n - 1, i - 1);
    }
  }

  /** `1 << d` has bit `d` and no other. */
  lemma OneBit(d: nat, i: nat)
    ensures Bit(Shl(1, d), i) <==> i == d
  {
    ShlBits(1, d, i);
    if i > d { ZeroBits(i - d - 1); }
  }

  /** Numbers with the same bits are equal. */
  lemma {:induction false} SameBits(a: nat, b: nat)
    requires forall i: nat :: Bit(a, i) <==> Bit(b, i)
    ensures a == b
    decreases a + b
  {
    if a + b > 0 {
      assert Bit(a, 0) <==> Bit(b, 0);
      forall i: nat ensures Bit(a / 2, i) <==> Bit(b / 2, i) {
        assert Bit(a, i + 1) <==> Bit(b, i + 1);
      }
      SameBits(a / 2, b / 2);
    }
  }

  /** A number all of whose bits are below `n` is below `1 << n`. */
  lemma {:induction false} BoundedBits(a: nat, n: nat)
    requires forall i: nat :: Bit(a, i) ==> i < n
    ensures a < Shl(1, n)
    decreases n
  {
    if n == 0 {
      forall i: nat ensures Bit(a, i) <==> Bit(0, i) { ZeroBits(i); }
      SameBits(a, 0);
    } else {
      forall i: nat ensures Bit(a / 2, i) ==> i < n - 1 {
        assert Bit(a, i + 1) ==> i + 1 < n;
      }
      BoundedBits(a / 2, n - 1);
    }
  }
}
