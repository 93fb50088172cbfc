/**
 Byte strings and the cryptographic library, symbolically.

 A byte string is a sequence of octets.  An octet is either a literal byte or the
 `index`-th byte of the output of a cryptographic primitive, and such an output is a
 term that records exactly what went into it.  Two outputs are therefore equal only
 when their inputs are, while lengths, concatenation and slicing stay the real ones.
 */
module Octets {
  import opened Outcome

  type Byte = b: int | 0 <= b < 256

  datatype Octet = Lit(value: Byte) | Part(source: Term, index: nat)

  type Bytes = seq<Octet>

  datatype Term =
    | Random(id: nat)                                                        // secrets.token_bytes
    | Point(scalar: Bytes)                                                   // X25519 public key
    | Shared(ends: set<Bytes>)                                               // X25519 between two key pairs
    | Exchanged(scalar: Bytes, point: Bytes)                                 // X25519 with a foreign point
    | Mac(key: Bytes, message: Bytes)                                        // HMAC-SHA256
    | Digest(message: Bytes)                                                 // SHA-256
    | Derived(secret: Bytes, salt: Bytes, info: Bytes)                       // HKDF-SHA256
    | Sealed(key: Bytes, nonce: Bytes, header: Bytes, plaintext: Bytes)      // AES-256-GCM

  /** The first `length` octets of the output `t`. */
  function Spread(t: Term, length: nat): (r: Bytes)
    ensures |r| == length
    ensures forall i :: 0 <= i < length ==> r[i] == Part(t, i)
  {
    seq(length, i requires 0 <= i => Part(t, i))
  }

  lemma SpreadInjective(t: Term, u: Term, n: nat, m: nat)
    requires n > 0
    requires Spread(t, n) == Spread(u, m)
    ensures t == u && n == m
  {
    assert Spread(t, n)[0] == Part(t, 0);
    assert |Spread(u, m)| == m;
    assert Spread(u, m)[0] == Part(u, 0);
  }

  // ----- big-endian numbers

  function Pow256(width: nat): (p: nat)
    ensures p > 0
  {
    if width == 0 then 1 else 256 * Pow256(width - 1)
  }

  lemma WidthLimits()
    ensures Pow256(2) == 0x1_0000
    ensures Pow256(4) == 0x1_0000_0000
    ensures Pow256(8) == 0x1_0000_0000_0000_0000
  {
    assert Pow256(1) == 256;
    assert Pow256(3) == 0x100_0000;
    assert Pow256(5) == 0x100_0000_0000;
    assert Pow256(6) == 0x1_0000_0000_0000;
    assert Pow256(7) == 0x100_0000_0000_0000;
  }

  /** `value.to_bytes(width, "big")` for a value that fits. */
  function BigEndian(value: nat, width: nat): (r: Bytes)
    ensures |r| == width
    ensures forall o :: o in r ==> o.Lit?
  {
    if width == 0 then [] else BigEndian(value / 256, width - 1) + [Lit(value % 256)]
  }

  /** Division by 256 and then by `p` is division by both at once. */
  lemma DivideTwice(v: nat, p: nat)
    requires p > 0
    ensures v / 256 / p == v / (256 * p)
  {
    var q, r, s := v / 256 / p, v / 256 % p, v % 256;
    assert v / 256 == p * q + r;
    assert v == 256 * (p * q + r) + s == (256 * p) * q + (256 * r + s);
    QuotientUnique(v, 256 * p, q, 256 * r + s);
  }

  lemma QuotientUnique(v: nat, d: nat, q: nat, r: nat)
    requires d > 0 && r < d && v == d * q + r
    ensures v / d == q
  {
    var k := v / d;
    assert v == d * k + v % d;
    if k < q { Multiply(d, k + 1, q); }
    if k > q { Multiply(d, q + 1, k); }
  }

  lemma Multiply(d: nat, a: nat, b: nat)
    requires a <= b
    ensures d * a <= d * b && d * (a + 1) == d * a + d
    ensures a > 0 ==> d * (a - 1) == d * a - d
  {
  }

  /** The most significant byte comes first. */
  lemma {:induction false} BigEndianDigit(value: nat, width: nat, i: nat)
    requires i < width
    ensures BigEndian(value, width)[i] == Lit(value / Pow256(width - 1 - i) % 256)
    decreases width
  {
    if i < width - 1 {
      BigEndianDigit(value / 256, width - 1, i);
      DivideTwice(value, Pow256(width - 2 - i));
    }
  }

  /** The number a literal byte string stands for; pseudo-random octets have no numeric value. */
  function Number(bytes: Bytes): (r: Option<nat>)
    ensures r.Some? <==> forall o :: o in bytes ==> o.Lit?
  {
    if bytes == [] then Some(0)
    else
      var init, last := bytes[..|bytes| - 1], bytes[|bytes| - 1];
      assert bytes == init + [last];
      match Number(init)
      case None => None
      case Some(high) => if last.Lit? then Some(256 * high + last.value) else None
  }

  lemma {:induction false} NumberOfBigEndian(value: nat, width: nat)
    requires value < Pow256(width)
    ensures Number(BigEndian(value, width)) == Some(value)
  {
    if width > 0 {
      NumberOfBigEndian(value / 256, width - 1);
      assert BigEndian(value, width)[..width - 1] == BigEndian(value / 256, width - 1);
    }
  }

  lemma {:induction false} BigEndianOfNumber(bytes: Bytes)
    requires Number(bytes).Some?
    ensures Number(bytes).value < Pow256(|bytes|)
    ensures BigEndian(Number(bytes).value, |bytes|) == bytes
  {
    if bytes != [] {
      var init := bytes[..|bytes| - 1];
      BigEndianOfNumber(init);
      assert bytes == init + [bytes[|bytes| - 1]];
    }
  }

  lemma BigEndianInjective(v: nat, w: nat, width: nat)
    requires v < Pow256(width) && w < Pow256(width)
    requires BigEndian(v, width) == BigEndian(w, width)
    ensures v == w
  {
    NumberOfBigEndian(v, width);
    NumberOfBigEndian(w, width);
  }

  /** Concatenations whose first parts have one length split in one way. */
  lemma SplitConcat<T>(a: seq<T>, b: seq<T>, c: seq<T>, d: seq<T>)
    requires |a| == |c| && a + b == c + d
    ensures a == c && b == d
  {
    assert a == (a + b)[..|a|] == (c + d)[..|c|] == c;
    assert b == (a + b)[|a|..] == (c + d)[|c|..] == d;
  }

  /** An ASCII byte-string constant. */
  function Ascii(s: string): (r: Bytes)
    requires forall i :: 0 <= i < |s| ==> s[i] as int < 128
    ensures |r| == |s|
    ensures forall i :: 0 <= i < |s| ==> r[i] == Lit(s[i] as int)
  {
    seq(|s|, i requires 0 <= i < |s| => Lit(s[i] as int))
  }

  // ----- AES-256-GCM: opening succeeds exactly on a sealing with the same key, nonce and header

  const TAG_SIZE: nat := 16

  function Seal(key: Bytes, nonce: Bytes, header: Bytes, plaintext: Bytes): (r: Bytes)
    ensures |r| == |plaintext| + TAG_SIZE
  {
    Spread(Sealed(key, nonce, header, plaintext), |plaintext| + TAG_SIZE)
  }

  function Open(key: Bytes, nonce: Bytes, header: Bytes, ciphertext: Bytes): (r: Option<Bytes>)
    ensures forall p :: r == Some(p) <==> ciphertext == Seal(key, nonce, header, p)
  {
    if |ciphertext| > 0 && ciphertext[0].Part? && ciphertext[0].source.Sealed? then
      var p := ciphertext[0].source.plaintext;
      if ciphertext == Seal(key, nonce, header, p) then
        Some(p)
      else None
    else None
  }

  // ----- X25519

  const KEY_SIZE: nat := 32

  function PublicKey(scalar: Bytes): (r: Bytes)
    ensures |r| == KEY_SIZE
  {
    Spread(Point(scalar), KEY_SIZE)
  }

  /** The all-zero point stands for the low-order points, which the library refuses. */
  const LOW_ORDER_POINT: Bytes := BigEndian(0, KEY_SIZE)

  lemma ZeroPoint(point: Bytes)
    ensures |point| == KEY_SIZE ==> (point == LOW_ORDER_POINT <==> forall o :: o in point ==> o == Lit(0))
  {
    ZeroBytes(KEY_SIZE);
    if |point| == KEY_SIZE && forall o :: o in point ==> o == Lit(0) {
      forall i | 0 <= i < KEY_SIZE ensures point[i] == LOW_ORDER_POINT[i] {
        assert point[i] in point && LOW_ORDER_POINT[i] in LOW_ORDER_POINT;
      }
    }
  }

  lemma {:induction false} ZeroBytes(width: nat)
    ensures forall o :: o in BigEndian(0, width) ==> o == Lit(0)
  {
    if width > 0 { ZeroBytes(width - 1); }
  }

  function SharedSecret(scalar: Bytes, point: Bytes): (r: Result<Bytes>)
    ensures r.Ok? ==> |r.value| == KEY_SIZE
    ensures r.Err? <==> |scalar| != 32 || |point| != 32 || forall o :: o in point ==> o == Lit(0)
    ensures r.Err? ==> r.error == ValueError
  {
    ZeroPoint(point);
    if |scalar| != KEY_SIZE || |point| != KEY_SIZE || point == LOW_ORDER_POINT then Err(ValueError)
    else if point[0].Part? && point[0].source.Point? && point == PublicKey(point[0].source.scalar) then
      Ok(Spread(Shared({scalar, point[0].source.scalar}), KEY_SIZE))
    else
      Ok(Spread(Exchanged(scalar, point), KEY_SIZE))
  }

  /** Both owners of two key pairs compute the same secret. */
  lemma SharedSecretCommutes(a: Bytes, b: Bytes)
    requires |a| == KEY_SIZE && |b| == KEY_SIZE
    ensures SharedSecret(a, PublicKey(b)) == SharedSecret(b, PublicKey(a))
    ensures SharedSecret(a, PublicKey(b)) == Ok(Spread(Shared({a, b}), KEY_SIZE))
  {
    assert PublicKey(a)[0] == Part(Point(a), 0) && LOW_ORDER_POINT[0] in LOW_ORDER_POINT;
    assert PublicKey(b)[0] == Part(Point(b), 0);
    assert {a, b} == {b, a};
  }
}
