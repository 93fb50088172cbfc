/** Packet encryption and packet-count key rotation of src/matf_vpn/crypto.py. */
module Ciphers {
  import opened Outcome
  import opened Octets
  import opened Protocol
  import opened Sequences
  import opened Lru

  const AES_KEY_SIZE: nat := 32
  const MINIMUM_PRESHARED_KEY_SIZE: nat := 32
  const ROTATION_CIPHER_CACHE_SIZE: nat := 2
  const KEY_DERIVATION_CONTEXT: Bytes := Ascii("matf-vpn-v1 directional keys")
  const KEY_ROTATION_CONTEXT: Bytes := Ascii("matf-vpn-v1 packet-count key rotation")

  datatype Role = CLIENT | SERVER

  function Opposite(role: Role): Role {
    if role == CLIENT then SERVER else CLIENT
  }

  function Nonce(sessionId: nat, sequence: nat): (r: Bytes)
    ensures |r| == 12
  {
    BigEndian(sessionId, 4) + BigEndian(sequence, 8)
  }

  lemma NonceInjective(i: nat, s: nat, i': nat, s': nat)
    requires i <= MAX_SESSION_ID && s <= MAX_SEQUENCE_NUMBER
    requires i' <= MAX_SESSION_ID && s' <= MAX_SEQUENCE_NUMBER
    requires Nonce(i, s) == Nonce(i', s')
    ensures i == i' && s == s'
  {
    WidthLimits();
    SplitConcat(BigEndian(i, 4), BigEndian(s, 8), BigEndian(i', 4), BigEndian(s', 8));
    BigEndianInjective(i, i', 4);
    BigEndianInjective(s, s', 8);
  }

  /** The nonce is the session and sequence number exactly as they stand in the packet's header. */
  lemma NonceIsInHeader(p: Packet)
    requires Encode(p).Ok?
    ensures Nonce(p.sessionId, p.sequence) == Encode(p).value[2..14]
  {
    WireLayout(p);
    var d := Encode(p).value;
    assert d[2..14] == d[2..6] + d[6..14];
  }

  // ----- one key pair

  datatype PacketCipher = PacketCipher(sendKey: Bytes, receiveKey: Bytes) {
    function Encrypt(p: Packet): Result<Packet> {
      if |p.payload| > MAX_PAYLOAD_SIZE - TAG_SIZE then Err(ValueError)
      else if !FieldsFit(p) then Err(OverflowError)
      else
        var size := |p.payload| + TAG_SIZE;
        var header := Header(p.kind, p.sessionId, p.sequence, size);
        Ok(p.(payload := Seal(sendKey, Nonce(p.sessionId, p.sequence), header, p.payload)))
    }

    function Decrypt(p: Packet): Result<Packet> {
      if !FieldsFit(p) then Err(OverflowError)
      else if |p.payload| >= 0x1_0000 then Err(StructError)
      else
        var header := Header(p.kind, p.sessionId, p.sequence, |p.payload|);
        match Open(receiveKey, Nonce(p.sessionId, p.sequence), header, p.payload)
        case None => Err(InvalidTag)
        case Some(plaintext) => Ok(p.(payload := plaintext))
    }
  }

  /** The 64 octets of directional key material; the first half is the client-to-server key. */
  function KeyMaterial(psk: Bytes, sessionId: nat): (r: Bytes)
    ensures |r| == 2 * AES_KEY_SIZE
  {
    Spread(Derived(psk, BigEndian(sessionId, 4), KEY_DERIVATION_CONTEXT), 2 * AES_KEY_SIZE)
  }

  function FromPresharedKey(psk: Bytes, sessionId: int, role: Role): Result<PacketCipher> {
    if |psk| < MINIMUM_PRESHARED_KEY_SIZE then Err(ValueError)
    else if !(0 <= sessionId <= MAX_SESSION_ID) then Err(ValueError)
    else
      var material := KeyMaterial(psk, sessionId);
      var clientToServer, serverToClient := material[..AES_KEY_SIZE], material[AES_KEY_SIZE..];
      match role
      case CLIENT => Ok(PacketCipher(clientToServer, serverToClient))
      case SERVER => Ok(PacketCipher(serverToClient, clientToServer))
  }

  // ----- what `create_cipher` was given determines the cipher used for every sequence number

  datatype CipherSpec = CipherSpec(secret: Bytes, sessionId: int, role: Role, packetsPerKey: nat) {
    predicate Usable() {
      |secret| >= MINIMUM_PRESHARED_KEY_SIZE && 0 <= sessionId <= MAX_SESSION_ID
    }

    function Mirror(): CipherSpec {
      this.(role := Opposite(role))
    }

    function Epoch(sequence: nat): nat {
      if packetsPerKey == 0 then 0 else sequence / packetsPerKey
    }

    /** The secret from which the directional keys of one epoch come. */
    function EpochSecret(epoch: nat): Bytes
      requires Usable()
    {
      if packetsPerKey == 0 then secret
      else Spread(Derived(secret, BigEndian(sessionId, 4) + BigEndian(epoch, 8), KEY_ROTATION_CONTEXT), 32)
    }

    /** A fresh derivation of the cipher of one epoch. */
    function EpochCipher(epoch: nat): Result<PacketCipher>
      requires Usable()
    {
      if epoch > MAX_SEQUENCE_NUMBER then Err(OverflowError)
      else FromPresharedKey(EpochSecret(epoch), sessionId, role)
    }

    function At(sequence: int): Result<PacketCipher>
      requires Usable()
    {
      if packetsPerKey == 0 then FromPresharedKey(secret, sessionId, role)
      else if sequence < 0 then Err(ValueError)
      else EpochCipher(Epoch(sequence))
    }

    function Encrypt(p: Packet): Result<Packet>
      requires Usable()
    {
      match At(p.sequence) case Err(e) => Err(e) case Ok(c) => c.Encrypt(p)
    }

    function Decrypt(p: Packet): Result<Packet>
      requires Usable()
    {
      match At(p.sequence) case Err(e) => Err(e) case Ok(c) => c.Decrypt(p)
    }
  }

  function CreateCipher(secret: Bytes, sessionId: int, role: Role, packetsPerKey: int): (r: Result<CipherSpec>)
    ensures r.Ok? <==> packetsPerKey >= 0 && |secret| >= 32 && 0 <= sessionId <= MAX_SESSION_ID
    ensures r.Ok? ==> r.value.Usable() && (r.value.secret, r.value.sessionId, r.value.role) == (secret, sessionId, role)
    ensures r.Ok? ==> r.value.packetsPerKey == packetsPerKey
    ensures r.Err? ==> r.error == ValueError
  {
    if packetsPerKey < 0 then Err(ValueError)
    else if |secret| < MINIMUM_PRESHARED_KEY_SIZE then Err(ValueError)
    else if !(0 <= sessionId <= MAX_SESSION_ID) then Err(ValueError)
    else Ok(CipherSpec(secret, sessionId, role, packetsPerKey))
  }

  // ----- keys

  /** The directional keys used for sequence number `n`. */
  ghost function ClientKey(spec: CipherSpec, n: nat): Bytes
    requires spec.Usable()
  {
    KeyMaterial(spec.EpochSecret(spec.Epoch(n)), spec.sessionId)[..AES_KEY_SIZE]
  }

  ghost function ServerKey(spec: CipherSpec, n: nat): Bytes
    requires spec.Usable()
  {
    KeyMaterial(spec.EpochSecret(spec.Epoch(n)), spec.sessionId)[AES_KEY_SIZE..]
  }

  ghost function SendKey(spec: CipherSpec, n: nat): Bytes
    requires spec.Usable()
  {
    if spec.role == CLIENT then ClientKey(spec, n) else ServerKey(spec, n)
  }

  lemma EpochWithin(n: nat, d: nat)
    requires d > 0
    ensures n / d <= n && d * (n / d) <= n < d * (n / d) + d
  {
    var q := n / d;
    assert n == q * d + n % d;
    assert q * d == d * q;
    Product(q, d);
  }

  lemma Product(q: nat, d: nat)
    requires d > 0
    ensures q <= q * d
  {
  }

  /** Every wire sequence number selects a cipher, whose keys are those of its direction. */
  lemma KeysAt(spec: CipherSpec, n: nat)
    requires spec.Usable() && n <= MAX_SEQUENCE_NUMBER
    ensures spec.At(n) == Ok(PacketCipher(SendKey(spec, n), SendKey(spec.Mirror(), n)))
    ensures |SendKey(spec, n)| == AES_KEY_SIZE
  {
    if spec.packetsPerKey > 0 { EpochWithin(n, spec.packetsPerKey); }
    assert spec.Mirror().EpochSecret(spec.Epoch(n)) == spec.EpochSecret(spec.Epoch(n));
  }

  /** The two directions never share a key, in whatever epochs. */
  lemma DirectionsSeparate(spec: CipherSpec, n: nat, m: nat)
    requires spec.Usable()
    ensures SendKey(spec, n) != SendKey(spec.Mirror(), m)
  {
    assert ClientKey(spec, n)[0].index == 0 && ServerKey(spec, m)[0].index == AES_KEY_SIZE;
    assert ClientKey(spec, m)[0].index == 0 && ServerKey(spec, n)[0].index == AES_KEY_SIZE;
    assert spec.Mirror().EpochSecret(spec.Epoch(m)) == spec.EpochSecret(spec.Epoch(m));
  }

  /** A key determines the secret, session and direction it was derived for, and the epoch. */
  lemma KeyDeterminesSpec(spec: CipherSpec, other: CipherSpec, n: nat, m: nat)
    requires spec.Usable() && other.Usable() && spec.packetsPerKey == other.packetsPerKey
    requires n <= MAX_SEQUENCE_NUMBER && m <= MAX_SEQUENCE_NUMBER
    requires SendKey(spec, n) == SendKey(other, m)
    ensures spec == other && spec.Epoch(n) == spec.Epoch(m)
  {
    var a, b := spec.EpochSecret(spec.Epoch(n)), other.EpochSecret(other.Epoch(m));
    var role := (r: Role) => if r == CLIENT then 0 else AES_KEY_SIZE;
    assert SendKey(spec, n)[0]
      == Part(Derived(a, BigEndian(spec.sessionId, 4), KEY_DERIVATION_CONTEXT), role(spec.role));
    assert SendKey(other, m)[0]
      == Part(Derived(b, BigEndian(other.sessionId, 4), KEY_DERIVATION_CONTEXT), role(other.role));
    WidthLimits();
    BigEndianInjective(spec.sessionId, other.sessionId, 4);
    if spec.packetsPerKey > 0 {
      assert a[0] == b[0];
      SplitConcat(BigEndian(spec.sessionId, 4), BigEndian(spec.Epoch(n), 8),
                  BigEndian(spec.sessionId, 4), BigEndian(spec.Epoch(m), 8));
      EpochWithin(n, spec.packetsPerKey);
      EpochWithin(m, spec.packetsPerKey);
      BigEndianInjective(spec.Epoch(n), spec.Epoch(m), 8);
    }
  }

  /** Within one direction, the key changes exactly when the epoch does. */
  lemma KeyChangesWithEpoch(spec: CipherSpec, n: nat, m: nat)
    requires spec.Usable() && n <= MAX_SEQUENCE_NUMBER && m <= MAX_SEQUENCE_NUMBER
    ensures SendKey(spec, n) == SendKey(spec, m) <==> spec.Epoch(n) == spec.Epoch(m)
  {
    if SendKey(spec, n) == SendKey(spec, m) { KeyDeterminesSpec(spec, spec, n, m); }
  }

  /** With rotation on, a key lasts exactly for the `packetsPerKey` numbers from one multiple to the next. */
  lemma KeyLasts(spec: CipherSpec, n: nat, m: nat)
    requires spec.Usable() && n <= MAX_SEQUENCE_NUMBER && m <= MAX_SEQUENCE_NUMBER
    ensures spec.packetsPerKey == 0 ==> SendKey(spec, n) == SendKey(spec, m)
    ensures spec.packetsPerKey > 0 ==>
      (SendKey(spec, n) == SendKey(spec, m) <==> n / spec.packetsPerKey == m / spec.packetsPerKey)
  {
    KeyChangesWithEpoch(spec, n, m);
  }

  /** Exactly what a key is: half of the material for its session's secret, or for that of its epoch. */
  lemma KeyOctets(spec: CipherSpec, n: nat, i: nat)
    requires spec.Usable() && n <= MAX_SEQUENCE_NUMBER && i < 32
    ensures |SendKey(spec, n)| == 32
    ensures var salt := BigEndian(spec.sessionId, 4);
      var secret := if spec.packetsPerKey == 0 then spec.secret
        else Spread(Derived(spec.secret, salt + BigEndian(n / spec.packetsPerKey, 8),
                            Ascii("matf-vpn-v1 packet-count key rotation")), 32);
      SendKey(spec, n)[i]
        == Part(Derived(secret, salt, Ascii("matf-vpn-v1 directional keys")), if spec.role == CLIENT then i else 32 + i)
  {
  }

  /** With rotation on, sequence numbers under one key lie within one run of `packetsPerKey` numbers. */
  lemma KeyUseBounded(spec: CipherSpec, ns: set<nat>, key: Bytes)
    requires spec.Usable() && spec.packetsPerKey > 0
    requires forall n :: n in ns ==> n <= MAX_SEQUENCE_NUMBER && SendKey(spec, n) == key
    ensures |ns| <= spec.packetsPerKey
  {
    if ns != {} {
      var m :| m in ns;
      var low := spec.packetsPerKey * spec.Epoch(m);
      forall n | n in ns ensures low <= n < low + spec.packetsPerKey {
        KeyChangesWithEpoch(spec, n, m);
        EpochWithin(n, spec.packetsPerKey);
      }
      IntervalSize(ns, low, spec.packetsPerKey);
    }
  }

  lemma {:induction false} IntervalSize(ns: set<nat>, low: nat, count: nat)
    requires forall n :: n in ns ==> low <= n < low + count
    ensures |ns| <= count
    decreases count
  {
    if count == 0 {
      assert ns == {};
    } else {
      var last := low + count - 1;
      IntervalSize(ns - {last}, low, count - 1);
      if last in ns { assert ns == (ns - {last}) + {last}; } else { assert ns == ns - {last}; }
    }
  }

  // ----- encryption and decryption

  lemma EncryptSucceeds(spec: CipherSpec, p: Packet)
    requires spec.Usable()
    ensures spec.Encrypt(p).Ok? <==> FieldsFit(p) && |p.payload| <= 65475
    ensures spec.Encrypt(p).Ok? ==>
      spec.Encrypt(p).value == p.(payload := Seal(SendKey(spec, p.sequence), Nonce(p.sessionId, p.sequence),
        Header(p.kind, p.sessionId, p.sequence, |p.payload| + TAG_SIZE), p.payload))
  {
    if FieldsFit(p) { KeysAt(spec, p.sequence); }
  }

  /**
   The peers of a session undo each other: what one end seals the other opens to the same packet, what one end opens
   the other sealed, and no end opens what it sealed itself.
   */
  lemma PeersInterop(spec: CipherSpec, p: Packet, q: Packet)
    requires spec.Usable()
    requires |q.payload| <= MAX_PAYLOAD_SIZE
    ensures spec.Encrypt(p) == Ok(q) <==> spec.Mirror().Decrypt(q) == Ok(p)
    ensures spec.Encrypt(p) == Ok(q) ==> spec.Decrypt(q) == Err(InvalidTag)
  {
    EncryptSucceeds(spec, p);
    if FieldsFit(q) {
      KeysAt(spec, q.sequence);
      KeysAt(spec.Mirror(), q.sequence);
      assert spec.Mirror().Mirror() == spec;
    } else {
      assert spec.Mirror().Decrypt(q).Err?;
    }
    if spec.Encrypt(p) == Ok(q) {
      var t := Sealed(SendKey(spec, p.sequence), Nonce(p.sessionId, p.sequence),
        Header(p.kind, p.sessionId, p.sequence, |p.payload| + TAG_SIZE), p.payload);
      assert q.payload[0] == Part(t, 0);
      DirectionsSeparate(spec, q.sequence, q.sequence);
    }
  }

  /** An encrypted packet fits a datagram, and the header authenticated with it is the one sent in front of it. */
  lemma AuthenticatedHeaderIsWireHeader(c: PacketCipher, p: Packet)
    requires c.Encrypt(p).Ok?
    ensures var q := c.Encrypt(p).value;
      && Encode(q).Ok? && |Encode(q).value| <= MAX_UDP_DATAGRAM_SIZE
      && q.payload == Seal(c.sendKey, Nonce(p.sessionId, p.sequence), Encode(q).value[..HEADER_SIZE], p.payload)
  {
  }

  /** The header checked on decryption is, byte for byte, the one received. */
  lemma DecryptChecksReceivedHeader(c: PacketCipher, data: Bytes)
    requires |data| <= MAX_UDP_DATAGRAM_SIZE && Decode(data).Ok?
    ensures var q := Decode(data).value;
      c.Decrypt(q) == match Open(c.receiveKey, Nonce(q.sessionId, q.sequence), data[..HEADER_SIZE], data[HEADER_SIZE..])
        case None => Err(InvalidTag)
        case Some(plaintext) => Ok(q.(payload := plaintext))
  {
    EncodeOfDecode(data);
    var q := Decode(data).value;
    HeaderFields(q.kind, q.sessionId, q.sequence, |q.payload|, q.payload);
  }

  // ----- the sealings a datagram carries

  ghost predicate SealsUnder(data: Bytes, key: Bytes) {
    exists o :: o in data && o.Part? && o.source.Sealed? && o.source.key == key
  }

  /** The datagram holds octets of a sealing under this key and nonce. */
  ghost predicate Seals(data: Bytes, key: Bytes, nonce: Bytes) {
    exists o :: o in data && o.Part? && o.source.Sealed? && o.source.key == key && o.source.nonce == nonce
  }

  ghost predicate IsSealed(data: Bytes) { exists key, nonce :: Seals(data, key, nonce) }

  /** The datagram is that of packet `p`, encrypted. */
  ghost predicate Carries(spec: CipherSpec, p: Packet, data: Bytes)
    requires spec.Usable()
  {
    spec.Encrypt(p).Ok? && Encode(spec.Encrypt(p).value) == Ok(data)
  }

  /** The pseudo-random octets of an encrypted packet's datagram all belong to the sealing of that packet. */
  lemma SealedOctets(spec: CipherSpec, p: Packet, data: Bytes, o: Octet)
    requires spec.Usable() && Carries(spec, p, data)
    requires o in data && o.Part?
    ensures o.source == Sealed(SendKey(spec, p.sequence), Nonce(p.sessionId, p.sequence),
      Header(p.kind, p.sessionId, p.sequence, |p.payload| + TAG_SIZE), p.payload)
    ensures FieldsFit(p) && |p.payload| + TAG_SIZE <= MAX_PAYLOAD_SIZE
  {
    EncryptSucceeds(spec, p);
    var q := spec.Encrypt(p).value;
    assert o in Header(q.kind, q.sessionId, q.sequence, |q.payload|) || o in q.payload;
  }

  /** Such a datagram seals under exactly one key and nonce. */
  lemma OneSealing(spec: CipherSpec, p: Packet, data: Bytes)
    requires spec.Usable() && Carries(spec, p, data)
    ensures FieldsFit(p)
    ensures forall key, nonce :: Seals(data, key, nonce) <==>
      key == SendKey(spec, p.sequence) && nonce == Nonce(p.sessionId, p.sequence)
    ensures forall key :: SealsUnder(data, key) <==> key == SendKey(spec, p.sequence)
  {
    EncryptSucceeds(spec, p);
    var q := spec.Encrypt(p).value;
    assert data[HEADER_SIZE] == q.payload[0] && q.payload[0].Part?;
    assert data[HEADER_SIZE] in data;
    hide Carries, Encode, CipherSpec.Encrypt;
    forall o | o in data && o.Part?
      ensures o.source.Sealed? && o.source.key == SendKey(spec, p.sequence)
      ensures o.source.nonce == Nonce(p.sessionId, p.sequence)
    {
      SealedOctets(spec, p, data, o);
    }
  }

  /** An octet of a sealing determines the cipher and the packet it was made with. */
  lemma SealingDeterminesPacket(spec: CipherSpec, q: Packet, other: CipherSpec, p: Packet, data: Bytes, o: Octet)
    requires spec.Usable() && FieldsFit(q) && |q.payload| + TAG_SIZE <= MAX_PAYLOAD_SIZE
    requires other.Usable() && other.packetsPerKey == spec.packetsPerKey && Carries(other, p, data)
    requires o in data && o.Part?
    requires o.source == Sealed(SendKey(spec, q.sequence), Nonce(q.sessionId, q.sequence),
      Header(q.kind, q.sessionId, q.sequence, |q.payload| + TAG_SIZE), q.payload)
    ensures other == spec && p == q
  {
    SealedOctets(other, p, data, o);
    hide SendKey, Nonce, Header, Carries;
    KeyDeterminesSpec(spec, other, q.sequence, p.sequence);
    NonceInjective(q.sessionId, q.sequence, p.sessionId, p.sequence);
    HeaderInjective(q.kind, q.sessionId, q.sequence, |q.payload| + TAG_SIZE, p.kind, p.sessionId, p.sequence,
                    |p.payload| + TAG_SIZE);
  }

  // ----- the rotating cipher and its two-entry cache

  ghost predicate Coherent(spec: CipherSpec, d: OrderedDict<nat, PacketCipher>, history: seq<nat>,
                           derivations: seq<nat>)
    requires spec.Usable()
  {
    && d.WellFormed()
    && d.order == Recent(history, ROTATION_CIPHER_CACHE_SIZE)
    && derivations == Misses(history, ROTATION_CIPHER_CACHE_SIZE)
    && forall e :: e in d.items ==> spec.EpochCipher(e) == Ok(d.items[e])
  }

  lemma CoherentHit(spec: CipherSpec, d: OrderedDict<nat, PacketCipher>, history: seq<nat>, derivations: seq<nat>,
                    epoch: nat)
    requires spec.Usable() && Coherent(spec, d, history, derivations) && epoch in d.items
    ensures Coherent(spec, d.MoveToEnd(epoch), history + [epoch], derivations)
  {
    OneMoreTouch(history, epoch, ROTATION_CIPHER_CACHE_SIZE);
    HitTouches(d, epoch, ROTATION_CIPHER_CACHE_SIZE);
  }

  lemma CoherentMiss(spec: CipherSpec, d: OrderedDict<nat, PacketCipher>, history: seq<nat>, derivations: seq<nat>,
                     epoch: nat, c: PacketCipher)
    requires spec.Usable() && Coherent(spec, d, history, derivations) && epoch !in d.items
    requires spec.EpochCipher(epoch) == Ok(c)
    ensures Coherent(spec, Store(d, epoch, c, ROTATION_CIPHER_CACHE_SIZE), history + [epoch], derivations + [epoch])
  {
    OneMoreTouch(history, epoch, ROTATION_CIPHER_CACHE_SIZE);
    MissTouches(d, epoch, c, ROTATION_CIPHER_CACHE_SIZE);
  }

  class RotatingPacketCipher {
    const spec: CipherSpec
    var ciphers: OrderedDict<nat, PacketCipher>
    ghost var history: seq<nat>       // epochs asked for
    ghost var derivations: seq<nat>   // epochs whose keys were derived

    ghost predicate Valid()
      reads this
    {
      spec.Usable() && spec.packetsPerKey > 0 && Coherent(spec, ciphers, history, derivations)
    }

    constructor (spec: CipherSpec)
      requires spec.Usable() && spec.packetsPerKey > 0
      ensures Valid() && this.spec == spec && history == []
    {
      this.spec := spec;
      ciphers := OrderedDict([], map[]);
      history, derivations := [], [];
    }

    /** The cache is invisible: the answer is always that of a fresh derivation. */
    method CipherFor(sequence: int) returns (r: Result<PacketCipher>)
      requires Valid()
      modifies this
      ensures Valid()
      ensures r == spec.At(sequence)
      ensures r.Ok? ==> sequence >= 0 && history == old(history) + [sequence / spec.packetsPerKey]
      ensures r.Err? ==> history == old(history)
      ensures r.Err? <==> sequence < 0 || sequence / spec.packetsPerKey > MAX_SEQUENCE_NUMBER
    {
      if sequence < 0 { return Err(ValueError); }
      var epoch: nat := sequence / spec.packetsPerKey;
      assert spec.At(sequence) == spec.EpochCipher(epoch);
      if epoch in ciphers.items {
        CoherentHit(spec, ciphers, history, derivations, epoch);
        ciphers := ciphers.MoveToEnd(epoch);
        history := history + [epoch];
        return Ok(ciphers.items[epoch]);
      }
      if epoch > MAX_SEQUENCE_NUMBER { return Err(OverflowError); }
      r := FromPresharedKey(spec.EpochSecret(epoch), spec.sessionId, spec.role);
      CoherentMiss(spec, ciphers, history, derivations, epoch, r.value);
      ciphers := ciphers.Insert(epoch, r.value);
      if |ciphers.order| > ROTATION_CIPHER_CACHE_SIZE {
        ciphers := ciphers.PopFirst();
      }
      history, derivations := history + [epoch], derivations + [epoch];
    }

    method Encrypt(p: Packet) returns (r: Result<Packet>)
      requires Valid()
      modifies this
      ensures Valid() && r == spec.Encrypt(p)
    {
      var c := CipherFor(p.sequence);
      r := if c.Err? then Err(c.error) else c.value.Encrypt(p);
    }

    method Decrypt(p: Packet) returns (r: Result<Packet>)
      requires Valid()
      modifies this
      ensures Valid() && r == spec.Decrypt(p)
    {
      var c := CipherFor(p.sequence);
      r := if c.Err? then Err(c.error) else c.value.Decrypt(p);
    }
  }

  /** Any access history leaves the two most recently used epochs in the cache, and in order derives each epoch once. */
  lemma CacheAfterHistory(c: RotatingPacketCipher)
    requires c.Valid()
    ensures forall e :: e in c.ciphers.items <==> e in c.history && |Since(c.history, e)| < 2
    ensures |c.ciphers.order| <= 2
    ensures (forall i, j :: 0 <= i < j < |c.history| ==> c.history[i] <= c.history[j]) ==>
      && (forall e :: e in c.derivations <==> e in c.history)
      && Distinct(c.derivations)
  {
    CacheHoldsMostRecent(c.history, ROTATION_CIPHER_CACHE_SIZE);
    if forall i, j :: 0 <= i < j < |c.history| ==> c.history[i] <= c.history[j] {
      MonotoneMissesOnce(c.history, ROTATION_CIPHER_CACHE_SIZE);
    }
  }

  // ----- the cipher object an endpoint holds

  datatype Cipher = Fixed(cipher: PacketCipher) | Rotating(rotating: RotatingPacketCipher)

  ghost function Footprint(c: Cipher): set<object> {
    if c.Rotating? then {c.rotating} else {}
  }

  ghost predicate Implements(c: Cipher, spec: CipherSpec)
    reads Footprint(c)
  {
    && spec.Usable()
    && match c
       case Fixed(cipher) =>
         spec.packetsPerKey == 0 && FromPresharedKey(spec.secret, spec.sessionId, spec.role) == Ok(cipher)
       case Rotating(r) => r.spec == spec && r.Valid()
  }

  method NewCipher(spec: CipherSpec) returns (c: Cipher)
    requires spec.Usable()
    ensures Implements(c, spec) && fresh(Footprint(c))
  {
    if spec.packetsPerKey == 0 {
      c := Fixed(FromPresharedKey(spec.secret, spec.sessionId, spec.role).value);
    } else {
      var r := new RotatingPacketCipher(spec);
      c := Rotating(r);
    }
  }

  method EncryptWith(c: Cipher, ghost spec: CipherSpec, p: Packet) returns (r: Result<Packet>)
    requires Implements(c, spec)
    modifies Footprint(c)
    ensures Implements(c, spec) && r == spec.Encrypt(p)
  {
    match c
    case Fixed(cipher) => r := cipher.Encrypt(p);
    case Rotating(rotating) => r := rotating.Encrypt(p);
  }

  method DecryptWith(c: Cipher, ghost spec: CipherSpec, p: Packet) returns (r: Result<Packet>)
    requires Implements(c, spec)
    modifies Footprint(c)
    ensures Implements(c, spec) && r == spec.Decrypt(p)
  {
    match c
    case Fixed(cipher) => r := cipher.Decrypt(p);
    case Rotating(rotating) => r := rotating.Decrypt(p);
  }
}
