/** The wire format of src/matf_vpn/protocol.py. */
module Protocol {
  import opened Outcome
  import opened Octets

  const PROTOCOL_VERSION: Byte := 1
  const HEADER_SIZE: nat := 16
  const MAX_UDP_DATAGRAM_SIZE: nat := 65507
  const MAX_PAYLOAD_SIZE: nat := MAX_UDP_DATAGRAM_SIZE - HEADER_SIZE
  const MAX_SESSION_ID: nat := 0xFFFF_FFFF
  const MAX_SEQUENCE_NUMBER: nat := 0xFFFF_FFFF_FFFF_FFFF

  datatype MessageType = DATA | KEEPALIVE | CLIENT_HELLO | SERVER_HELLO

  datatype Packet = Packet(kind: MessageType, sessionId: int, sequence: int, payload: Bytes)

  function Code(kind: MessageType): (r: Byte)
    ensures KindOf(r) == Some(kind)
  {
    match kind
    case DATA => 1
    case KEEPALIVE => 2
    case CLIENT_HELLO => 3
    case SERVER_HELLO => 4
  }

  function KindOf(code: int): (r: Option<MessageType>)
  {
    if code == 1 then Some(DATA)
    else if code == 2 then Some(KEEPALIVE)
    else if code == 3 then Some(CLIENT_HELLO)
    else if code == 4 then Some(SERVER_HELLO)
    else None
  }

  predicate FieldsFit(p: Packet) {
    0 <= p.sessionId <= MAX_SESSION_ID && 0 <= p.sequence <= MAX_SEQUENCE_NUMBER
  }

  /** `HEADER.pack`: one byte each for version and type, then 4, 8 and 2 bytes, big-endian. */
  function Header(kind: MessageType, sessionId: nat, sequence: nat, size: nat): (r: Bytes)
    ensures |r| == HEADER_SIZE
    ensures forall o :: o in r ==> o.Lit?
  {
    [Lit(PROTOCOL_VERSION), Lit(Code(kind))] + BigEndian(sessionId, 4) + BigEndian(sequence, 8) + BigEndian(size, 2)
  }

  function Encode(p: Packet): Result<Bytes> {
    if !(0 <= p.sessionId <= MAX_SESSION_ID) then Err(ValueError)
    else if !(0 <= p.sequence <= MAX_SEQUENCE_NUMBER) then Err(ValueError)
    else if |p.payload| > MAX_PAYLOAD_SIZE then Err(ValueError)
    else Ok(Header(p.kind, p.sessionId, p.sequence, |p.payload|) + p.payload)
  }

  function Decode(data: Bytes): Result<Packet> {
    if |data| < HEADER_SIZE then Err(InvalidPacket)
    else
      match (Number(data[..1]), Number(data[1..2]), Number(data[2..6]), Number(data[6..14]), Number(data[14..16]))
      case (Some(version), Some(code), Some(sessionId), Some(sequence), Some(size)) =>
        if version != PROTOCOL_VERSION then Err(InvalidPacket)
        else if |data| != HEADER_SIZE + size then Err(InvalidPacket)
        else if KindOf(code).None? then Err(InvalidPacket)
        else Ok(Packet(KindOf(code).value, sessionId, sequence, data[HEADER_SIZE..]))
      case _ => Err(InvalidPacket)
  }

  lemma FieldSlices<T>(a: seq<T>, b: seq<T>, c: seq<T>, e: seq<T>, rest: seq<T>)
    requires |a| == 2 && |b| == 4 && |c| == 8 && |e| == 2
    ensures var d := a + b + c + e + rest;
      d[..2] == a && d[2..6] == b && d[6..14] == c && d[14..16] == e && d[..16] == a + b + c + e && d[16..] == rest
  {
  }

  lemma HeaderFields(kind: MessageType, sessionId: nat, sequence: nat, size: nat, rest: Bytes)
    requires sessionId <= MAX_SESSION_ID && sequence <= MAX_SEQUENCE_NUMBER && size < 0x1_0000
    ensures var d := Header(kind, sessionId, sequence, size) + rest;
      && d[..1] == [Lit(PROTOCOL_VERSION)] && d[1..2] == [Lit(Code(kind))]
      && Number(d[2..6]) == Some(sessionId) && Number(d[6..14]) == Some(sequence) && Number(d[14..16]) == Some(size)
      && d[..HEADER_SIZE] == Header(kind, sessionId, sequence, size) && d[HEADER_SIZE..] == rest
  {
    var d := Header(kind, sessionId, sequence, size) + rest;
    WidthLimits();
    NumberOfBigEndian(sessionId, 4);
    NumberOfBigEndian(sequence, 8);
    NumberOfBigEndian(size, 2);
    var a := [Lit(PROTOCOL_VERSION), Lit(Code(kind))];
    FieldSlices(a, BigEndian(sessionId, 4), BigEndian(sequence, 8), BigEndian(size, 2), rest);
    assert d[..1] == d[..2][..1] && d[1..2] == d[..2][1..];
  }

  lemma OneByte(b: Byte)
    ensures Number([Lit(b)]) == Some(b)
  {
    assert [Lit(b)][..0] == [];
  }

  /** A header determines the fields it was packed from. */
  lemma HeaderInjective(k: MessageType, i: nat, s: nat, n: nat, k': MessageType, i': nat, s': nat, n': nat)
    requires i <= MAX_SESSION_ID && s <= MAX_SEQUENCE_NUMBER && n < 0x1_0000
    requires i' <= MAX_SESSION_ID && s' <= MAX_SEQUENCE_NUMBER && n' < 0x1_0000
    requires Header(k, i, s, n) == Header(k', i', s', n')
    ensures k == k' && i == i' && s == s' && n == n'
  {
    HeaderFields(k, i, s, n, []);
    HeaderFields(k', i', s', n', []);
    var h := Header(k, i, s, n);
    assert h + [] == h;
    assert Lit(Code(k)) == h[1..2][0] == Lit(Code(k'));
  }

  /** Encoding succeeds exactly on packets that fit, and decoding gives the packet back. */
  lemma DecodeOfEncode(p: Packet)
    ensures Encode(p).Ok? <==>
      && 0 <= p.sessionId <= 0xFFFF_FFFF && 0 <= p.sequence <= 0xFFFF_FFFF_FFFF_FFFF && |p.payload| <= 65491
    ensures Encode(p).Ok? ==> Decode(Encode(p).value) == Ok(p)
    ensures Encode(p).Ok? ==> 16 <= |Encode(p).value| <= 65507
  {
    if Encode(p).Ok? {
      HeaderFields(p.kind, p.sessionId, p.sequence, |p.payload|, p.payload);
      OneByte(PROTOCOL_VERSION);
      OneByte(Code(p.kind));
    }
  }

  /** Where each field of a packet stands on the wire. */
  lemma WireLayout(p: Packet)
    requires Encode(p).Ok?
    ensures var d := Encode(p).value;
      && |d| == 16 + |p.payload|
      && d[0] == Lit(1)
      && d[1] == Lit(match p.kind case DATA => 1 case KEEPALIVE => 2 case CLIENT_HELLO => 3 case SERVER_HELLO => 4)
      && d[2..6] == BigEndian(p.sessionId, 4) && d[6..14] == BigEndian(p.sequence, 8)
      && d[14..16] == BigEndian(|p.payload|, 2) && d[16..] == p.payload
  {
    var a := [Lit(PROTOCOL_VERSION), Lit(Code(p.kind))];
    FieldSlices(a, BigEndian(p.sessionId, 4), BigEndian(p.sequence, 8), BigEndian(|p.payload|, 2), p.payload);
    assert Encode(p).value[..2] == a;
  }

  /** What decoding accepts is the header of the decoded packet, whose fields fit, followed by its payload. */
  lemma DecodedParts(data: Bytes)
    requires Decode(data).Ok?
    ensures FieldsFit(Decode(data).value) && |Decode(data).value.payload| < 0x1_0000
    ensures var p := Decode(data).value;
      data == Header(p.kind, p.sessionId, p.sequence, |p.payload|) + p.payload
  {
    var p := Decode(data).value;
    WidthLimits();
    BigEndianOfNumber(data[2..6]);
    BigEndianOfNumber(data[6..14]);
    BigEndianOfNumber(data[14..16]);
    forall i | 0 <= i < 2 ensures data[i].Lit? && Number(data[i..i + 1]) == Some(data[i].value) {
      assert data[i] in data[i..i + 1];
      assert data[i..i + 1] == [data[i]];
      OneByte(data[i].value);
    }
    assert data[..1] == data[0..0 + 1] && data[1..2] == data[1..1 + 1];
    assert KindOf(data[1].value) == Some(p.kind) && Code(p.kind) == data[1].value;
    assert data == [data[0], data[1]] + data[2..6] + data[6..14] + data[14..16] + data[16..];
  }

  /**
   What decoding accepts fits the header fields, and is re-encoded unchanged unless it is longer than a UDP datagram.
   */
  lemma EncodeOfDecode(data: Bytes)
    requires Decode(data).Ok?
    ensures FieldsFit(Decode(data).value)
    ensures |data| == HEADER_SIZE + |Decode(data).value.payload|
    ensures Encode(Decode(data).value) == Ok(data) <==> |data| <= MAX_UDP_DATAGRAM_SIZE
  {
    DecodedParts(data);
  }

  /** The length field reaches further than a datagram: 65551 bytes can be accepted, and then not encoded. */
  lemma AcceptedButTooLong(data: Bytes)
    requires data == Header(DATA, 0, 0, 0xFFFF) + seq(0xFFFF, _ => Lit(0))
    ensures |data| == 65551
    ensures Decode(data).Ok? && Encode(Decode(data).value) == Err(ValueError)
  {
    HeaderFields(DATA, 0, 0, 0xFFFF, seq(0xFFFF, _ => Lit(0)));
    OneByte(PROTOCOL_VERSION);
    OneByte(Code(DATA));
  }

  /** Two byte strings that decode to one packet are the same. */
  lemma DecodeInjective(d: Bytes, d': Bytes)
    requires Decode(d).Ok? && Decode(d) == Decode(d')
    ensures d == d'
  {
    DecodedParts(d);
    DecodedParts(d');
  }
}
