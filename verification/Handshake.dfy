/** The authenticated ephemeral key exchange of src/matf_vpn/handshake.py. */
module Handshake {
  import opened Outcome
  import opened Octets
  import opened Protocol
  import opened Transport
  import opened Ciphers

  const RANDOM_SIZE: nat := 32
  const AUTHENTICATION_TAG_SIZE: nat := 32
  const HELLO_PAYLOAD_SIZE: nat := 32 + RANDOM_SIZE + AUTHENTICATION_TAG_SIZE
  const HANDSHAKE_CONTEXT: Bytes := Ascii("matf-vpn-v1 ") + Ascii("authenticated ephemeral handshake")

  /** One use of the random source: an ephemeral private key and a 32-byte token. */
  datatype Draw = Draw(ephemeral: Bytes, token: nat) {
    predicate Proper() { |ephemeral| == KEY_SIZE }

    /** The ephemeral public key followed by the token. */
    function Body(): (r: Bytes)
      ensures |r| == 32 + RANDOM_SIZE && r[..32] == PublicKey(ephemeral)
    {
      PublicKey(ephemeral) + Spread(Random(token), RANDOM_SIZE)
    }
  }

  datatype ClientHandshakeState = ClientHandshakeState(
    sessionId: nat,
    staticPrivate: Bytes,
    peerStaticPublic: Bytes,
    ephemeralPrivate: Bytes,
    helloPayload: Bytes)

  datatype Hello = Hello(packet: Packet, state: ClientHandshakeState)
  datatype Acceptance = Acceptance(response: Packet, secret: Bytes)

  function AuthenticationTag(key: Bytes, transcript: Bytes): (r: Bytes)
    ensures |r| == AUTHENTICATION_TAG_SIZE
  {
    Spread(Mac(key, HANDSHAKE_CONTEXT + transcript), AUTHENTICATION_TAG_SIZE)
  }

  function ClientTranscript(sessionId: nat, body: Bytes): Bytes {
    Ascii("client") + (BigEndian(sessionId, 4) + body)
  }

  function ServerTranscript(sessionId: nat, hello: Bytes, body: Bytes): Bytes {
    Ascii("server") + (BigEndian(sessionId, 4) + (hello + body))
  }

  function ValidateHello(p: Packet, expected: MessageType): Option<Error> {
    if p.kind != expected then Some(ValueError)
    else if p.sequence != 0 || |p.payload| != HELLO_PAYLOAD_SIZE then Some(ValueError)
    else None
  }

  function DeriveSessionSecret(ephemeral: Bytes, peerEphemeral: Bytes, staticKey: Bytes, peerStatic: Bytes,
                               clientHello: Bytes, serverHello: Bytes, localIsClient: bool): (r: Result<Bytes>)
    ensures r.Ok? ==> |r.value| == 32
    ensures r.Err? ==> r.error == ValueError
  {
    var ephemeralEphemeral := SharedSecret(ephemeral, peerEphemeral);
    var ephemeralStatic :=
      if localIsClient then SharedSecret(ephemeral, peerStatic) else SharedSecret(staticKey, peerEphemeral);
    var staticEphemeral :=
      if localIsClient then SharedSecret(staticKey, peerEphemeral) else SharedSecret(ephemeral, peerStatic);
    var staticStatic := SharedSecret(staticKey, peerStatic);
    if ephemeralEphemeral.Err? || ephemeralStatic.Err? || staticEphemeral.Err? || staticStatic.Err? then Err(ValueError)
    else
      var transcriptHash := Spread(Digest(clientHello + serverHello), 32);
      var mix := ephemeralEphemeral.value + ephemeralStatic.value + staticEphemeral.value + staticStatic.value;
      Ok(Spread(Derived(mix, transcriptHash, HANDSHAKE_CONTEXT), 32))
  }

  function CreateClientHello(staticKey: Bytes, peerStatic: Bytes, sessionId: nat, draw: Draw): (r: Result<Hello>)
    requires sessionId <= MAX_SESSION_ID && draw.Proper()
    ensures r.Ok? ==> Encode(r.value.packet).Ok? && r.value.packet.payload == r.value.state.helloPayload
  {
    match SharedSecret(staticKey, peerStatic)
    case Err(e) => Err(e)
    case Ok(key) =>
      var payload := draw.Body() + AuthenticationTag(key, ClientTranscript(sessionId, draw.Body()));
      Ok(Hello(Packet(MessageType.CLIENT_HELLO, sessionId, 0, payload),
               ClientHandshakeState(sessionId, staticKey, peerStatic, draw.ephemeral, payload)))
  }

  function AcceptClientHello(p: Packet, staticKey: Bytes, peerStatic: Bytes, draw: Draw): (r: Result<Acceptance>)
    requires draw.Proper()
    ensures r.Ok? ==> Encode(r.value.response).Ok? && |r.value.secret| == 32 && 0 <= p.sessionId <= MAX_SESSION_ID
    ensures r.Err? && FieldsFit(p) ==> r.error == ValueError
  {
    if ValidateHello(p, MessageType.CLIENT_HELLO).Some? then Err(ValueError)
    else
      var split := |p.payload| - AUTHENTICATION_TAG_SIZE;
      var body, tag := p.payload[..split], p.payload[split..];
      match SharedSecret(staticKey, peerStatic)
      case Err(e) => Err(ValueError)
      case Ok(key) =>
        if !(0 <= p.sessionId <= MAX_SESSION_ID) then Err(OverflowError)
        else if tag != AuthenticationTag(key, ClientTranscript(p.sessionId, body)) then Err(ValueError)
        else
          var serverTag := AuthenticationTag(key, ServerTranscript(p.sessionId, p.payload, draw.Body()));
          var response := Packet(MessageType.SERVER_HELLO, p.sessionId, 0, draw.Body() + serverTag);
          match DeriveSessionSecret(draw.ephemeral, p.payload[..32], staticKey, peerStatic, p.payload,
                                    response.payload, false)
          case Err(e) => Err(e)
          case Ok(secret) => Ok(Acceptance(response, secret))
  }

  function FinishClientHandshake(state: ClientHandshakeState, response: Packet): (r: Result<Bytes>)
    ensures r.Ok? ==> |r.value| == 32
    ensures r.Err? ==> r.error == ValueError
  {
    if ValidateHello(response, MessageType.SERVER_HELLO).Some? then Err(ValueError)
    else if response.sessionId != state.sessionId then Err(ValueError)
    else
      var split := |response.payload| - AUTHENTICATION_TAG_SIZE;
      var body, tag := response.payload[..split], response.payload[split..];
      match SharedSecret(state.staticPrivate, state.peerStaticPublic)
      case Err(e) => Err(ValueError)
      case Ok(key) =>
        var transcript := ServerTranscript(state.sessionId, state.helloPayload, body);
        if tag != AuthenticationTag(key, transcript) then Err(ValueError)
        else
          DeriveSessionSecret(state.ephemeralPrivate, response.payload[..32], state.staticPrivate,
                              state.peerStaticPublic, state.helloPayload, response.payload, true)
  }

  // ----- agreement

  /** The secret of the X25519 exchange between two key pairs. */
  function Exchange(a: Bytes, b: Bytes): Bytes {
    Spread(Shared({a, b}), 32)
  }

  /** The four exchanges of a handshake: each ephemeral key with both keys of the other end, and the static keys. */
  function Exchanges(clientEphemeral: Bytes, serverEphemeral: Bytes, client: Bytes, server: Bytes): Bytes {
    Exchange(clientEphemeral, serverEphemeral) + Exchange(clientEphemeral, server)
      + Exchange(client, serverEphemeral) + Exchange(client, server)
  }

  /** One end's secret pins down all four exchanges that entered it, and the transcript. */
  lemma SecretDeterminesExchanges(e: Bytes, pe: Bytes, k: Bytes, ps: Bytes, h: Bytes, r: Bytes,
                                  e': Bytes, pe': Bytes, k': Bytes, ps': Bytes, h': Bytes, r': Bytes, client: bool)
    requires var secret := DeriveSessionSecret(e, pe, k, ps, h, r, client);
      secret.Ok? && secret == DeriveSessionSecret(e', pe', k', ps', h', r', client)
    ensures SharedSecret(e, pe) == SharedSecret(e', pe') && SharedSecret(e, ps) == SharedSecret(e', ps')
    ensures SharedSecret(k, pe) == SharedSecret(k', pe') && SharedSecret(k, ps) == SharedSecret(k', ps')
    ensures h + r == h' + r'
  {
    var s := DeriveSessionSecret(e, pe, k, ps, h, r, client).value;
    assert s[0].source.salt == Spread(Digest(h + r), 32) == Spread(Digest(h' + r'), 32);
    SpreadInjective(Digest(h + r), Digest(h' + r'), 32, 32);
    var a, d := SharedSecret(e, pe).value, SharedSecret(k, ps).value;
    var a', d' := SharedSecret(e', pe').value, SharedSecret(k', ps').value;
    var b := if client then SharedSecret(e, ps).value else SharedSecret(k, pe).value;
    var c := if client then SharedSecret(k, pe).value else SharedSecret(e, ps).value;
    var b' := if client then SharedSecret(e', ps').value else SharedSecret(k', pe').value;
    var c' := if client then SharedSecret(k', pe').value else SharedSecret(e', ps').value;
    assert s[0].source.secret == a + b + c + d == a' + b' + c' + d';
    FourParts(a, b, c, d, a', b', c', d');
  }

  lemma FourParts(a: Bytes, b: Bytes, c: Bytes, d: Bytes, a': Bytes, b': Bytes, c': Bytes, d': Bytes)
    requires |a| == |a'| && |b| == |b'| && |c| == |c'| && a + b + c + d == a' + b' + c' + d'
    ensures a == a' && b == b' && c == c' && d == d'
  {
    SplitConcat(a + b + c, d, a' + b' + c', d');
    SplitConcat(a + b, c, a' + b', c');
    SplitConcat(a, b, a', b');
  }

  /** The two roles mix the four exchanges differently and arrive at one secret. */
  lemma RolesDeriveSameSecret(ce: Bytes, se: Bytes, c: Bytes, s: Bytes, h: Bytes, r: Bytes)
    requires |ce| == |se| == |c| == |s| == KEY_SIZE
    ensures DeriveSessionSecret(ce, PublicKey(se), c, PublicKey(s), h, r, true)
         == DeriveSessionSecret(se, PublicKey(ce), s, PublicKey(c), h, r, false)
    ensures DeriveSessionSecret(ce, PublicKey(se), c, PublicKey(s), h, r, true)
         == Ok(Spread(Derived(Exchanges(ce, se, c, s), Spread(Digest(h + r), 32), HANDSHAKE_CONTEXT), 32))
  {
    SharedSecretCommutes(ce, se);
    SharedSecretCommutes(ce, s);
    SharedSecretCommutes(c, se);
    SharedSecretCommutes(c, s);
  }

  /** Handshakes between honest ends have one secret only if they share ephemeral keys, static keys and transcript. */
  lemma SecretDeterminesKeys(ce: Bytes, se: Bytes, c: Bytes, s: Bytes, h: Bytes, r: Bytes,
                             ce': Bytes, se': Bytes, c': Bytes, s': Bytes, h': Bytes, r': Bytes)
    requires |ce| == |se| == |c| == |s| == |ce'| == |se'| == |c'| == |s'| == KEY_SIZE
    requires DeriveSessionSecret(ce, PublicKey(se), c, PublicKey(s), h, r, true)
          == DeriveSessionSecret(ce', PublicKey(se'), c', PublicKey(s'), h', r', true)
    ensures {ce, se} == {ce', se'} && {ce, s} == {ce', s'} && {c, se} == {c', se'} && {c, s} == {c', s'}
    ensures h + r == h' + r'
  {
    RolesDeriveSameSecret(ce, se, c, s, h, r);
    SecretDeterminesExchanges(ce, PublicKey(se), c, PublicKey(s), h, r,
                              ce', PublicKey(se'), c', PublicKey(s'), h', r', true);
    SameEnds(ce, se, ce', se');
    SameEnds(ce, s, ce', s');
    SameEnds(c, se, c', se');
    SameEnds(c, s, c', s');
  }

  lemma SameEnds(a: Bytes, b: Bytes, a': Bytes, b': Bytes)
    requires |a| == |b| == |a'| == |b'| == KEY_SIZE && SharedSecret(a, PublicKey(b)) == SharedSecret(a', PublicKey(b'))
    ensures {a, b} == {a', b'}
  {
    SharedSecretCommutes(a, b);
    SharedSecretCommutes(a', b');
    SpreadInjective(Shared({a, b}), Shared({a', b'}), KEY_SIZE, KEY_SIZE);
  }

  /** Between configured peers, create, accept and finish always succeed, with one secret on both sides. */
  lemma HandshakeAgreement(c: Bytes, s: Bytes, sessionId: nat, cd: Draw, sd: Draw)
    requires |c| == KEY_SIZE && |s| == KEY_SIZE && sessionId <= MAX_SESSION_ID && cd.Proper() && sd.Proper()
    ensures var hello := CreateClientHello(c, PublicKey(s), sessionId, cd);
      && hello.Ok?
      && var accepted := AcceptClientHello(hello.value.packet, s, PublicKey(c), sd);
      && accepted.Ok?
      && FinishClientHandshake(hello.value.state, accepted.value.response) == Ok(accepted.value.secret)
      && var h, r := hello.value.packet.payload, accepted.value.response.payload;
      var mix := Exchanges(cd.ephemeral, sd.ephemeral, c, s);
      accepted.value.secret == Spread(Derived(mix, Spread(Digest(h + r), 32), HANDSHAKE_CONTEXT), 32)
  {
    SharedSecretCommutes(c, s);
    var hello := CreateClientHello(c, PublicKey(s), sessionId, cd).value;
    var payload := hello.packet.payload;
    assert payload[..64] == cd.Body();
    assert payload[..32] == cd.Body()[..32];
    var key := SharedSecret(c, PublicKey(s)).value;
    var response := sd.Body() + AuthenticationTag(key, ServerTranscript(sessionId, payload, sd.Body()));
    assert response[..64] == sd.Body();
    assert response[..32] == sd.Body()[..32];
    RolesDeriveSameSecret(cd.ephemeral, sd.ephemeral, c, s, payload, response);
  }

  /** HMAC-SHA256 of the context, the name of the role and the rest of its transcript. */
  function TagOf(key: Bytes, role: string, rest: Bytes): Bytes
    requires forall i :: 0 <= i < |role| ==> role[i] as int < 128
  {
    Spread(Mac(key, Ascii("matf-vpn-v1 ") + Ascii("authenticated ephemeral handshake") + (Ascii(role) + rest)), 32)
  }

  /** What a hello holds: a fresh public key, a fresh token, and a tag over the session and both. */
  lemma HelloLayout(staticKey: Bytes, peerStatic: Bytes, sessionId: nat, draw: Draw)
    requires sessionId <= MAX_SESSION_ID && draw.Proper()
    ensures CreateClientHello(staticKey, peerStatic, sessionId, draw).Ok? <==> SharedSecret(staticKey, peerStatic).Ok?
    ensures CreateClientHello(staticKey, peerStatic, sessionId, draw).Ok? ==>
      var p := CreateClientHello(staticKey, peerStatic, sessionId, draw).value.packet;
      && p.kind == MessageType.CLIENT_HELLO && p.sessionId == sessionId && p.sequence == 0 && |p.payload| == 96
      && p.payload[..32] == PublicKey(draw.ephemeral) && p.payload[32..64] == Spread(Random(draw.token), 32)
      && p.payload[64..]
           == TagOf(SharedSecret(staticKey, peerStatic).value, "client", BigEndian(sessionId, 4) + p.payload[..64])
  {
    if SharedSecret(staticKey, peerStatic).Ok? {
      var p := CreateClientHello(staticKey, peerStatic, sessionId, draw).value.packet;
      assert p.payload[..64] == draw.Body();
      BodyParts(p.payload, draw);
    }
  }

  /** What a response holds: a fresh public key, a fresh token, and a tag over the session, the hello and both. */
  lemma ResponseLayout(p: Packet, staticKey: Bytes, peerStatic: Bytes, draw: Draw)
    requires draw.Proper() && AcceptClientHello(p, staticKey, peerStatic, draw).Ok?
    ensures SharedSecret(staticKey, peerStatic).Ok?
    ensures var q := AcceptClientHello(p, staticKey, peerStatic, draw).value.response;
      && q.kind == MessageType.SERVER_HELLO && q.sessionId == p.sessionId && q.sequence == 0 && |q.payload| == 96
      && q.payload[..32] == PublicKey(draw.ephemeral) && q.payload[32..64] == Spread(Random(draw.token), 32)
      && q.payload[64..] == TagOf(SharedSecret(staticKey, peerStatic).value, "server",
                                  BigEndian(p.sessionId, 4) + (p.payload + q.payload[..64]))
  {
    var q := AcceptClientHello(p, staticKey, peerStatic, draw).value.response;
    assert q.payload[..64] == draw.Body();
    BodyParts(q.payload, draw);
  }

  lemma BodyParts(payload: Bytes, draw: Draw)
    requires draw.Proper() && |payload| >= 64 && payload[..64] == draw.Body()
    ensures payload[..32] == PublicKey(draw.ephemeral) && payload[32..64] == Spread(Random(draw.token), 32)
  {
    assert payload[..32] == payload[..64][..32] && payload[32..64] == payload[..64][32..];
  }

  /** The ciphers built from a completed handshake interoperate in both directions and reject their own. */
  lemma NegotiatedCiphersInterop(secret: Bytes, sessionId: nat, packetsPerKey: nat, p: Packet, q: Packet)
    requires |secret| == 32 && sessionId <= MAX_SESSION_ID && |q.payload| <= MAX_PAYLOAD_SIZE
    ensures var client := CreateCipher(secret, sessionId, Role.CLIENT, packetsPerKey);
      var server := CreateCipher(secret, sessionId, Role.SERVER, packetsPerKey);
      && client.Ok? && server.Ok? && server.value == client.value.Mirror()
      && (client.value.Encrypt(p) == Ok(q) <==> server.value.Decrypt(q) == Ok(p))
      && (server.value.Encrypt(p) == Ok(q) <==> client.value.Decrypt(q) == Ok(p))
      && (client.value.Encrypt(p) == Ok(q) ==> client.value.Decrypt(q) == Err(InvalidTag))
      && (server.value.Encrypt(p) == Ok(q) ==> server.value.Decrypt(q) == Err(InvalidTag))
  {
    var client := CreateCipher(secret, sessionId, Role.CLIENT, packetsPerKey).value;
    PeersInterop(client, p, q);
    PeersInterop(client.Mirror(), p, q);
    assert client.Mirror().Mirror() == client;
  }

  // ----- correspondence under an active network

  /** An `accept_client_hello` call: the packet it was given and the randomness it drew. */
  datatype AcceptCall = AcceptCall(hello: Packet, draw: Draw)
  datatype CreateCall = CreateCall(sessionId: nat, draw: Draw)

  /** A client and a server, configured for each other, with every handshake call either has made. */
  datatype World = World(client: Bytes, server: Bytes, creates: seq<CreateCall>, accepts: seq<AcceptCall>) {
    ghost predicate Proper() {
      && |client| == KEY_SIZE && |server| == KEY_SIZE
      && (forall c :: c in creates ==> c.sessionId <= MAX_SESSION_ID && c.draw.Proper())
      && (forall a :: a in accepts ==> a.draw.Proper())
    }

    /** The static secret that authenticates both hellos. */
    ghost function Key(): Bytes { Spread(Shared({client, server}), KEY_SIZE) }

    ghost function Created(c: CreateCall): Result<Hello>
      requires c.sessionId <= MAX_SESSION_ID && c.draw.Proper()
    {
      CreateClientHello(client, PublicKey(server), c.sessionId, c.draw)
    }

    ghost function Accepted(a: AcceptCall): Result<Acceptance>
      requires a.draw.Proper()
    {
      AcceptClientHello(a.hello, server, PublicKey(client), a.draw)
    }

    /** The octet was part of a handshake packet one of the two sent. */
    ghost predicate Emitted(o: Octet)
      requires Proper()
    {
      || (exists c :: c in creates && Created(c).Ok? && o in Created(c).value.packet.payload)
      || (exists a :: a in accepts && Accepted(a).Ok? && o in Accepted(a).value.response.payload)
    }

    /**
     What the network can deliver: anything at all, except that the octets of a tag under the static secret come
     from some packet of its two holders.
     */
    ghost predicate Deliverable(payload: Bytes)
      requires Proper()
    {
      forall o :: o in payload && o.Part? && o.source.Mac? && o.source.key == Key() ==> Emitted(o)
    }
  }

  /** The only tag octets a hello packet carries are those of its own tag. */
  lemma HelloTag(draw: Draw, key: Bytes, transcript: Bytes, o: Octet)
    requires o in draw.Body() + AuthenticationTag(key, transcript) && o.Part? && o.source.Mac?
    ensures o.source == Mac(key, HANDSHAKE_CONTEXT + transcript)
  {
    assert forall i :: 0 <= i < |draw.Body()| ==> draw.Body()[i].Part? && !draw.Body()[i].source.Mac?;
  }

  /** The octets of a response are those of a fresh public key, a token and the tag. */
  lemma ResponseOctets(p: Packet, staticKey: Bytes, peer: Bytes, draw: Draw, o: Octet)
    requires draw.Proper() && AcceptClientHello(p, staticKey, peer, draw).Ok?
    requires o in AcceptClientHello(p, staticKey, peer, draw).value.response.payload
    ensures o.Part? && !o.source.Sealed? && SharedSecret(staticKey, peer).Ok?
    ensures o.source.Mac? ==>
      o.source == Mac(SharedSecret(staticKey, peer).value,
                      HANDSHAKE_CONTEXT + ServerTranscript(p.sessionId, p.payload, draw.Body()))
  {
    assert forall i :: 0 <= i < |draw.Body()| ==>
      draw.Body()[i].Part? && !draw.Body()[i].source.Mac? && !draw.Body()[i].source.Sealed?;
  }

  /** Transcripts of the two roles never coincide. */
  lemma RolesUnambiguous(i: nat, body: Bytes, j: nat, hello: Bytes, body': Bytes)
    ensures HANDSHAKE_CONTEXT + ClientTranscript(i, body) != HANDSHAKE_CONTEXT + ServerTranscript(j, hello, body')
  {
    var c, s := ClientTranscript(i, body), ServerTranscript(j, hello, body');
    assert c[0] == Lit('c' as int) && s[0] == Lit('s' as int);
    if HANDSHAKE_CONTEXT + c == HANDSHAKE_CONTEXT + s {
      SplitConcat(HANDSHAKE_CONTEXT, c, HANDSHAKE_CONTEXT, s);
    }
  }

  /** A server transcript determines its session, hello and body, because all parts have fixed sizes. */
  lemma ServerTranscriptInjective(i: nat, hello: Bytes, body: Bytes, i': nat, hello': Bytes, body': Bytes)
    requires i <= MAX_SESSION_ID && i' <= MAX_SESSION_ID && |hello| == |hello'|
    requires HANDSHAKE_CONTEXT + ServerTranscript(i, hello, body)
      == HANDSHAKE_CONTEXT + ServerTranscript(i', hello', body')
    ensures i == i' && hello == hello' && body == body'
  {
    SplitConcat(HANDSHAKE_CONTEXT, ServerTranscript(i, hello, body), HANDSHAKE_CONTEXT,
                ServerTranscript(i', hello', body'));
    SplitConcat(Ascii("server"), BigEndian(i, 4) + (hello + body), Ascii("server"),
                BigEndian(i', 4) + (hello' + body'));
    SplitConcat(BigEndian(i, 4), hello + body, BigEndian(i', 4), hello' + body');
    SplitConcat(hello, body, hello', body');
    WidthLimits();
    BigEndianInjective(i, i', 4);
  }

  lemma ClientTranscriptInjective(i: nat, body: Bytes, i': nat, body': Bytes)
    requires i <= MAX_SESSION_ID && i' <= MAX_SESSION_ID
    requires HANDSHAKE_CONTEXT + ClientTranscript(i, body) == HANDSHAKE_CONTEXT + ClientTranscript(i', body')
    ensures i == i' && body == body'
  {
    SplitConcat(HANDSHAKE_CONTEXT, ClientTranscript(i, body), HANDSHAKE_CONTEXT, ClientTranscript(i', body'));
    SplitConcat(Ascii("client"), BigEndian(i, 4) + body, Ascii("client"), BigEndian(i', 4) + body');
    SplitConcat(BigEndian(i, 4), body, BigEndian(i', 4), body');
    WidthLimits();
    BigEndianInjective(i, i', 4);
  }

  /** Secrets differ between calls: one secret belongs to one hello, one response and one draw of randomness. */
  lemma SecretDeterminesCall(p: Packet, q: Packet, staticKey: Bytes, peer: Bytes, other: Bytes, draw: Draw, draw': Draw)
    requires draw.Proper() && draw'.Proper()
    requires AcceptClientHello(p, staticKey, peer, draw).Ok? && AcceptClientHello(q, staticKey, other, draw').Ok?
    requires AcceptClientHello(p, staticKey, peer, draw).value.secret
      == AcceptClientHello(q, staticKey, other, draw').value.secret
    ensures p == q && draw.token == draw'.token
    ensures AcceptClientHello(p, staticKey, peer, draw).value == AcceptClientHello(q, staticKey, other, draw').value
    ensures SharedSecret(staticKey, peer) == SharedSecret(staticKey, other)
  {
    var a, b := AcceptClientHello(p, staticKey, peer, draw).value, AcceptClientHello(q, staticKey, other, draw').value;
    SameTranscripts(p.payload, a.response.payload, q.payload, b.response.payload, a.secret, b.secret, draw, draw',
                    staticKey, peer, other);
    var r, s := a.response.payload, b.response.payload;
    assert r[..64] == draw.Body() && s[..64] == draw'.Body();
    assert draw.Body()[32] == draw'.Body()[32];
    var key, key' := SharedSecret(staticKey, peer).value, SharedSecret(staticKey, other).value;
    var t := ServerTranscript(p.sessionId, p.payload, draw.Body());
    var t' := ServerTranscript(q.sessionId, q.payload, draw'.Body());
    assert r[64] == Part(Mac(key, HANDSHAKE_CONTEXT + t), 0) && s[64] == Part(Mac(key', HANDSHAKE_CONTEXT + t'), 0);
    ServerTranscriptInjective(p.sessionId, p.payload, draw.Body(), q.sessionId, q.payload, draw'.Body());
  }

  /** The salt of the derivation pins both hellos down. */
  lemma SameTranscripts(h: Bytes, r: Bytes, h': Bytes, r': Bytes, secret: Bytes, secret': Bytes,
                        draw: Draw, draw': Draw, staticKey: Bytes, peer: Bytes, other: Bytes)
    requires |h| == |h'| && |h| >= 32 && secret == secret'
    requires DeriveSessionSecret(draw.ephemeral, h[..32], staticKey, peer, h, r, false) == Ok(secret)
    requires DeriveSessionSecret(draw'.ephemeral, h'[..32], staticKey, other, h', r', false) == Ok(secret')
    ensures h == h' && r == r'
  {
    assert secret[0].source.salt == Spread(Digest(h + r), 32);
    assert secret'[0].source.salt == Spread(Digest(h' + r'), 32);
    SpreadInjective(Digest(h + r), Digest(h' + r'), 32, 32);
    SplitConcat(h, r, h', r');
  }

  lemma WorldKey(w: World)
    requires w.Proper()
    ensures SharedSecret(w.client, PublicKey(w.server)) == Ok(w.Key())
    ensures SharedSecret(w.server, PublicKey(w.client)) == Ok(w.Key())
  {
    SharedSecretCommutes(w.client, w.server);
    SharedSecretCommutes(w.server, w.client);
    assert {w.client, w.server} == {w.server, w.client};
  }

  /** Who emitted a tag: a create call with that client transcript, or an accept call with that server transcript. */
  lemma TagOrigin(w: World, o: Octet) returns (c: Option<CreateCall>, a: Option<AcceptCall>)
    requires w.Proper() && w.Emitted(o) && o.Part? && o.source.Mac?
    ensures c.Some? || a.Some?
    ensures c.Some? ==>
      && c.value in w.creates && w.Created(c.value).Ok?
      && o.source == Mac(w.Key(), HANDSHAKE_CONTEXT + ClientTranscript(c.value.sessionId, c.value.draw.Body()))
    ensures a.Some? ==>
      && a.value in w.accepts && w.Accepted(a.value).Ok?
      && o.source == Mac(w.Key(), HANDSHAKE_CONTEXT
           + ServerTranscript(a.value.hello.sessionId, a.value.hello.payload, a.value.draw.Body()))
  {
    WorldKey(w);
    c, a := None, None;
    if call :| call in w.creates && w.Created(call).Ok? && o in w.Created(call).value.packet.payload {
      HelloTag(call.draw, w.Key(), ClientTranscript(call.sessionId, call.draw.Body()), o);
      c := Some(call);
    } else {
      var call :| call in w.accepts && w.Accepted(call).Ok? && o in w.Accepted(call).value.response.payload;
      HelloTag(call.draw, w.Key(), ServerTranscript(call.hello.sessionId, call.hello.payload, call.draw.Body()), o);
      a := Some(call);
    }
  }

  /**
   Correspondence for the client: a handshake it finishes was answered by an accept call on exactly its hello, which
   produced exactly this response and the same secret.
   */
  lemma FinishedMeansAccepted(w: World, c: CreateCall, response: Packet) returns (a: AcceptCall)
    requires w.Proper() && c in w.creates && w.Created(c).Ok?
    requires w.Deliverable(response.payload)
    requires FinishClientHandshake(w.Created(c).value.state, response).Ok?
    ensures a in w.accepts && a.hello == w.Created(c).value.packet
    ensures w.Accepted(a) == Ok(Acceptance(response, FinishClientHandshake(w.Created(c).value.state, response).value))
  {
    WorldKey(w);
    var state := w.Created(c).value.state;
    var body := response.payload[..64];
    var transcript := ServerTranscript(state.sessionId, state.helloPayload, body);
    assert response.payload[64..][0] == Part(Mac(w.Key(), HANDSHAKE_CONTEXT + transcript), 0);
    var o := response.payload[64];
    assert o in response.payload;
    var cc, aa := TagOrigin(w, o);
    if cc.Some? {
      RolesUnambiguous(cc.value.sessionId, cc.value.draw.Body(), state.sessionId, state.helloPayload, body);
      assert false;
    }
    a := aa.value;
    ServerTranscriptInjective(a.hello.sessionId, a.hello.payload, a.draw.Body(), state.sessionId, state.helloPayload,
                              body);
    assert response.payload == body + response.payload[64..];
    assert state.helloPayload[..32] == c.draw.Body()[..32];
    assert response.payload[..32] == a.draw.Body()[..32];
    RolesDeriveSameSecret(c.draw.ephemeral, a.draw.ephemeral, w.client, w.server, state.helloPayload, response.payload);
  }

  /** Correspondence for the server: an accepted hello is one its client created, unmodified. */
  lemma AcceptedMeansCreated(w: World, a: AcceptCall) returns (c: CreateCall)
    requires w.Proper() && a.draw.Proper() && w.Accepted(a).Ok?
    requires w.Deliverable(a.hello.payload)
    ensures c in w.creates && w.Created(c).Ok? && a.hello == w.Created(c).value.packet
  {
    WorldKey(w);
    var body := a.hello.payload[..64];
    assert a.hello.payload[64..][0]
      == Part(Mac(w.Key(), HANDSHAKE_CONTEXT + ClientTranscript(a.hello.sessionId, body)), 0);
    var o := a.hello.payload[64];
    assert o in a.hello.payload;
    var cc, aa := TagOrigin(w, o);
    if aa.Some? {
      RolesUnambiguous(a.hello.sessionId, body, aa.value.hello.sessionId, aa.value.hello.payload, aa.value.draw.Body());
      assert false;
    }
    c := cc.value;
    ClientTranscriptInjective(c.sessionId, c.draw.Body(), a.hello.sessionId, body);
    assert a.hello.payload == body + a.hello.payload[64..];
  }

  // ----- the retry loops

  function Limit(attempts: int): nat { if attempts < 0 then 0 else attempts }

  function ArrivalAt(arrivals: seq<Arrival>, k: nat): Arrival {
    if k < |arrivals| then arrivals[k] else Silence
  }

  /** The secret with which an arrival completes the client's handshake, if it does. */
  function Answer(state: ClientHandshakeState, remote: Address, arrival: Arrival): Result<Bytes> {
    match arrival
    case Silence => Err(TimeoutError)
    case Arrived(d) =>
      match Receive(d.data)
      case Err(e) => Err(e)
      case Ok(p) => if d.peer != remote then Err(ValueError) else FinishClientHandshake(state, p)
  }

  /**
   A whole client handshake on these arrivals: copies of one hello, up to the first arrival that completes it, whose
   secret makes the cipher, or up to the last allowed attempt.
   */
  ghost predicate ClientRan(h: Hello, remote: Address, attempts: nat, packetsPerKey: int, arrivals: seq<Arrival>,
                            r: Result<CipherSpec>, sent: seq<Datagram>)
    requires Encode(h.packet).Ok?
  {
    && |sent| <= attempts
    && (forall i :: 0 <= i < |sent| ==> sent[i] == Datagram(Encode(h.packet).value, remote))
    && (forall i :: 0 <= i < |sent| - 1 ==> Answer(h.state, remote, ArrivalAt(arrivals, i)).Err?)
    && (if |sent| > 0 && Answer(h.state, remote, ArrivalAt(arrivals, |sent| - 1)).Ok?
        then r == CreateCipher(Answer(h.state, remote, ArrivalAt(arrivals, |sent| - 1)).value, h.state.sessionId,
                               Role.CLIENT, packetsPerKey)
        else |sent| == attempts && r == Err(TimeoutError))
  }

  ghost predicate CameFrom(arrival: Arrival, remote: Address) {
    arrival.Arrived? && arrival.datagram.peer == remote
  }

  /** What completes a client's handshake: a response from the configured address that finishes it, and nothing else. */
  lemma AnswerIsPeers(state: ClientHandshakeState, remote: Address, arrival: Arrival, secret: Bytes)
    ensures Answer(state, remote, arrival) == Ok(secret) <==>
      && arrival.Arrived? && arrival.datagram.peer == remote
      && Receive(arrival.datagram.data).Ok?
      && FinishClientHandshake(state, Receive(arrival.datagram.data).value) == Ok(secret)
  {
  }

  /** What the server answers: an acceptable hello from the configured address, and nothing else. */
  lemma ServedIsPeers(staticKey: Bytes, peerStatic: Bytes, remote: Address, draw: Draw, arrival: Arrival,
                      served: Served)
    requires draw.Proper()
    ensures Serve(staticKey, peerStatic, remote, draw, arrival) == Ok(served) <==>
      && arrival.Arrived? && arrival.datagram.peer == remote
      && Receive(arrival.datagram.data).Ok?
      && var p := Receive(arrival.datagram.data).value;
      p.sessionId == served.sessionId && AcceptClientHello(p, staticKey, peerStatic, draw) == Ok(served.acceptance)
  {
  }

  method RunClientHandshake(remote: Address, staticKey: Bytes, peerStatic: Bytes, attempts: int, packetsPerKey: int,
                            sessionId: nat, draw: Draw, arrivals: seq<Arrival>)
    returns (r: Result<CipherSpec>, sent: seq<Datagram>)
    requires sessionId <= MAX_SESSION_ID && draw.Proper()
    ensures var hello := CreateClientHello(staticKey, peerStatic, sessionId, draw);
      match hello
      case Err(e) => r == Err(e) && sent == []
      case Ok(h) =>
        h.state.sessionId == sessionId && ClientRan(h, remote, Limit(attempts), packetsPerKey, arrivals, r, sent)
    ensures |sent| <= if attempts > 0 then attempts else 0
    ensures r == Err(TimeoutError) ==> |sent| == if attempts > 0 then attempts else 0
    ensures r.Ok? ==> 0 < |sent| <= |arrivals| && CameFrom(arrivals[|sent| - 1], remote)
  {
    hide FinishClientHandshake, CreateCipher, Receive, Encode, Draw.Proper;
    sent := [];
    var hello := CreateClientHello(staticKey, peerStatic, sessionId, draw);
    assert hello.Ok? ==> hello.value.state.sessionId == sessionId;
    hide CreateClientHello;
    if hello.Err? { return Err(hello.error), []; }
    var state := hello.value.state;
    for k := 0 to Limit(attempts)
      invariant |sent| == k
      invariant forall i :: 0 <= i < k ==> sent[i] == Datagram(Encode(hello.value.packet).value, remote)
      invariant forall i :: 0 <= i < k ==> Answer(state, remote, ArrivalAt(arrivals, i)).Err?
    {
      sent := sent + [Datagram(Encode(hello.value.packet).value, remote)];
      var arrival := ArrivalAt(arrivals, k);
      if arrival.Silence? { continue; }
      var response := Receive(arrival.datagram.data);
      if response.Err? { continue; }
      if arrival.datagram.peer != remote { continue; }
      var secret := FinishClientHandshake(state, response.value);
      if secret.Err? { continue; }
      return CreateCipher(secret.value, state.sessionId, Role.CLIENT, packetsPerKey), sent;
    }
    return Err(TimeoutError), sent;
  }

  datatype Served = Served(sessionId: nat, acceptance: Acceptance)

  /** The acceptance of the client hello in an arrival, if it carries one. */
  function Serve(staticKey: Bytes, peerStatic: Bytes, remote: Address, draw: Draw, arrival: Arrival)
    : (r: Result<Served>)
    requires draw.Proper()
    ensures r.Ok? ==> Encode(r.value.acceptance.response).Ok?
  {
    match arrival
    case Silence => Err(TimeoutError)
    case Arrived(d) =>
      match Receive(d.data)
      case Err(e) => Err(e)
      case Ok(p) =>
        if d.peer != remote then Err(ValueError)
        else
          match AcceptClientHello(p, staticKey, peerStatic, draw)
          case Err(e) => Err(e)
          case Ok(a) => Ok(Served(p.sessionId, a))
  }

  /** One receive of the server's loop. */
  method TryServe(staticKey: Bytes, peerStatic: Bytes, remote: Address, draw: Draw, arrival: Arrival)
    returns (r: Result<Served>)
    requires draw.Proper()
    ensures r == Serve(staticKey, peerStatic, remote, draw, arrival)
  {
    if arrival.Silence? { return Err(TimeoutError); }
    var hello := Receive(arrival.datagram.data);
    if hello.Err? { return Err(hello.error); }
    if arrival.datagram.peer != remote { return Err(ValueError); }
    var accepted := AcceptClientHello(hello.value, staticKey, peerStatic, draw);
    if accepted.Err? { return Err(accepted.error); }
    return Ok(Served(hello.value.sessionId, accepted.value));
  }

  ghost predicate NoneServed(staticKey: Bytes, peerStatic: Bytes, remote: Address, draw: Draw, arrivals: seq<Arrival>,
                             n: nat)
    requires draw.Proper()
  {
    forall i :: 0 <= i < n ==> Serve(staticKey, peerStatic, remote, draw, ArrivalAt(arrivals, i)).Err?
  }

  /** Arrival `k` is the first of the allowed ones to carry an acceptable hello. */
  ghost predicate ServedFirst(staticKey: Bytes, peerStatic: Bytes, remote: Address, draw: Draw, arrivals: seq<Arrival>,
                              k: nat, attempts: nat)
    requires draw.Proper()
  {
    && k < attempts && NoneServed(staticKey, peerStatic, remote, draw, arrivals, k)
    && Serve(staticKey, peerStatic, remote, draw, ArrivalAt(arrivals, k)).Ok?
  }

  /**
   A whole server handshake on these arrivals: the first acceptable hello is answered, once, or none arrives in time.
   */
  ghost predicate ServerRan(staticKey: Bytes, peerStatic: Bytes, remote: Address, draw: Draw, attempts: nat,
                            packetsPerKey: int, arrivals: seq<Arrival>, r: Result<CipherSpec>, sent: seq<Datagram>)
    requires draw.Proper()
  {
    || (sent == [] && r == Err(TimeoutError) && NoneServed(staticKey, peerStatic, remote, draw, arrivals, attempts))
    || exists k: nat :: ServedFirst(staticKey, peerStatic, remote, draw, arrivals, k, attempts) &&
         var served := Serve(staticKey, peerStatic, remote, draw, ArrivalAt(arrivals, k)).value;
         && sent == [Datagram(Encode(served.acceptance.response).value, remote)]
         && r == CreateCipher(served.acceptance.secret, served.sessionId, Role.SERVER, packetsPerKey)
  }

  method RunServerHandshake(remote: Address, staticKey: Bytes, peerStatic: Bytes, attempts: int, packetsPerKey: int,
                            draw: Draw, arrivals: seq<Arrival>)
    returns (r: Result<CipherSpec>, sent: seq<Datagram>)
    requires draw.Proper()
    ensures ServerRan(staticKey, peerStatic, remote, draw, Limit(attempts), packetsPerKey, arrivals, r, sent)
    ensures |sent| <= 1 && (r.Ok? ==> sent != []) && (attempts <= 0 ==> sent == [] && r == Err(TimeoutError))
    ensures sent == [] ==> forall k :: 0 <= k < |arrivals| && k < attempts ==>
      Serve(staticKey, peerStatic, remote, draw, arrivals[k]).Err?
    ensures sent != [] ==> exists k :: 0 <= k < |arrivals| && k < attempts && CameFrom(arrivals[k], remote)
  {
    hide Serve, CreateCipher, Encode, Draw.Proper;
    for k := 0 to Limit(attempts)
      invariant NoneServed(staticKey, peerStatic, remote, draw, arrivals, k)
    {
      var served := TryServe(staticKey, peerStatic, remote, draw, ArrivalAt(arrivals, k));
      if served.Err? { continue; }
      ServedIsPeers(staticKey, peerStatic, remote, draw, ArrivalAt(arrivals, k), served.value);
      assert CameFrom(arrivals[k], remote);
      sent := [Datagram(Encode(served.value.acceptance.response).value, remote)];
      r := CreateCipher(served.value.acceptance.secret, served.value.sessionId, Role.SERVER, packetsPerKey);
      assert ServedFirst(staticKey, peerStatic, remote, draw, arrivals, k, Limit(attempts));
      return;
    }
    assert forall k :: 0 <= k < |arrivals| && k < attempts ==> ArrivalAt(arrivals, k) == arrivals[k];
    return Err(TimeoutError), [];
  }

  /**
   A client run that ends with a cipher, under any traffic, was answered by an accept call on its own hello, and the
   server's cipher for that call is the mirror image of the client's.
   */
  lemma CompletedRunHasPeer(w: World, c: CreateCall, remote: Address, packetsPerKey: nat, arrival: Arrival)
    returns (a: AcceptCall)
    requires w.Proper() && c in w.creates && w.Created(c).Ok?
    requires Answer(w.Created(c).value.state, remote, arrival).Ok?
    requires Receive(arrival.datagram.data).Ok? ==> w.Deliverable(Receive(arrival.datagram.data).value.payload)
    ensures a in w.accepts && a.hello == w.Created(c).value.packet && w.Accepted(a).Ok?
    ensures var secret := Answer(w.Created(c).value.state, remote, arrival).value;
      && w.Accepted(a).value == Acceptance(Receive(arrival.datagram.data).value, secret)
      && var client := CreateCipher(secret, c.sessionId, Role.CLIENT, packetsPerKey);
      var server := CreateCipher(w.Accepted(a).value.secret, a.hello.sessionId, Role.SERVER, packetsPerKey);
      && client.Ok? && server.Ok? && server.value == client.value.Mirror()
  {
    a := FinishedMeansAccepted(w, c, Receive(arrival.datagram.data).value);
  }
}
