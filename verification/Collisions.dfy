/** Two clients that choose one session id behind one UDP address: the collision that ends the server's run. */
module Collisions {
  import opened Outcome
  import opened Octets
  import opened Protocol
  import opened Transport
  import opened Handshake
  import opened SessionTables
  import opened Servers
  import Service

  /** Hellos of two clients are cached under different fingerprints. */
  lemma HellosDiffer(x: Service.Setup, y: Service.Setup, j: nat, draw: Draw)
    requires x.Proper() && y.Proper() && x.cfg == y.cfg && x.clientKey != y.clientKey && draw.Proper()
    requires j < |y.cfg.clients| && y.cfg.clients[j].publicKey == PublicKey(y.clientKey)
    ensures Fingerprint(x.ClientHello().packet) != Fingerprint(y.ClientHello().packet)
  {
    hide AcceptClientHello, FinishClientHandshake, CreateClientHello, Recognise;
    Service.ClientRecognised(y, j, draw);
    if Fingerprint(x.ClientHello().packet) == Fingerprint(y.ClientHello().packet) {
      FingerprintInjective(x.ClientHello().packet, y.ClientHello().packet);
      Service.OnlyClientsKey(x, PublicKey(y.clientKey), draw);
      SpreadInjective(Point(x.clientKey), Point(y.clientKey), KEY_SIZE, KEY_SIZE);
    }
  }

  /** What a hello that is not cached leaves, when its client has no session. */
  lemma HelloHandled(x: Service.Setup, i: nat, s: Server, data: Bytes, address: Address, draw: Draw)
    requires x.Proper() && draw.Proper() && i < |x.cfg.clients| && x.cfg.clients[i].publicKey == PublicKey(x.clientKey)
    requires Encode(x.ClientHello().packet) == Ok(data) && ProperTables(s.tables)
    requires Fingerprint(x.ClientHello().packet).Ok? ==> Fingerprint(x.ClientHello().packet).value !in s.cache.items
    requires forall c :: c in x.cfg.clients && c.publicKey == PublicKey(x.clientKey) ==> c.tunnel !in s.tables.routes
    ensures var (u, r) := HandleDatagram(x.cfg, s, Datagram(data, address), draw, 0);
      var key := SessionKey(address, x.sessionId);
      if key in s.tables.sessions then
        r == Err(ValueError) && u.tables.sessions == s.tables.sessions && u.tables.routes == s.tables.routes
      else
        && r == Ok(false)
        && u.tables.sessions.Keys == s.tables.sessions.Keys + {key}
        && (exists c :: c in x.cfg.clients && c.publicKey == PublicKey(x.clientKey)
              && u.tables.routes.Keys == s.tables.routes.Keys + {c.tunnel})
        && Fingerprint(x.ClientHello().packet).Ok?
        && u.cache.items.Keys <= s.cache.items.Keys + {Fingerprint(x.ClientHello().packet).value}
  {
    hide Accept, Recognise, Receive, Encode, HandleUdp, Fingerprint, SessionInfo.Key;
    ReceiveOfEncode(x.ClientHello().packet, data);
    Service.NewHelloAccepted(x, i, s.cache, address, draw, |s.events|);
  }

  function Hears(data: Bytes, address: Address, draw: Draw): ServerInput {
    ServerInput(None, Some(Datagram(data, address)), draw, 0)
  }

  /**
   The raising case of replacing a session is reachable: whenever two registered clients send hellos with one session id
   from one address, the first gets its session, and the second ends the run of the server with a `ValueError`.
   */
  lemma CollisionEndsRun(x: Service.Setup, y: Service.Setup, i: nat, j: nat, up: Bytes, up': Bytes, address: Address,
                         draw: Draw, draw': Draw)
    requires x.Proper() && y.Proper() && x.cfg == y.cfg && x.clientKey != y.clientKey && x.sessionId == y.sessionId
    requires draw.Proper() && draw'.Proper() && i < |x.cfg.clients| && j < |x.cfg.clients|
    requires x.cfg.clients[i].publicKey == PublicKey(x.clientKey)
    requires x.cfg.clients[j].publicKey == PublicKey(y.clientKey)
    requires forall k, l :: 0 <= k < l < |x.cfg.clients| ==> x.cfg.clients[k].tunnel != x.cfg.clients[l].tunnel
    requires Encode(x.ClientHello().packet) == Ok(up) && Encode(y.ClientHello().packet) == Ok(up')
    ensures Inv(x.cfg, START) &&
      var (s, error) := Run(x.cfg, START, [Hears(up, address, draw), Hears(up', address, draw')]);
      error == Some(ValueError) && s.tables.sessions.Keys == {SessionKey(address, x.sessionId)}
  {
    hide Recognise, HandleDatagram, Fingerprint, Encode, Service.Setup.ClientHello, Service.Setup.Proper, Inv,
         HandleTun;
    StartInv(x.cfg);
    StartIsEmpty(x.cfg);
    var first := HandleDatagram(x.cfg, START, Datagram(up, address), draw, 0).0;
    HelloHandled(x, i, START, up, address, draw);
    DatagramKeeps(x.cfg, START, Datagram(up, address), draw, 0);
    InvTables(x.cfg, first);
    HellosDiffer(x, y, j, draw);
    AddressesDiffer(x.cfg, x.clientKey, y.clientKey);
    HelloHandled(y, j, first, up', address, draw');
    TwoPasses(x.cfg, START, up, up', address, draw, draw');
  }

  lemma StartIsEmpty(cfg: Config)
    ensures ProperTables(START.tables) && Bijective(START.tables)
    ensures START.tables.sessions == map[] && START.tables.routes == map[] && START.cache.items == map[]
  {
  }

  /** Clients with different keys have different addresses. */
  lemma AddressesDiffer(cfg: Config, a: Bytes, b: Bytes)
    requires a != b && forall k, l :: 0 <= k < l < |cfg.clients| ==> cfg.clients[k].tunnel != cfg.clients[l].tunnel
    ensures forall c, d | c in cfg.clients && d in cfg.clients ::
      c.publicKey == PublicKey(a) && d.publicKey == PublicKey(b) ==> c.tunnel != d.tunnel
  {
    if PublicKey(a) == PublicKey(b) { SpreadInjective(Point(a), Point(b), KEY_SIZE, KEY_SIZE); }
    forall c, d | c in cfg.clients && d in cfg.clients && c.publicKey == PublicKey(a) && d.publicKey == PublicKey(b)
      ensures c.tunnel != d.tunnel
    {
      var k :| 0 <= k < |cfg.clients| && cfg.clients[k] == c;
      var l :| 0 <= l < |cfg.clients| && cfg.clients[l] == d;
      assert k < l || l < k;
    }
  }

  /** Two passes that each read one datagram, of which the second raises. */
  lemma TwoPasses(cfg: Config, s: Server, data: Bytes, data': Bytes, address: Address, draw: Draw, draw': Draw)
    requires Inv(cfg, s) && draw.Proper() && draw'.Proper() && ProperTables(s.tables)
    requires HandleDatagram(cfg, s, Datagram(data, address), draw, 0).1 == Ok(false)
    requires var first := HandleDatagram(cfg, s, Datagram(data, address), draw, 0).0;
      ProperTables(first.tables) && HandleDatagram(cfg, first, Datagram(data', address), draw', 0).1 == Err(ValueError)
    ensures var first := HandleDatagram(cfg, s, Datagram(data, address), draw, 0).0;
      Run(cfg, s, [Hears(data, address, draw), Hears(data', address, draw')])
        == (HandleDatagram(cfg, first, Datagram(data', address), draw', 0).0, Some(ValueError))
  {
    hide HandleDatagram, HandleTun;
    var a, b := Hears(data, address, draw), Hears(data', address, draw');
    assert [a, b][1..] == [b];
    OnePass(cfg, s, data, address, draw);
    OnePass(cfg, Step(cfg, s, a).0, data', address, draw');
    hide Step, Inv;
  }

  lemma OnePass(cfg: Config, s: Server, data: Bytes, address: Address, draw: Draw)
    requires Inv(cfg, s) && draw.Proper()
    ensures ProperTables(s.tables) && Bijective(s.tables)
    ensures var (u, r) := HandleDatagram(cfg, s, Datagram(data, address), draw, 0);
      && Step(cfg, s, Hears(data, address, draw)).0 == u && Inv(cfg, u)
      && (r == Ok(false) ==> Step(cfg, s, Hears(data, address, draw)).1 == Ok(0))
      && (r.Err? ==> Step(cfg, s, Hears(data, address, draw)).1 == Err(r.error))
  {
    InvTables(cfg, s);
    hide HandleDatagram, HandleTun, Inv;
    StepKeeps(cfg, s, Hears(data, address, draw));
  }
}
