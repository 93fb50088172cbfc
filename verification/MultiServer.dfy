/** The client registry and server loop of src/matf_vpn/multi_server.py, on their own objects. */
module MultiServer {
  import opened Outcome
  import opened Octets
  import opened Protocol
  import opened Transport
  import opened Sequences
  import opened Lru
  import opened Ciphers
  import opened Handshake
  import opened SessionTables
  import opened MultiClient
  import opened Servers

  datatype AcceptedSession = AcceptedSession(response: Packet, session: ClientSession, identity: ClientIdentity,
                                             isNew: bool)

  function GrantOf(a: AcceptedSession): Grant {
    Grant(a.response, a.session.info, a.identity, a.session.serial)
  }

  function DecisionOf(r: Result<Option<AcceptedSession>>): Decision {
    match r
    case Err(e) => Failed(e)
    case Ok(None) => Ignored
    case Ok(Some(a)) => Answered(GrantOf(a), a.isNew)
  }

  /** What the registry's constructor checks: no two clients share a name or an address. */
  method CheckIdentities(clients: seq<ClientIdentity>) returns (error: Option<Error>)
    ensures error == if Distinct(Names(clients)) && Distinct(Tunnels(clients)) then None else Some(ValueError)
    ensures error.None? <==> forall i, j :: 0 <= i < j < |clients| ==>
      clients[i].name != clients[j].name && clients[i].tunnel != clients[j].tunnel
  {
    var names, addresses := Names(clients), Tunnels(clients);
    AllDistinct(clients);
    DistinctBySize(names);
    DistinctBySize(addresses);
    if |Elements(names)| != |names| { return Some(ValueError); }
    if |Elements(addresses)| != |addresses| { return Some(ValueError); }
    return None;
  }

  function Names(clients: seq<ClientIdentity>): seq<string> {
    seq(|clients|, i requires 0 <= i < |clients| => clients[i].name)
  }

  function Tunnels(clients: seq<ClientIdentity>): seq<nat> {
    seq(|clients|, i requires 0 <= i < |clients| => clients[i].tunnel)
  }

  lemma AllDistinct(clients: seq<ClientIdentity>)
    ensures Distinct(Names(clients)) && Distinct(Tunnels(clients)) <==>
      forall i, j :: 0 <= i < j < |clients| ==>
        clients[i].name != clients[j].name && clients[i].tunnel != clients[j].tunnel
  {
    var names, tunnels := Names(clients), Tunnels(clients);
    assert forall i :: 0 <= i < |clients| ==> names[i] == clients[i].name && tunnels[i] == clients[i].tunnel;
  }

  class ClientRegistry {
    const config: Config
    var acceptedHellos: OrderedDict<Bytes, AcceptedSession>

    ghost predicate Valid()
      reads this
    {
      acceptedHellos.WellFormed() && |acceptedHellos.order| <= HANDSHAKE_CACHE_SIZE
    }

    ghost function State(): OrderedDict<Bytes, Grant>
      reads this
    {
      OrderedDict(acceptedHellos.order, map f | f in acceptedHellos.items :: GrantOf(acceptedHellos.items[f]))
    }

    constructor (config: Config)
      requires Distinct(Names(config.clients)) && Distinct(Tunnels(config.clients))
      ensures Valid() && this.config == config && State() == OrderedDict([], map[])
    {
      this.config := config;
      acceptedHellos := OrderedDict([], map[]);
    }

    /** The loop over the registered clients. */
    method FindIdentity(hello: Packet, draw: Draw) returns (found: Option<(ClientIdentity, Acceptance)>)
      requires draw.Proper()
      ensures found == Recognise(config, config.clients, hello, draw)
    {
      hide AcceptClientHello;
      for k := 0 to |config.clients|
        invariant Recognise(config, config.clients[k..], hello, draw) == Recognise(config, config.clients, hello, draw)
      {
        var identity := config.clients[k];
        var accepted := AcceptClientHello(hello, config.privateKey, identity.publicKey, draw);
        assert config.clients[k..][0] == identity && config.clients[k..][1..] == config.clients[k + 1..];
        if accepted.Ok? { return Some((identity, accepted.value)); }
      }
      return None;
    }

    method Accept(p: Packet, remote: Address, draw: Draw, serial: nat) returns (r: Result<Option<AcceptedSession>>)
      requires Valid() && draw.Proper()
      modifies this
      ensures Valid()
      ensures (State(), DecisionOf(r)) == Servers.Accept(config, old(State()), p, remote, draw, serial)
      ensures r.Ok? && r.value.Some? && r.value.value.isNew ==>
        var s := r.value.value.session;
        && fresh(s) && fresh(s.replayWindow) && s.Valid()
        && s.State() == Session(s.serial, s.info, 0, {}) && s.serial == serial
    {
      hide Recognise, Encode, CreateCipher, AcceptClientHello, Touch;
      if p.kind != MessageType.CLIENT_HELLO { return Ok(None); }
      var fingerprint := Fingerprint(p);
      if fingerprint.Err? { return Err(fingerprint.error); }
      var f := fingerprint.value;
      hide Fingerprint;
      if f in acceptedHellos.items {
        HitTouches(acceptedHellos, f, HANDSHAKE_CACHE_SIZE);
        TouchSize(acceptedHellos.order, f, HANDSHAKE_CACHE_SIZE);
        acceptedHellos := acceptedHellos.MoveToEnd(f);
        var cached := acceptedHellos.items[f];
        return Ok(Some(cached.(isNew := false)));
      }
      var found := FindIdentity(p, draw);
      if found.None? { return Ok(None); }
      if config.packetsPerKey < 0 { return Err(ValueError); }
      var identity := found.value.0;
      RecogniseSound(config, p, draw);
      var session := new ClientSession(NewInfo(config, p, remote, identity, found.value.1), serial);
      var accepted := AcceptedSession(found.value.1.response, session, identity, true);
      StoreMaps(acceptedHellos, f, accepted);
      MissTouches(acceptedHellos, f, accepted, HANDSHAKE_CACHE_SIZE);
      TouchSize(acceptedHellos.order, f, HANDSHAKE_CACHE_SIZE);
      acceptedHellos := acceptedHellos.Insert(f, accepted);
      if |acceptedHellos.order| > HANDSHAKE_CACHE_SIZE {
        acceptedHellos := acceptedHellos.PopFirst();
      }
      return Ok(Some(accepted));
    }
  }

  function Grants(d: OrderedDict<Bytes, AcceptedSession>): OrderedDict<Bytes, Grant> {
    OrderedDict(d.order, map f | f in d.items :: GrantOf(d.items[f]))
  }

  lemma StoreMaps(d: OrderedDict<Bytes, AcceptedSession>, f: Bytes, a: AcceptedSession)
    ensures Grants(Store(d, f, a, HANDSHAKE_CACHE_SIZE)) == Store(Grants(d), f, GrantOf(a), HANDSHAKE_CACHE_SIZE)
  {
    assert Grants(d.Insert(f, a)).items == Grants(d).Insert(f, GrantOf(a)).items;
    var e := d.Insert(f, a);
    if |e.order| > HANDSHAKE_CACHE_SIZE {
      assert Grants(e.PopFirst()).items == Grants(e).PopFirst().items;
    }
  }

  lemma TouchSize<K(!new)>(s: seq<K>, k: K, capacity: nat)
    requires |s| <= capacity
    ensures |Touch(s, k, capacity)| <= capacity || capacity == 0
  {
    WithoutSize(s, k);
  }

  lemma {:induction false} WithoutSize<K(!new)>(s: seq<K>, k: K)
    ensures |Without(s, k)| <= |s|
  {
    if s != [] { WithoutSize(s[1..], k); }
  }

  lemma RecogniseSound(cfg: Config, hello: Packet, draw: Draw)
    requires draw.Proper() && Recognise(cfg, cfg.clients, hello, draw).Some?
    ensures |Recognise(cfg, cfg.clients, hello, draw).value.1.secret| == 32 && 0 <= hello.sessionId <= MAX_SESSION_ID
  {
    hide CreateCipher;
  }

  /** What the original's constructor does with any list of clients. */
  method NewClientRegistry(config: Config) returns (r: Result<ClientRegistry>)
    ensures r.Ok? <==> forall i, j :: 0 <= i < j < |config.clients| ==>
      config.clients[i].name != config.clients[j].name && config.clients[i].tunnel != config.clients[j].tunnel
    ensures r.Err? ==> r.error == ValueError
    ensures r.Ok? ==>
      fresh(r.value) && r.value.Valid() && r.value.config == config && r.value.State() == OrderedDict([], map[])
  {
    var error := CheckIdentities(config.clients);
    if error.Some? { return Err(error.value); }
    var registry := new ClientRegistry(config);
    return Ok(registry);
  }

  class MultiClientServer {
    const registry: ClientRegistry
    const engine: MultiClientServerEngine
    ghost var events: seq<HelloEvent>

    // numbers the sessions, for the logs
    var answered: nat

    ghost function Repr(): set<object>
      reads this, engine
    {
      {this, registry, engine} + engine.Repr()
    }

    ghost predicate Valid()
      reads this, engine, Repr()
    {
      && registry.Valid() && engine.Valid() && answered == |events|
      && (registry as object) != engine && registry !in engine.Repr() && this !in engine.Repr()
      && ProperTables(engine.State()) && Bijective(engine.State())
    }

    ghost function State(): Server
      reads this, engine, Repr()
    {
      Server(engine.State(), registry.State(), events)
    }

    constructor (registry: ClientRegistry)
      requires registry.Valid() && registry.State() == OrderedDict([], map[])
      ensures Valid() && State() == START && this.registry == registry && fresh(Repr() - {registry})
    {
      this.registry := registry;
      engine := new MultiClientServerEngine();
      events, answered := [], 0;
    }

    /** Sends the response to a hello and, if it is new, installs its session. */
    method Answer(a: AcceptedSession, p: Packet, peer: Address, draw: Draw, data: Bytes) returns (error: Option<Error>)
      requires Valid()
      requires a.isNew ==>
        && a.session.Valid() && a.session !in engine.Repr() && a.session.replayWindow !in engine.Repr()
        && a.session.State() == Session(a.session.serial, a.session.info, 0, {})
      modifies engine, this
      ensures Valid()
      ensures engine.Repr() <= old(engine.Repr()) + (if a.isNew then {a.session, a.session.replayWindow} else {})
      ensures registry.State() == old(registry.State())
      ensures events == old(events) + [HelloEvent(p, peer, a.identity, draw, a.response, a.isNew)]
      ensures (engine.State(), error)
        == AnsweredTables(old(engine.State()), data, peer, a.session.serial, a.session.info, a.isNew)
    {
      hide SessionTables.ReplaceSession, MultiClientServerEngine.SameObjects, ClientSession.Valid,
           ClientRegistry.Valid, ClientRegistry.State, ClientSession.State, MultiClientServerEngine.Valid,
           MultiClientServerEngine.State, MultiClientServerEngine.Repr, ProperTables, Bijective;
      error := engine.Install(a.session, data, peer, a.isNew);
      engine.StateIsProper();
      events := events + [HelloEvent(p, peer, a.identity, draw, a.response, a.isNew)];
      answered := answered + 1;
    }

    /** The UDP half of a pass. */
    method HandleDatagram(d: Datagram, draw: Draw, taken: int) returns (r: Result<bool>)
      requires Valid() && draw.Proper()
      modifies Repr()
      ensures Valid() && fresh(Repr() - old(Repr()))
      ensures (State(), r) == Servers.HandleDatagram(registry.config, old(State()), d, draw, taken)
    {
      hide Receive, Encode, HandleUdp, Servers.Accept, AnsweredTables, MultiClientServerEngine.Valid,
           MultiClientServerEngine.State, ClientSession.Valid, ProperTables, Bijective, ClientRegistry.Valid,
           ClientRegistry.State;
      var received := Receive(d.data);
      r := Ok(false);
      if received.Ok? {
        var p := received.value;
        var accepted := registry.Accept(p, d.peer, draw, answered);
        assert engine.Repr() == old(engine.Repr()) && engine.Valid() && engine.State() == old(engine.State());
        if accepted.Err? {
          r := Err(accepted.error);
        } else if accepted.value.None? {
          r := engine.HandleUdpPacket(p, d.peer, taken);
          engine.StateIsProper();
        } else {
          var a := accepted.value.value;
          var data := Encode(a.response);
          if data.Err? {
            r := Err(data.error);
          } else {
            var error := Answer(a, p, d.peer, draw, data.value);
            r := if error.Some? then Err(error.value) else Ok(false);
          }
        }
      }
    }

    method RunOnce(i: ServerInput) returns (r: Result<nat>)
      requires Valid() && i.draw.Proper()
      modifies Repr()
      ensures Valid() && fresh(Repr() - old(Repr()))
      ensures (State(), r) == Step(registry.config, old(State()), i)
    {
      hide Servers.HandleDatagram, HandleTun, MultiClientServerEngine.Valid, MultiClientServerEngine.State,
           ClientSession.Valid, ProperTables, Bijective, ClientRegistry.Valid, ClientRegistry.State;
      var forwarded := 0;
      var sent, delivered := Ok(false), Ok(false);
      if i.tun.Some? {
        sent := engine.HandleTunPacket(i.tun.value);
        engine.StateIsProper();
      }
      if sent.Ok? && i.udp.Some? {
        delivered := HandleDatagram(i.udp.value, i.draw, i.taken);
      }
      if sent.Err? {
        r := Err(sent.error);
      } else if delivered.Err? {
        r := Err(delivered.error);
      } else {
        forwarded := (if sent.value then 1 else 0) + (if delivered.value then 1 else 0);
        r := Ok(forwarded);
      }
    }

    /** `run`: passes until one raises. */
    method Run(inputs: seq<ServerInput>) returns (error: Option<Error>)
      requires Valid() && Inv(registry.config, State()) && forall i :: i in inputs ==> i.draw.Proper()
      modifies Repr()
      ensures Valid() && fresh(Repr() - old(Repr()))
      ensures (State(), error) == Servers.Run(registry.config, old(State()), inputs)
    {
      hide Step, Inv, Valid, State;
      ghost var start := State();
      for k := 0 to |inputs|
        invariant Valid() && fresh(Repr() - old(Repr()))
        invariant Inv(registry.config, State())
        invariant Servers.Run(registry.config, State(), inputs[k..]) == Servers.Run(registry.config, start, inputs)
      {
        assert inputs[k..][0] == inputs[k] && inputs[k..][1..] == inputs[k + 1..] && inputs[k] in inputs;
        StepKeeps(registry.config, State(), inputs[k]);
        var forwarded := RunOnce(inputs[k]);
        if forwarded.Err? { return Some(forwarded.error); }
      }
      return None;
    }
  }
}
