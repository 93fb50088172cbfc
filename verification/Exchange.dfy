/**
 The two handshake loops of src/matf_vpn/handshake.py running side by side, with the network between them: what arrives
 depends on what was sent before.
 */
module Exchange {
  import opened Outcome
  import opened Octets
  import opened Protocol
  import opened Transport
  import opened Ciphers
  import opened Handshake

  /** Both configurations, and the randomness both ends draw. */
  datatype Setup = Setup(
    client: Bytes,
    server: Bytes,
    clientAddress: Address,
    serverAddress: Address,
    clientAttempts: int,
    serverAttempts: int,
    packetsPerKey: int,
    sessionId: nat,
    clientDraw: Draw,
    serverDraw: Draw)
  {
    ghost predicate Proper() {
      && |client| == KEY_SIZE && |server| == KEY_SIZE && sessionId <= MAX_SESSION_ID
      && clientDraw.Proper() && serverDraw.Proper()
    }

    function Call(): CreateCall { CreateCall(sessionId, clientDraw) }

    ghost function Calls(sent: bool, accepts: seq<AcceptCall>): World {
      World(client, server, if sent then [Call()] else [], accepts)
    }

    /** The one hello of this client's run. */
    ghost function ClientHello(): (h: Hello)
      requires Proper()
      ensures CreateClientHello(client, PublicKey(server), sessionId, clientDraw) == Ok(h)
      ensures Encode(h.packet).Ok? && h.state.sessionId == h.packet.sessionId == sessionId
    {
      HandshakeAgreement(client, server, sessionId, clientDraw, serverDraw);
      CreateClientHello(client, PublicKey(server), sessionId, clientDraw).value
    }
  }

  /** Where both loops are: what each has heard and sent, and what it returned or raised, if it is through. */
  datatype State = State(
    heard: seq<Arrival>,
    sent: seq<Datagram>,
    client: Option<Result<CipherSpec>>,
    serverHeard: seq<Arrival>,
    serverSent: seq<Datagram>,
    server: Option<Result<CipherSpec>>,
    accepts: seq<AcceptCall>)

  datatype Action = ClientSends | ClientHears(arrival: Arrival) | ServerHears(arrival: Arrival)

  ghost function Begin(x: Setup): State {
    var timeout := Some(Err(TimeoutError));
    State([], [], if Limit(x.clientAttempts) == 0 then timeout else None,
          [], [], if Limit(x.serverAttempts) == 0 then timeout else None, [])
  }

  /** Whether the loop is at the point where this happens, and whether the network can make it happen. */
  ghost predicate Allowed(x: Setup, st: State, a: Action)
  {
    match a
    case ClientSends => st.client.None? && |st.sent| == |st.heard|
    case ClientHears(arrival) => st.client.None? && |st.sent| == |st.heard| + 1 && CanArrive(x, st, arrival)
    case ServerHears(arrival) => st.server.None? && CanArrive(x, st, arrival)
  }

  /** Anything can arrive, except tags under the static secret that nobody has sent yet. */
  ghost predicate CanArrive(x: Setup, st: State, arrival: Arrival)
  {
    arrival.Arrived? && Receive(arrival.datagram.data).Ok? ==>
      var w := x.Calls(st.sent != [], st.accepts);
      w.Proper() && w.Deliverable(Receive(arrival.datagram.data).value.payload)
  }

  ghost function Next(x: Setup, st: State, a: Action): State
    requires x.Proper()
  {
    match a
    case ClientSends =>
      st.(sent := st.sent + [Datagram(Encode(x.ClientHello().packet).value, x.serverAddress)])
    case ClientHears(arrival) =>
      var heard := st.heard + [arrival];
      var answer := Answer(x.ClientHello().state, x.serverAddress, arrival);
      st.(heard := heard,
          client := if answer.Ok? then Some(CreateCipher(answer.value, x.sessionId, Role.CLIENT, x.packetsPerKey))
                    else if |heard| == Limit(x.clientAttempts) then Some(Err(TimeoutError))
                    else None)
    case ServerHears(arrival) =>
      var heard := st.serverHeard + [arrival];
      var served := Serve(x.server, PublicKey(x.client), x.clientAddress, x.serverDraw, arrival);
      if served.Ok? then
        st.(serverHeard := heard,
            serverSent := [Datagram(Encode(served.value.acceptance.response).value, x.clientAddress)],
            server := Some(CreateCipher(served.value.acceptance.secret, served.value.sessionId, Role.SERVER,
                                        x.packetsPerKey)),
            accepts := [AcceptCall(Receive(arrival.datagram.data).value, x.serverDraw)])
      else
        st.(serverHeard := heard,
            server := if |heard| == Limit(x.serverAttempts) then Some(Err(TimeoutError)) else None)
  }

  // ----- each end does what its loop does

  ghost predicate ClientInv(x: Setup, st: State)
    requires x.Proper()
  {
    if st.client.Some? then
      ClientRan(x.ClientHello(), x.serverAddress, Limit(x.clientAttempts), x.packetsPerKey, st.heard, st.client.value,
                st.sent)
    else
      && |st.heard| < Limit(x.clientAttempts) && |st.heard| <= |st.sent| <= |st.heard| + 1
      && (forall i :: 0 <= i < |st.sent| ==>
            st.sent[i] == Datagram(Encode(x.ClientHello().packet).value, x.serverAddress))
      && (forall i :: 0 <= i < |st.heard| ==>
            Answer(x.ClientHello().state, x.serverAddress, ArrivalAt(st.heard, i)).Err?)
  }

  ghost predicate ServerInv(x: Setup, st: State)
    requires x.Proper()
  {
    if st.server.Some? then
      ServerRan(x.server, PublicKey(x.client), x.clientAddress, x.serverDraw, Limit(x.serverAttempts), x.packetsPerKey,
                st.serverHeard, st.server.value, st.serverSent)
    else
      && |st.serverHeard| < Limit(x.serverAttempts) && st.serverSent == []
      && NoneServed(x.server, PublicKey(x.client), x.clientAddress, x.serverDraw, st.serverHeard, |st.serverHeard|)
  }

  /** The server's one response, and its cipher, are those of the one accept call that succeeded. */
  ghost predicate Responded(x: Setup, st: State)
    requires x.Proper()
  {
    && |st.accepts| == 1 && st.accepts[0].draw == x.serverDraw
    && var accepted := AcceptClientHello(st.accepts[0].hello, x.server, PublicKey(x.client), x.serverDraw);
    && accepted.Ok?
    && st.serverSent == [Datagram(Encode(accepted.value.response).value, x.clientAddress)]
    && st.server
      == Some(CreateCipher(accepted.value.secret, st.accepts[0].hello.sessionId, Role.SERVER, x.packetsPerKey))
  }

  /** A server that sent or returned anything has responded. */
  ghost predicate AcceptInv(x: Setup, st: State)
    requires x.Proper()
  {
    if st.accepts == [] then st.serverSent == [] && (st.server.Some? ==> st.server.value.Err?) else Responded(x, st)
  }

  /**
   A client that is through with a cipher met a server that is through, with the mirror image, for this very hello.
   */
  ghost predicate Agreement(x: Setup, st: State)
    requires x.Proper()
  {
    && (st.accepts != [] ==> st.sent != [] && st.accepts[0].hello == x.ClientHello().packet)
    && (st.client.Some? && st.client.value.Ok? ==>
          && st.accepts != []
          && st.server == Some(Ok(st.client.value.value.Mirror())))
  }

  ghost predicate Inv(x: Setup, st: State) {
    && x.Proper()
    && ClientInv(x, st) && ServerInv(x, st) && AcceptInv(x, st) && Agreement(x, st)
  }

  lemma ClientKeeps(x: Setup, st: State, a: Action)
    requires Inv(x, st) && Allowed(x, st, a) && !a.ServerHears?
    ensures ClientInv(x, Next(x, st, a))
  {
    hide Answer, CreateCipher, Encode, CreateClientHello;
    var u := Next(x, st, a);
    if a.ClientHears? {
      assert forall i :: 0 <= i < |st.heard| ==> ArrivalAt(u.heard, i) == ArrivalAt(st.heard, i);
      assert ArrivalAt(u.heard, |st.heard|) == a.arrival;
    }
  }

  lemma ServerKeeps(x: Setup, st: State, arrival: Arrival)
    requires Inv(x, st) && Allowed(x, st, ServerHears(arrival))
    ensures ServerInv(x, Next(x, st, ServerHears(arrival)))
  {
    hide Serve, CreateCipher, Encode, CreateClientHello, AcceptInv, Agreement, ClientInv;
    var u := Next(x, st, ServerHears(arrival));
    assert forall i :: 0 <= i < |st.serverHeard| ==> ArrivalAt(u.serverHeard, i) == ArrivalAt(st.serverHeard, i);
    assert ArrivalAt(u.serverHeard, |st.serverHeard|) == arrival;
    if Serve(x.server, PublicKey(x.client), x.clientAddress, x.serverDraw, arrival).Ok? {
      assert ServedFirst(x.server, PublicKey(x.client), x.clientAddress, x.serverDraw, u.serverHeard, |st.serverHeard|,
                         Limit(x.serverAttempts));
    }
  }

  // ----- agreement

  /** A hello the server accepts was sent by the client before. */
  lemma AcceptsOnlyWhatWasSent(x: Setup, st: State, arrival: Arrival)
    requires Inv(x, st) && Allowed(x, st, ServerHears(arrival))
    ensures AcceptInv(x, Next(x, st, ServerHears(arrival))) && Agreement(x, Next(x, st, ServerHears(arrival)))
  {
    hide ClientInv, ServerInv, Receive, AcceptClientHello, CreateCipher, Encode, CreateClientHello, World.Deliverable;
    var served := Serve(x.server, PublicKey(x.client), x.clientAddress, x.serverDraw, arrival);
    if served.Ok? {
      var call := AcceptCall(Receive(arrival.datagram.data).value, x.serverDraw);
      var c := AcceptedMeansCreated(x.Calls(st.sent != [], st.accepts), call);
    }
  }

  /** A response that completes the client's handshake was sent by the server before, for the client's hello. */
  lemma FinishesOnlyWithPeer(x: Setup, st: State, arrival: Arrival)
    requires Inv(x, st) && Allowed(x, st, ClientHears(arrival))
    ensures Agreement(x, Next(x, st, ClientHears(arrival)))
  {
    hide ClientInv, ServerInv, Receive, AcceptClientHello, FinishClientHandshake, Encode, CreateClientHello,
         World.Deliverable;
    var answer := Answer(x.ClientHello().state, x.serverAddress, arrival);
    if answer.Ok? {
      var w := x.Calls(st.sent != [], st.accepts);
      assert x.Call() in w.creates;
      var a := FinishedMeansAccepted(w, x.Call(), Receive(arrival.datagram.data).value);
      assert a == st.accepts[0];
    }
  }

  lemma NextKeeps(x: Setup, st: State, a: Action)
    requires Inv(x, st) && Allowed(x, st, a)
    ensures Inv(x, Next(x, st, a))
  {
    hide ClientInv, ServerInv, Serve, Answer, CreateCipher, Encode, AcceptClientHello, CanArrive;
    match a
    case ClientSends =>
      ClientKeeps(x, st, a);
      OthersUntouched(x, st, a);
    case ClientHears(arrival) =>
      ClientKeeps(x, st, a);
      FinishesOnlyWithPeer(x, st, arrival);
      OthersUntouched(x, st, a);
    case ServerHears(arrival) =>
      ServerKeeps(x, st, arrival);
      AcceptsOnlyWhatWasSent(x, st, arrival);
      OthersUntouched(x, st, a);
  }

  /** An action of one end leaves the other end's half alone. */
  lemma OthersUntouched(x: Setup, st: State, a: Action)
    requires Inv(x, st)
    ensures !a.ServerHears? ==> ServerInv(x, Next(x, st, a))
    ensures a.ServerHears? ==> ClientInv(x, Next(x, st, a))
  {
    hide Serve, Answer, CreateCipher, Encode, AcceptClientHello, CreateClientHello;
  }

  // ----- whole runs

  ghost predicate AllowedRun(x: Setup, st: State, actions: seq<Action>)
    requires x.Proper()
    decreases |actions|
  {
    actions == [] || (Allowed(x, st, actions[0]) && AllowedRun(x, Next(x, st, actions[0]), actions[1..]))
  }

  ghost function Run(x: Setup, st: State, actions: seq<Action>): State
    requires x.Proper()
    decreases |actions|
  {
    if actions == [] then st else Run(x, Next(x, st, actions[0]), actions[1..])
  }

  lemma BeginInv(x: Setup)
    requires x.Proper()
    ensures Inv(x, Begin(x))
  {
  }

  lemma {:induction false} RunKeeps(x: Setup, st: State, actions: seq<Action>)
    requires Inv(x, st) && AllowedRun(x, st, actions)
    ensures Inv(x, Run(x, st, actions))
    decreases |actions|
  {
    if actions != [] {
      hide Inv, Allowed, Next;
      NextKeeps(x, st, actions[0]);
      RunKeeps(x, Next(x, st, actions[0]), actions[1..]);
    }
  }

  /**
   Agreement of the two loops.  In every joint run, each end has done exactly what its loop does on what it heard.  If
   the client returns a cipher, the server has by then returned the mirror image, for the client's own hello; and a
   server that sends a response or returns a cipher has accepted exactly the hello that the client sent before.
   */
  lemma LoopsAgree(x: Setup, actions: seq<Action>)
    requires x.Proper() && AllowedRun(x, Begin(x), actions)
    ensures var st := Run(x, Begin(x), actions);
      && (st.client.Some? ==>
            ClientRan(x.ClientHello(), x.serverAddress, Limit(x.clientAttempts), x.packetsPerKey, st.heard,
                      st.client.value, st.sent))
      && (st.server.Some? ==>
            ServerRan(x.server, PublicKey(x.client), x.clientAddress, x.serverDraw, Limit(x.serverAttempts),
                      x.packetsPerKey, st.serverHeard, st.server.value, st.serverSent))
      && (st.serverSent != [] || (st.server.Some? && st.server.value.Ok?) ==> st.accepts != [])
      && (st.accepts != [] ==> Responded(x, st) && st.sent != [] && st.accepts[0].hello == x.ClientHello().packet)
      && (st.client.Some? && st.client.value.Ok? ==>
            && |st.accepts| == 1 && st.accepts[0].hello == x.ClientHello().packet
            && st.server == Some(Ok(st.client.value.value.Mirror())))
  {
    BeginInv(x);
    RunKeeps(x, Begin(x), actions);
    hide Run, AllowedRun, Begin, ClientRan, ServerRan;
  }

  /** The hello arrives at a server that is still listening. */
  lemma HelloArrives(x: Setup, st: State, up: Bytes) returns (a: AcceptCall)
    requires x.Proper() && x.serverAttempts > 0 && Encode(x.ClientHello().packet) == Ok(up)
    requires st.sent != [] && st.server.None? && st.accepts == []
    ensures a.draw == x.serverDraw && a.hello == x.ClientHello().packet
    ensures var accepted := AcceptClientHello(a.hello, x.server, PublicKey(x.client), x.serverDraw);
      && accepted.Ok? && Encode(accepted.value.response).Ok?
      && FinishClientHandshake(x.ClientHello().state, accepted.value.response) == Ok(accepted.value.secret)
      && var action := ServerHears(Arrived(Datagram(up, x.clientAddress)));
      && Allowed(x, st, action)
      && Next(x, st, action) == st.(serverHeard := st.serverHeard + [action.arrival],
           serverSent := [Datagram(Encode(accepted.value.response).value, x.clientAddress)],
           server := Some(CreateCipher(accepted.value.secret, x.sessionId, Role.SERVER, x.packetsPerKey)),
           accepts := [a])
  {
    ReceiveOfEncode(x.ClientHello().packet, up);
    HandshakeAgreement(x.client, x.server, x.sessionId, x.clientDraw, x.serverDraw);
    HelloDeliverable(x);
    hide CreateClientHello, AcceptClientHello, FinishClientHandshake, Receive, Encode, World.Deliverable, CreateCipher,
         Setup.ClientHello;
    a := AcceptCall(x.ClientHello().packet, x.serverDraw);
  }

  /** The response arrives at a client that waits for it. */
  lemma ResponseArrives(x: Setup, st: State, a: AcceptCall, down: Bytes, secret: Bytes)
    requires x.Proper() && st.client.None? && |st.sent| == |st.heard| + 1 && st.accepts == [a] && a.draw == x.serverDraw
    requires var accepted := AcceptClientHello(a.hello, x.server, PublicKey(x.client), x.serverDraw);
      && accepted.Ok? && Encode(accepted.value.response) == Ok(down)
      && FinishClientHandshake(x.ClientHello().state, accepted.value.response) == Ok(secret)
    ensures var action := ClientHears(Arrived(Datagram(down, x.serverAddress)));
      && Allowed(x, st, action)
      && Next(x, st, action) == st.(heard := st.heard + [action.arrival],
           client := Some(CreateCipher(secret, x.sessionId, Role.CLIENT, x.packetsPerKey)))
  {
    ReceiveOfEncode(AcceptClientHello(a.hello, x.server, PublicKey(x.client), x.serverDraw).value.response, down);
    ResponseDeliverable(x, a);
    hide CreateClientHello, AcceptClientHello, FinishClientHandshake, Receive, Encode, World.Deliverable, CreateCipher,
         Setup.ClientHello;
  }

  /** When the first copy of the hello and the response both arrive, both loops return, with matching ciphers. */
  lemma QuietNetworkAgrees(x: Setup) returns (actions: seq<Action>)
    requires x.Proper() && x.clientAttempts > 0 && x.serverAttempts > 0 && x.packetsPerKey >= 0
    ensures AllowedRun(x, Begin(x), actions)
    ensures var st := Run(x, Begin(x), actions);
      && st.client.Some? && st.client.value.Ok? && st.server == Some(Ok(st.client.value.value.Mirror()))
      && |st.sent| == 1 && |st.serverSent| == 1
  {
    hide CreateClientHello, AcceptClientHello, FinishClientHandshake, Encode, CanArrive, Setup.ClientHello, Answer,
         Serve;
    var up := Encode(x.ClientHello().packet).value;
    var s0 := Begin(x);
    var s1 := Next(x, s0, ClientSends);
    var a := HelloArrives(x, s1, up);
    var accepted := AcceptClientHello(a.hello, x.server, PublicKey(x.client), x.serverDraw).value;
    var down := Encode(accepted.response).value;
    var hears := ServerHears(Arrived(Datagram(up, x.clientAddress)));
    var answers := ClientHears(Arrived(Datagram(down, x.serverAddress)));
    var s2 := Next(x, s1, hears);
    ResponseArrives(x, s2, a, down, accepted.secret);
    ThreeActions(x, s0, ClientSends, hears, answers);
    actions := [ClientSends, hears, answers];
  }

  lemma HelloDeliverable(x: Setup)
    requires x.Proper()
    ensures x.Calls(true, []).Proper() && x.Calls(true, []).Deliverable(x.ClientHello().packet.payload)
  {
    assert x.Call() in x.Calls(true, []).creates;
  }

  lemma ResponseDeliverable(x: Setup, a: AcceptCall)
    requires x.Proper() && a.draw == x.serverDraw
    requires AcceptClientHello(a.hello, x.server, PublicKey(x.client), x.serverDraw).Ok?
    ensures var w := x.Calls(true, [a]);
      var accepted := AcceptClientHello(a.hello, x.server, PublicKey(x.client), x.serverDraw).value;
      w.Proper() && w.Deliverable(accepted.response.payload)
  {
    assert a in x.Calls(true, [a]).accepts;
  }

  lemma OneAction(x: Setup, st: State, a: Action, rest: seq<Action>)
    requires x.Proper() && Allowed(x, st, a) && AllowedRun(x, Next(x, st, a), rest)
    ensures AllowedRun(x, st, [a] + rest) && Run(x, st, [a] + rest) == Run(x, Next(x, st, a), rest)
  {
    hide Allowed, Next;
    assert ([a] + rest)[1..] == rest;
  }

  lemma ThreeActions(x: Setup, st: State, a: Action, b: Action, c: Action)
    requires x.Proper() && Allowed(x, st, a)
    requires var u := Next(x, st, a); Allowed(x, u, b) && Allowed(x, Next(x, u, b), c)
    ensures AllowedRun(x, st, [a, b, c]) && Run(x, st, [a, b, c]) == Next(x, Next(x, Next(x, st, a), b), c)
  {
    hide Allowed, Next;
    var u := Next(x, st, a);
    var v := Next(x, u, b);
    OneAction(x, v, c, []);
    OneAction(x, u, b, [c]);
    OneAction(x, st, a, [b, c]);
    assert [c] + [] == [c] && [b] + [c] == [b, c] && [a] + [b, c] == [a, b, c];
  }
}
