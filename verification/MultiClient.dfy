/** The multi-client data plane of src/matf_vpn/multi_client.py, on its own objects. */
module MultiClient {
  import opened Outcome
  import opened Octets
  import opened Protocol
  import opened Transport
  import opened Replay
  import opened Ciphers
  import opened SessionTables

  class ClientSession {
    const info: SessionInfo
    var sendSequence: nat
    const replayWindow: ReplayWindow
    const serial: nat   // numbers the sessions in the order of their making, for the logs

    ghost predicate Valid()
      reads this, replayWindow
    {
      info.Proper() && replayWindow.Valid() && replayWindow.size == DEFAULT_REPLAY_WINDOW_SIZE
    }

    ghost function State(): Session
      reads this, replayWindow
    {
      Session(serial, info, sendSequence, replayWindow.marks)
    }

    constructor (info: SessionInfo, serial: nat)
      requires info.Proper()
      ensures Valid() && State() == Session(serial, info, 0, {}) && fresh(replayWindow)
    {
      this.info, this.serial := info, serial;
      sendSequence := 0;
      replayWindow := new ReplayWindow();
    }
  }

  class MultiClientServerEngine {
    var sessions: map<SessionKey, ClientSession>
    var routes: map<nat, ClientSession>

    // what left through the transport and the TUN device
    var sent: seq<Datagram>
    var written: seq<ClientDelivery>
    ghost var origins: seq<Origin>

    ghost function Repr(): set<object>
      reads this
    {
      {this} + (set k | k in sessions :: sessions[k] as object)
             + (set k | k in sessions :: sessions[k].replayWindow as object)
    }

    /** Sessions and routes pair up the very same objects, and no two sessions share a window. */
    ghost predicate SameObjects()
      reads this
    {
      && (forall k :: k in sessions ==>
            && sessions[k].info.Key() == k
            && sessions[k].info.tunnel in routes && routes[sessions[k].info.tunnel] == sessions[k])
      && (forall a :: a in routes ==>
            && routes[a].info.tunnel == a
            && routes[a].info.Key() in sessions && sessions[routes[a].info.Key()] == routes[a])
      && (forall k, k' :: k in sessions && k' in sessions && k != k' ==>
            sessions[k].replayWindow != sessions[k'].replayWindow)
    }

    ghost predicate Valid()
      reads this, Repr()
    {
      SameObjects() && forall k :: k in sessions ==> sessions[k].Valid()
    }

    ghost function State(): Tables
      reads this, Repr()
    {
      Tables(map k | k in sessions :: sessions[k].State(), map a | a in routes :: routes[a].info.Key(),
             sent, origins, written)
    }

    constructor ()
      ensures Valid() && State() == EMPTY && Repr() == {this}
    {
      sessions, routes := map[], map[];
      sent, written, origins := [], [], [];
    }

    lemma StateIsProper()
      requires Valid()
      ensures ProperTables(State()) && Bijective(State())
    {
    }

    lemma SessionAt(key: SessionKey)
      requires Valid() && key in sessions
      ensures sessions[key].Valid() && sessions[key].info.Proper() && sessions[key].info.Key() == key
      ensures State().sessions[key] == sessions[key].State()
      ensures sessions[key].replayWindow.Valid() && sessions[key].replayWindow.size == DEFAULT_REPLAY_WINDOW_SIZE
    {
    }

    /** Work on one session leaves the others as they were. */
    twostate lemma OneSessionChanged(session: ClientSession)
      requires old(Valid()) && sessions == old(sessions) && routes == old(routes)
      requires session.info.Key() in sessions && sessions[session.info.Key()] == session
      requires session.Valid()
      requires forall k :: k in sessions && k != session.info.Key() ==>
        unchanged(sessions[k]) && unchanged(sessions[k].replayWindow)
      ensures Valid()
      ensures State().sessions == old(State()).sessions[session.info.Key() := session.State()]
      ensures State().routes == old(State()).routes
    {
      hide ClientSession.Valid, SessionInfo.Key;
    }

    /** The tables after a session object was entered, or taken out. */
    twostate lemma EnteredState(session: ClientSession)
      requires old(Valid()) && sessions == old(sessions)[session.info.Key() := session]
      requires routes == old(routes)[session.info.tunnel := session]
      requires forall k :: k in old(sessions) ==>
        unchanged(old(sessions)[k]) && unchanged(old(sessions)[k].replayWindow)
      ensures State().sessions == old(State()).sessions[session.info.Key() := session.State()]
      ensures State().routes == old(State()).routes[session.info.tunnel := session.info.Key()]
    {
      hide ClientSession.Valid, SessionInfo.Key;
    }

    twostate lemma EnteredValid(session: ClientSession)
      requires old(Valid()) && session.Valid()
      requires session.info.Key() !in old(sessions) && session.info.tunnel !in old(routes)
      requires sessions == old(sessions)[session.info.Key() := session]
      requires routes == old(routes)[session.info.tunnel := session]
      requires forall k :: k in old(sessions) ==>
        unchanged(old(sessions)[k]) && unchanged(old(sessions)[k].replayWindow)
      requires forall k :: k in old(sessions) ==> old(sessions)[k].replayWindow != session.replayWindow
      ensures Valid()
    {
      hide ClientSession.Valid, SessionInfo.Key;
    }

    twostate lemma LeftState(session: ClientSession)
      requires old(Valid()) && session.info.Key() in old(sessions) && old(sessions)[session.info.Key()] == session
      requires sessions == old(sessions) - {session.info.Key()} && routes == old(routes) - {session.info.tunnel}
      requires forall k :: k in old(sessions) ==>
        unchanged(old(sessions)[k]) && unchanged(old(sessions)[k].replayWindow)
      ensures State().sessions == old(State()).sessions - {session.info.Key()}
      ensures State().routes == old(State()).routes - {session.info.tunnel}
    {
      hide ClientSession.Valid, SessionInfo.Key, SameObjects;
    }

    twostate lemma LeftValid(session: ClientSession)
      requires old(Valid()) && session.info.Key() in old(sessions) && old(sessions)[session.info.Key()] == session
      requires sessions == old(sessions) - {session.info.Key()} && routes == old(routes) - {session.info.tunnel}
      requires forall k :: k in old(sessions) ==>
        unchanged(old(sessions)[k]) && unchanged(old(sessions)[k].replayWindow)
      ensures Valid()
    {
      hide ClientSession.Valid, SessionInfo.Key;
    }

    method AddSession(session: ClientSession) returns (error: Option<Error>)
      requires Valid() && session.Valid()
      requires forall k :: k in sessions ==> sessions[k] == session || sessions[k].replayWindow != session.replayWindow
      modifies this
      ensures Valid()
      ensures (State(), error) == SessionTables.AddSession(old(State()), session.State())
      ensures forall k :: k in sessions ==>
        sessions[k] == session || (k in old(sessions) && sessions[k] == old(sessions)[k])
    {
      var key := session.info.Key();
      if key in sessions { return Some(ValueError); }
      if session.info.tunnel in routes { return Some(ValueError); }
      assert forall k :: k in sessions ==> sessions[k] != session;
      sessions := sessions[key := session];
      routes := routes[session.info.tunnel := session];
      EnteredState(session);
      EnteredValid(session);
      hide SameObjects, ClientSession.Valid, ClientSession.State;
      return None;
    }

    method RemoveSession(remote: Address, sessionId: int) returns (error: Option<Error>)
      requires Valid()
      modifies this
      ensures Valid()
      ensures (State(), error) == SessionTables.RemoveSession(old(State()), SessionKey(remote, sessionId))
      ensures forall k :: k in sessions ==> k in old(sessions) && sessions[k] == old(sessions)[k]
    {
      var key := SessionKey(remote, sessionId);
      if key !in sessions { return Some(KeyError); }
      var session := sessions[key];
      assert session.info.Key() == key;
      sessions := sessions - {key};
      routes := routes - {session.info.tunnel};
      LeftState(session);
      LeftValid(session);
      hide SameObjects, ClientSession.Valid;
      return None;
    }

    method ReplaceSession(session: ClientSession) returns (error: Option<Error>)
      requires Valid() && session.Valid()
      requires forall k :: k in sessions ==> sessions[k] == session || sessions[k].replayWindow != session.replayWindow
      modifies this
      ensures Valid()
      ensures (State(), error) == SessionTables.ReplaceSession(old(State()), session.State())
      ensures forall k :: k in sessions ==>
        sessions[k] == session || (k in old(sessions) && sessions[k] == old(sessions)[k])
    {
      if session.info.tunnel in routes {
        var existing := routes[session.info.tunnel];
        error := RemoveSession(existing.info.remote, existing.info.sessionId);
        if error.Some? { return; }
      }
      error := AddSession(session);
    }

    /** `transport.send` for a handshake response. */
    method SendResponse(data: Bytes, peer: Address, ghost serial: nat)
      requires Valid()
      modifies this
      ensures Valid() && sessions == old(sessions) && routes == old(routes)
      ensures State()
        == old(State()).(sent := old(sent) + [Datagram(data, peer)], origins := old(origins) + [Reply(serial)])
    {
      sent := sent + [Datagram(data, peer)];
      origins := origins + [Reply(serial)];
    }

    /** What follows an accepted hello: its response goes out, and a new session replaces the one at its address. */
    method Install(session: ClientSession, data: Bytes, peer: Address, isNew: bool) returns (error: Option<Error>)
      requires Valid()
      requires isNew ==> session.Valid() && session !in Repr() && session.replayWindow !in Repr()
      modifies this
      ensures Valid()
      ensures Repr() <= old(Repr()) + (if isNew then {session, session.replayWindow} else {})
      ensures var t := Answering(old(State()), data, peer, session.serial);
        (State(), error) == if isNew then SessionTables.ReplaceSession(t, session.State()) else (t, None)
    {
      hide SessionTables.ReplaceSession, SameObjects, ClientSession.Valid, ClientSession.State;
      SendResponse(data, peer, session.serial);
      error := None;
      if isNew {
        error := ReplaceSession(session);
      }
    }

    method HandleTunPacket(payload: Bytes) returns (r: Result<bool>)
      requires Valid()
      modifies Repr()
      ensures Valid() && sessions == old(sessions) && routes == old(routes)
      ensures Repr() == old(Repr())
      ensures ProperTables(old(State())) && (State(), r) == HandleTun(old(State()), payload)
    {
      hide CipherSpec.Encrypt, Encode, Ipv4Destination, ReplayWindow.Valid;
      StateIsProper();
      var destination := Ipv4Destination(payload);
      if destination.None? { return Ok(false); }
      if destination.value !in routes { return Ok(false); }
      var session := routes[destination.value];
      if session.sendSequence > MAX_SEQUENCE_NUMBER { return Err(OverflowError); }
      var packet := Packet(DATA, session.info.sessionId, session.sendSequence, payload);
      var sealed := session.info.cipher.Encrypt(packet);
      if sealed.Err? { return Err(sealed.error); }
      var data := Encode(sealed.value);
      if data.Err? { return Err(data.error); }
      sent := sent + [Datagram(data.value, session.info.remote)];
      origins := origins + [Transmission(session.serial, session.sendSequence, payload)];
      session.sendSequence := session.sendSequence + 1;
      OneSessionChanged(session);
      return Ok(true);
    }

    /** Marks an authenticated packet, which never raises here, and writes it to the TUN device. */
    method Deliver(session: ClientSession, p: Packet, payload: Bytes, taken: int) returns (r: Result<bool>)
      requires Valid() && session.info.Key() in sessions && sessions[session.info.Key()] == session
      requires !Refused(DEFAULT_REPLAY_WINDOW_SIZE, session.replayWindow.marks, p.sequence)
      modifies Repr()
      ensures Valid() && sessions == old(sessions) && routes == old(routes)
      ensures State() == old(State()).(
        sessions := old(State()).sessions[
          session.info.Key() := old(session.State()).(marks := old(session.State()).marks + {p.sequence})],
        written := old(written) + [ClientDelivery(session.serial, session.info.tunnel, p, payload)])
      ensures r == if taken == |payload| then Ok(true) else Err(OSError)
    {
      hide ReplayWindow.Valid, Refused, SessionInfo.Key;
      var ok := session.replayWindow.MarkAuthenticated(p.sequence);
      assert ok;
      OneSessionChanged(session);
      written := written + [ClientDelivery(session.serial, session.info.tunnel, p, payload)];
      return if taken != |payload| then Err(OSError) else Ok(true);
    }

    method HandleUdpPacket(p: Packet, peer: Address, taken: int) returns (r: Result<bool>)
      requires Valid()
      modifies Repr()
      ensures Valid() && sessions == old(sessions) && routes == old(routes)
      ensures Repr() == old(Repr())
      ensures ProperTables(old(State())) && (State(), r) == HandleUdp(old(State()), p, peer, taken)
    {
      hide CipherSpec.Decrypt, Ipv4Source, ReplayWindow.Valid, Refused, SameObjects, ClientSession.Valid,
           SessionInfo.Key, SessionInfo.Proper;
      StateIsProper();
      var key := SessionKey(peer, p.sessionId);
      if key !in sessions || p.kind != DATA { return Ok(false); }
      var session := sessions[key];
      SessionAt(key);
      var replay := session.replayWindow.IsReplay(p.sequence);
      if replay { return Ok(false); }
      var decrypted := session.info.cipher.Decrypt(p);
      if decrypted.Err? {
        return if decrypted.error.InvalidTag? then Ok(false) else Err(decrypted.error);
      }
      var source := Ipv4Source(decrypted.value.payload);
      if source != Some(session.info.tunnel) { return Ok(false); }
      r := Deliver(session, p, decrypted.value.payload, taken);
    }
  }
}
