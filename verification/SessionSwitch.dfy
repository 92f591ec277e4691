/** The objects behind the switch protocol: a session's client list, the registry of live sessions,
    and a connection's handle on the session it is attached to, moved in place. */
module SessionSwitch {
  import opened Prelude
  import P = SwitchProtocol

  class Session {
    var name: string
    var closing: bool
    var nextClientId: nat
    var clients: seq<nat>

    ghost function Value(): P.Session
      reads this
    {
      P.Session(name, closing, nextClientId, clients)
    }

    constructor (name: string)
      ensures Value() == P.Session(name, false, 0, [])
    {
      this.name, closing, nextClientId, clients := name, false, 0, [];
    }

    /** Every number in the list was drawn from the counter. */
    ghost predicate Drawn()
      reads this
    {
      forall c :: c in clients ==> c < nextClientId
    }

    /** `id` is in the list once. */
    ghost predicate Entered(id: nat)
      reads this
    {
      multiset(clients)[id] == 1 && id < nextClientId
    }

    /** Refused once the session is closing; else the next number, entered at the end. */
    method RegisterClient() returns (r: Option<nat>)
      modifies this`nextClientId, this`clients
      ensures r == if old(closing) then None else Some(old(nextClientId))
      ensures Value() == if old(closing) then old(Value())
                         else P.Pushed(old(Value()).(nextId := old(nextClientId) + 1), old(nextClientId))
      ensures old(Drawn()) ==> Drawn() && (r.Some? ==> Entered(r.value))
    {
      if closing {
        return None;
      }
      var id := nextClientId;
      assert Drawn() ==> id !in clients;
      nextClientId := nextClientId + 1;
      clients := clients + [id];
      r := Some(id);
    }

    method DeregisterClient(id: nat)
      modifies this`clients
      ensures Value() == P.Removed(old(Value()), id)
      ensures id !in clients
      ensures old(Drawn()) ==> Drawn()
    {
      var keep := (c: nat) => c != id;
      forall c
        ensures c in Filter(clients, keep) <==> c in clients && c != id
      {
        FilterMember(clients, keep, c);
      }
      clients := Filter(clients, keep);
    }
  }

  class Registry {
    var inner: map<string, Session>

    predicate Live(name: string)
      reads this, inner.Values
    {
      name in inner && !inner[name].closing
    }

    constructor ()
      ensures inner == map[]
    {
      inner := map[];
    }

    /** The live session of that name; a closing one is dropped from the map on the way. */
    method Get(name: string) returns (r: Option<Session>)
      modifies this`inner
      ensures r == if name in old(inner) && !old(inner)[name].closing then Some(old(inner)[name]) else None
      ensures inner == if name in old(inner) && old(inner)[name].closing then old(inner) - {name} else old(inner)
    {
      if name in inner {
        var s := inner[name];
        if s.closing {
          inner := inner - {name};
          return None;
        }
        return Some(s);
      }
      r := None;
    }

    /** The live session of that name, or a new one. */
    method CreateDeclared(name: string, builds: bool) returns (r: Option<Session>)
      modifies this`inner
      ensures var live := name in old(inner) && !old(inner)[name].closing;
              && (live ==> r == Some(old(inner)[name]) && inner == old(inner))
              && (!live && !builds ==> r == None && inner == old(inner))
              && (!live && builds ==>
                    r.Some? && fresh(r.value) && inner == old(inner)[name := r.value]
                    && r.value.Value() == P.Session(name, false, 0, []))
    {
      if name in inner && !inner[name].closing {
        return Some(inner[name]);
      }
      if !builds {
        return None;
      }
      var s := new Session(name);
      inner := inner[name := s];
      r := Some(s);
    }
  }

  class ClientCtx {
    const registry: Registry
    var session: Session
    var clientId: nat
    var repoints: seq<Session>

    constructor (registry: Registry, session: Session, clientId: nat)
      requires session.Entered(clientId)
      ensures this.registry == registry && this.session == session && this.clientId == clientId
      ensures repoints == [] && Attached()
    {
      this.registry, this.session, this.clientId, repoints := registry, session, clientId, [];
    }

    ghost predicate Attached()
      reads this, session
    {
      session.Entered(clientId)
    }

    /** The move proper, once a target is found. */
    method MoveTo(target: Session) returns (moved: bool)
      requires Attached() && target.Drawn() && session.Drawn()
      modifies this`session, this`clientId, this`repoints, session`clients, target`nextClientId, target`clients
      ensures Attached() && target.Drawn() && old(session).Drawn()
      ensures moved <==> old(target.name != session.name && !target.closing)
      ensures !moved ==>
                session == old(session) && clientId == old(clientId) && repoints == old(repoints)
                && session.Value() == old(session.Value()) && target.Value() == old(target.Value())
      ensures moved ==>
                session == target && clientId == old(target.nextClientId) && repoints == old(repoints) + [target]
                && target.clients == old(target.clients) + [clientId]
                && old(session).Value() == P.Removed(old(session.Value()), old(clientId))
                && old(clientId) !in old(session).clients
    {
      moved := false;
      if target.name == session.name {
        return;
      }
      var number := target.RegisterClient();
      if number.None? {
        return;
      }
      repoints := repoints + [target];
      var prior, priorId := session, clientId;
      session, clientId := target, number.value;
      prior.DeregisterClient(priorId);
      moved := true;
    }

    /** The live session of that name, built first if it is declared and not live. */
    method Lookup(name: string, declared: bool, builds: bool) returns (r: Option<Session>)
      requires forall s :: s in registry.inner.Values ==> s.Drawn()
      modifies registry`inner
      ensures r.Some? <==> old(registry.Live(name)) || (declared && builds)
      ensures r.Some? ==> r.value.Drawn()
      ensures old(registry.Live(name)) ==> r == Some(old(registry.inner[name])) && !r.value.closing
      ensures !old(registry.Live(name)) && r.Some? ==> fresh(r.value) && r.value.Value() == P.Session(name, false, 0, [])
      ensures registry.inner == if r.Some? then old(registry.inner)[name := r.value] else old(registry.inner) - {name}
    {
      r := registry.Get(name);
      if r.None? && declared {
        r := registry.CreateDeclared(name, builds);
      }
    }

    /** Moves the client to another live session, or leaves it and every client list as they were.
        `declared` says whether the name is a declared template, `builds` whether building works. */
    method SwitchSession(name: string, declared: bool, builds: bool) returns (moved: bool)
      requires Attached() && session.Drawn()
      requires forall s :: s in registry.inner.Values ==> s.Drawn()
      modifies this`session, this`clientId, this`repoints, registry`inner, session`clients
      modifies registry.inner.Values`nextClientId, registry.inner.Values`clients
      ensures Attached() && session.Drawn() && old(session).Drawn()
      ensures moved <==>
                if old(registry.Live(name)) then old(registry.inner[name].name) != old(session.name)
                else declared && builds && name != old(session.name)
      ensures moved && old(registry.Live(name)) ==> session == old(registry.inner[name])
      ensures moved && !old(registry.Live(name)) ==> fresh(session) && session.name == name
      ensures !old(registry.Live(name)) && declared && builds ==>
                name in registry.inner && fresh(registry.inner[name]) && (moved ==> session == registry.inner[name])
      ensures registry.inner == if old(registry.Live(name)) then old(registry.inner)
                                else if declared && builds then old(registry.inner)[name := registry.inner[name]]
                                else old(registry.inner) - {name}
      ensures !moved ==>
                session == old(session) && clientId == old(clientId) && repoints == old(repoints)
                && session.Value() == old(session.Value())
                && forall s :: s in old(registry.inner).Values ==> s.Value() == old(s.Value())
      ensures moved ==>
                session.name != old(session.name)
                && repoints == old(repoints) + [session]
                && session.clients != [] && session.clients[|session.clients| - 1] == clientId
      ensures moved ==>
                old(session).Value() == P.Removed(old(session.Value()), old(clientId))
                && old(clientId) !in old(session).clients
                && forall s :: s in old(registry.inner).Values && s != session && s != old(session) ==>
                     s.Value() == old(s.Value())
    {
      var found := Lookup(name, declared, builds);
      if found.None? {
        return false;
      }
      moved := MoveTo(found.value);
    }
  }
}
