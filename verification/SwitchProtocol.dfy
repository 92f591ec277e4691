/** Client registrations while connections attach, switch sessions and leave, every shared access
    its own step: any number of connections interleave, sessions come, close and are renamed. */
module SwitchProtocol {
  import opened Prelude

  /** One client slot of one session: the session (by identity, not name) and the client number. */
  datatype Registration = Registration(session: nat, id: nat)

  datatype Session = Session(name: string, closing: bool, nextId: nat, clients: seq<nat>)

  /** How far a connection is. `at` is the registration its input loop works with. */
  datatype Phase =
    // attaching
    | Attaching(target: nat)
    | Admitted(target: nat)
    | Numbered(target: nat, id: nat)
    | Greeting(at: Registration)
    // in the input loop, between messages
    | Idle(at: Registration)
    // inside a switch; `asked` tells a client's message from an overlay's request
    | Looking(at: Registration, name: string, asked: bool)
    | Missing(at: Registration, name: string, asked: bool)
    | Found(at: Registration, target: nat, asked: bool)
    | Compared(at: Registration, target: nat, name: string, asked: bool)
    | Switching(at: Registration, target: nat, asked: bool)
    | SwitchAdmitted(at: Registration, target: nat, asked: bool)
    | SwitchNumbered(at: Registration, target: nat, id: nat, asked: bool)
    | Both(at: Registration, next: Registration, asked: bool)
    | Leaving(at: Registration, prior: Registration)
    // over
    | Exiting(at: Registration)
    | Lost(at: Registration)
    | Gone
  {
    predicate InLoop() { !Attaching? && !Admitted? && !Numbered? && !Greeting? && !Exiting? && !Lost? && !Gone? }

    predicate Asking() {
      (Looking? || Missing? || Found? || Compared? || Switching? || SwitchAdmitted? || SwitchNumbered? || Both?) && asked
    }
  }

  /** `repoints` and `invalidates` went to the renderer; `repaintsAsked` counts the client's
      messages that want a repaint, `overlayMoves` the switches an overlay asked for. */
  datatype Conn = Conn(
    phase: Phase, first: nat, repoints: seq<nat>, invalidates: nat, repaintsAsked: nat, overlayMoves: nat)

  datatype State = State(sessions: seq<Session>, names: map<string, nat>, conns: seq<Conn>)

  datatype Action =
    | Advance
    | Greet(sent: bool)
    | Create(built: bool)
    | Request(name: string, byMessage: bool)
    | Redraw
    | Leave

  datatype Step =
    | Act(k: nat, action: Action)
    | Connect(target: nat)
    | Open(name: string)
    | Close(session: nat)
    | Unlist(name: string)
    | Rename(from: string, to: string)

  // --- one session ---

  function Pushed(s: Session, id: nat): Session { s.(clients := s.clients + [id]) }

  function Removed(s: Session, id: nat): Session { s.(clients := Filter(s.clients, (c: nat) => c != id)) }

  predicate Live(st: State, name: string) {
    name in st.names && st.names[name] < |st.sessions| && !st.sessions[st.names[name]].closing
  }

  // --- one step ---

  predicate Enabled(p: Phase, a: Action) {
    match a
    case Advance => !p.Greeting? && !p.Idle? && !p.Missing? && !p.Lost? && !p.Gone?
    case Greet(_) => p.Greeting?
    case Create(_) => p.Missing?
    case Request(_, _) => p.Idle?
    case Redraw => p.Idle?
    case Leave => p.Idle?
  }

  /** A failed switch; one the client's message asked for repaints the screen. */
  function Failed(c: Conn, at: Registration, asked: bool): Conn {
    c.(phase := Idle(at), invalidates := c.invalidates + if asked then 1 else 0)
  }

  /** The sessions a phase mentions exist. */
  predicate InBounds(st: State, p: Phase) {
    var n := |st.sessions|;
    && ((p.Attaching? || p.Admitted? || p.Numbered? || p.Found? || p.Compared? || p.Switching? || p.SwitchAdmitted?
         || p.SwitchNumbered?) ==> p.target < n)
    && ((p.Greeting? || p.InLoop() || p.Exiting? || p.Lost?) ==> p.at.session < n)
    && (p.Both? ==> p.next.session < n)
    && (p.Leaving? ==> p.prior.session < n)
  }

  function NextConn(st: State, c: Conn, a: Action): Conn
    requires Enabled(c.phase, a) && InBounds(st, c.phase)
  {
    match (c.phase, a)
    case (Attaching(t), _) => c.(phase := if st.sessions[t].closing then Gone else Admitted(t))
    case (Admitted(t), _) => c.(phase := Numbered(t, st.sessions[t].nextId))
    case (Numbered(t, id), _) => c.(phase := Greeting(Registration(t, id)), first := t)
    case (Greeting(at), Greet(sent)) => c.(phase := if sent then Idle(at) else Lost(at))
    case (Idle(at), Request(name, byMessage)) =>
      c.(phase := Looking(at, name, byMessage), repaintsAsked := c.repaintsAsked + if byMessage then 1 else 0)
    case (Idle(_), Redraw) => c.(invalidates := c.invalidates + 1, repaintsAsked := c.repaintsAsked + 1)
    case (Idle(at), _) => c.(phase := Exiting(at))
    case (Looking(at, name, asked), _) =>
      c.(phase := if Live(st, name) then Found(at, st.names[name], asked) else Missing(at, name, asked))
    case (Missing(at, name, asked), Create(built)) =>
      if !built then Failed(c, at, asked)
      else c.(phase := Found(at, if Live(st, name) then st.names[name] else |st.sessions|, asked))
    case (Found(at, t, asked), _) => c.(phase := Compared(at, t, st.sessions[t].name, asked))
    case (Compared(at, t, name, asked), _) =>
      if name == st.sessions[at.session].name then Failed(c, at, asked) else c.(phase := Switching(at, t, asked))
    case (Switching(at, t, asked), _) =>
      if st.sessions[t].closing then Failed(c, at, asked) else c.(phase := SwitchAdmitted(at, t, asked))
    case (SwitchAdmitted(at, t, asked), _) => c.(phase := SwitchNumbered(at, t, st.sessions[t].nextId, asked))
    case (SwitchNumbered(at, t, id, asked), _) => c.(phase := Both(at, Registration(t, id), asked))
    case (Both(at, next, asked), _) =>
      c.(phase := Leaving(next, at), repoints := c.repoints + [next.session],
         overlayMoves := c.overlayMoves + if asked then 0 else 1)
    case (Leaving(at, _), _) => c.(phase := Idle(at))
    case (Exiting(_), _) => c.(phase := Gone)
    case _ => c
  }

  function NextSessions(st: State, p: Phase, a: Action): seq<Session>
    requires Enabled(p, a) && InBounds(st, p)
  {
    var all := st.sessions;
    match p
    case Admitted(t) => all[t := all[t].(nextId := all[t].nextId + 1)]
    case SwitchAdmitted(_, t, _) => all[t := all[t].(nextId := all[t].nextId + 1)]
    case Numbered(t, id) => all[t := Pushed(all[t], id)]
    case SwitchNumbered(_, t, id, _) => all[t := Pushed(all[t], id)]
    case Leaving(_, prior) => all[prior.session := Removed(all[prior.session], prior.id)]
    case Exiting(at) => all[at.session := Removed(all[at.session], at.id)]
    case Missing(_, name, _) =>
      if a == Create(true) && !Live(st, name) then all + [Session(name, false, 0, [])] else all
    case _ => all
  }

  function NextNames(st: State, p: Phase, a: Action): map<string, nat> {
    if p.Looking? && !Live(st, p.name) then st.names - {p.name}
    else if p.Missing? && a == Create(true) && !Live(st, p.name) then st.names[p.name := |st.sessions|]
    else st.names
  }

  function NewConn(target: nat): Conn { Conn(Attaching(target), target, [], 0, 0, 0) }

  predicate Can(st: State, step: Step) {
    match step
    case Act(k, a) => k < |st.conns| && Enabled(st.conns[k].phase, a)
    case Connect(target) => target < |st.sessions|
    case Open(name) => !Live(st, name)
    case Close(s) => s < |st.sessions|
    case Unlist(name) => name in st.names
    case Rename(from, to) => from in st.names && to !in st.names
  }

  predicate Sane(st: State) {
    && (forall name :: name in st.names ==> st.names[name] < |st.sessions|)
    && (forall k :: 0 <= k < |st.conns| ==> InBounds(st, st.conns[k].phase))
  }

  function After(st: State, step: Step): State
    requires Sane(st) && Can(st, step)
  {
    match step
    case Act(k, a) =>
      var c := st.conns[k];
      State(NextSessions(st, c.phase, a), NextNames(st, c.phase, a), st.conns[k := NextConn(st, c, a)])
    case Connect(target) => st.(conns := st.conns + [NewConn(target)])
    case Open(name) =>
      st.(sessions := st.sessions + [Session(name, false, 0, [])], names := st.names[name := |st.sessions|])
    case Close(s) => st.(sessions := st.sessions[s := st.sessions[s].(closing := true)])
    case Unlist(name) => st.(names := st.names - {name})
    case Rename(from, to) =>
      var s := st.names[from];
      State(st.sessions[s := st.sessions[s].(name := to)], (st.names - {from})[to := s], st.conns)
  }

  // --- what is claimed by whom ---

  function Is(a: Registration, b: Registration): nat { if a == b then 1 else 0 }

  /** How often a phase holds `r` in the client table; with `pending`, numbers it has drawn but not
      yet entered count too. */
  function Weight(p: Phase, r: Registration, pending: bool): nat {
    match p
    case Attaching(_) => 0
    case Admitted(_) => 0
    case Numbered(t, id) => if pending then Is(Registration(t, id), r) else 0
    case SwitchNumbered(at, t, id, _) => Is(at, r) + if pending then Is(Registration(t, id), r) else 0
    case Both(at, next, _) => Is(at, r) + Is(next, r)
    case Leaving(at, prior) => Is(at, r) + Is(prior, r)
    case Gone => 0
    case _ => Is(p.at, r)
  }

  function Total(conns: seq<Conn>, r: Registration, pending: bool): nat {
    if conns == [] then 0 else Weight(conns[0].phase, r, pending) + Total(conns[1..], r, pending)
  }

  /** How often `r` is in the client table. */
  function Entries(sessions: seq<Session>, r: Registration): nat {
    if r.session < |sessions| then multiset(sessions[r.session].clients)[r.id] else 0
  }

  /** `r` is in the table exactly as often as connections hold it; nobody shares a claim; and every
      claimed number has been drawn from its session's counter. */
  predicate Accounted(st: State, r: Registration) {
    && Entries(st.sessions, r) == Total(st.conns, r, false)
    && Total(st.conns, r, true) <= 1
    && (Total(st.conns, r, true) > 0 ==> r.session < |st.sessions| && r.id < st.sessions[r.session].nextId)
  }

  ghost predicate Inv(st: State) {
    Sane(st) && forall r: Registration :: Accounted(st, r)
  }

  // --- sums ---

  lemma {:induction false} TotalUpdate(conns: seq<Conn>, k: nat, c: Conn, r: Registration, pending: bool)
    requires k < |conns|
    ensures Total(conns[k := c], r, pending) + Weight(conns[k].phase, r, pending) ==
            Total(conns, r, pending) + Weight(c.phase, r, pending)
  {
    hide Weight;
    if k == 0 {
      assert conns[k := c][1..] == conns[1..];
    } else {
      assert conns[k := c][1..] == conns[1..][k - 1 := c];
      TotalUpdate(conns[1..], k - 1, c, r, pending);
    }
  }

  lemma {:induction false} TotalAppend(conns: seq<Conn>, c: Conn, r: Registration, pending: bool)
    ensures Total(conns + [c], r, pending) == Total(conns, r, pending) + Weight(c.phase, r, pending)
  {
    hide Weight;
    if conns == [] {
      assert (conns + [c])[1..] == [];
    } else {
      assert (conns + [c])[1..] == conns[1..] + [c];
      TotalAppend(conns[1..], c, r, pending);
    }
  }

  lemma {:induction false} TotalPending(conns: seq<Conn>, r: Registration)
    ensures Total(conns, r, false) <= Total(conns, r, true)
  {
    if conns != [] {
      TotalPending(conns[1..], r);
    }
  }

  lemma {:induction false} TotalCovers(conns: seq<Conn>, k: nat, r: Registration, pending: bool)
    requires k < |conns|
    ensures Weight(conns[k].phase, r, pending) <= Total(conns, r, pending)
    ensures forall l :: 0 <= l < |conns| && l != k ==>
              Weight(conns[k].phase, r, pending) + Weight(conns[l].phase, r, pending) <= Total(conns, r, pending)
  {
    var gone := conns[k].(phase := Gone);
    var rest := conns[k := gone];
    TotalUpdate(conns, k, gone, r, pending);
    forall l | 0 <= l < |conns| && l != k
      ensures Weight(conns[l].phase, r, pending) <= Total(rest, r, pending)
    {
      TotalUpdate(rest, l, gone, r, pending);
      assert rest[l] == conns[l];
    }
  }

  lemma {:induction false} TotalWitness(conns: seq<Conn>, r: Registration, pending: bool) returns (k: nat)
    requires Total(conns, r, pending) > 0
    ensures k < |conns| && Weight(conns[k].phase, r, pending) > 0
  {
    hide Weight;
    if Weight(conns[0].phase, r, pending) > 0 {
      k := 0;
    } else {
      k := TotalWitness(conns[1..], r, pending);
      k := k + 1;
    }
  }

  // --- every step keeps the accounts ---

  lemma NextInBounds(st: State, c: Conn, a: Action)
    requires Enabled(c.phase, a) && InBounds(st, c.phase) && Sane(st)
    ensures |st.sessions| <= |NextSessions(st, c.phase, a)|
    ensures InBounds(st.(sessions := NextSessions(st, c.phase, a)), NextConn(st, c, a).phase)
  {
    assert forall name :: Live(st, name) ==> st.names[name] < |st.sessions|;
    hide Live, Sane;
  }

  lemma MoreInBounds(st: State, st': State, p: Phase)
    requires InBounds(st, p) && |st.sessions| <= |st'.sessions|
    ensures InBounds(st', p)
  {
  }

  lemma NextNamesInBounds(st: State, p: Phase, a: Action)
    requires Sane(st) && Enabled(p, a) && InBounds(st, p)
    ensures var names := NextNames(st, p, a);
            forall name :: name in names ==> names[name] < |NextSessions(st, p, a)|
  {
    hide Live;
    assert |st.sessions| <= |NextSessions(st, p, a)|;
  }

  lemma SaneAfter(st: State, step: Step)
    requires Sane(st) && Can(st, step)
    ensures Sane(After(st, step))
  {
    var st' := After(st, step);
    if step.Act? {
      var c := st.conns[step.k];
      NextInBounds(st, c, step.action);
      NextNamesInBounds(st, c.phase, step.action);
      assert InBounds(st', NextConn(st, c, step.action).phase);
    }
    forall l | 0 <= l < |st.conns|
      ensures InBounds(st', st.conns[l].phase)
    {
      MoreInBounds(st, st', st.conns[l].phase);
    }
    hide InBounds, NextConn, NextSessions, NextNames, Enabled;
  }

  lemma PushEntries(all: seq<Session>, t: nat, id: nat, r: Registration)
    requires t < |all|
    ensures Entries(all[t := Pushed(all[t], id)], r) == Entries(all, r) + Is(Registration(t, id), r)
  {
  }

  lemma RemoveEntries(all: seq<Session>, gone: Registration, r: Registration)
    requires gone.session < |all|
    ensures Entries(all[gone.session := Removed(all[gone.session], gone.id)], r) ==
            if r == gone then 0 else Entries(all, r)
  {
    var id := gone.id;
    FilterOccurrences(all[gone.session].clients, (c: nat) => c != id, r.id);
  }

  /** The number a phase has drawn and not yet entered in the table. */
  function Drawn(p: Phase): Option<Registration> {
    match p
    case Numbered(t, id) => Some(Registration(t, id))
    case SwitchNumbered(_, t, id, _) => Some(Registration(t, id))
    case _ => None
  }

  /** The registration the next step of a phase takes out of the table. */
  function Dropping(p: Phase): Option<Registration> {
    match p
    case Leaving(_, prior) => Some(prior)
    case Exiting(at) => Some(at)
    case _ => None
  }

  predicate Drawing(p: Phase) { p.Admitted? || p.SwitchAdmitted? }

  function IsSome(a: Option<Registration>, r: Registration): nat { if a == Some(r) then 1 else 0 }

  /** What a step does to a connection's holdings and claims. */
  lemma WeightChange(st: State, c: Conn, a: Action, r: Registration)
    requires Enabled(c.phase, a) && InBounds(st, c.phase)
    ensures var p, next := c.phase, NextConn(st, c, a).phase;
            && Weight(next, r, false) == Weight(p, r, false) + IsSome(Drawn(p), r) - IsSome(Dropping(p), r)
            && Weight(next, r, true) == Weight(p, r, true) - IsSome(Dropping(p), r)
                 + (if Drawing(p) && r == Registration(p.target, st.sessions[p.target].nextId) then 1 else 0)
  {
    hide Live;
  }

  /** What a step does to the sessions. */
  lemma SessionsChange(st: State, p: Phase, a: Action)
    requires Enabled(p, a) && InBounds(st, p)
    ensures var all, next := st.sessions, NextSessions(st, p, a);
            if Drawn(p).Some? then
              var d := Drawn(p).value;
              d.session < |all| && next == all[d.session := Pushed(all[d.session], d.id)]
            else if Dropping(p).Some? then
              var d := Dropping(p).value;
              d.session < |all| && next == all[d.session := Removed(all[d.session], d.id)]
            else if Drawing(p) then
              next == all[p.target := all[p.target].(nextId := all[p.target].nextId + 1)]
            else next == all || (p.Missing? && next == all + [Session(p.name, false, 0, [])])
  {
    hide Live;
  }

  /** The acting connection changes the table by exactly what it comes to hold or lets go. */
  lemma ActEntries(st: State, k: nat, a: Action, r: Registration)
    requires Sane(st) && Can(st, Act(k, a)) && Accounted(st, r)
    ensures var p := st.conns[k].phase;
            Entries(NextSessions(st, p, a), r) == Entries(st.sessions, r) + IsSome(Drawn(p), r) - IsSome(Dropping(p), r)
  {
    var p := st.conns[k].phase;
    assert InBounds(st, p);
    SessionsChange(st, p, a);
    if Drawn(p).Some? {
      PushEntries(st.sessions, Drawn(p).value.session, Drawn(p).value.id, r);
    } else if Dropping(p).Some? {
      RemoveEntries(st.sessions, Dropping(p).value, r);
      TotalCovers(st.conns, k, r, false);
      TotalPending(st.conns, r);
    }
    hide NextSessions, Sane, InBounds, Enabled;
  }

  lemma ActAccounted(st: State, k: nat, a: Action, r: Registration)
    requires Sane(st) && Can(st, Act(k, a)) && Accounted(st, r)
    ensures Accounted(After(st, Act(k, a)), r)
  {
    var c := st.conns[k];
    var next := NextConn(st, c, a);
    assert InBounds(st, c.phase);
    ActEntries(st, k, a, r);
    WeightChange(st, c, a, r);
    SessionsChange(st, c.phase, a);
    TotalUpdate(st.conns, k, next, r, false);
    TotalUpdate(st.conns, k, next, r, true);
    TotalCovers(st.conns, k, r, true);
    hide Entries, Weight, NextConn, NextSessions, Sane, InBounds, Enabled, Drawn, Dropping;
  }

  lemma OthersAccounted(st: State, step: Step, r: Registration)
    requires Sane(st) && Can(st, step) && !step.Act? && Accounted(st, r)
    ensures Accounted(After(st, step), r)
  {
    if step.Connect? {
      TotalAppend(st.conns, NewConn(step.target), r, false);
      TotalAppend(st.conns, NewConn(step.target), r, true);
    }
  }

  lemma InvAfter(st: State, step: Step)
    requires Inv(st) && Can(st, step)
    ensures Inv(After(st, step))
  {
    SaneAfter(st, step);
    hide After, Can, Accounted, Sane;
    forall r: Registration
      ensures Accounted(After(st, step), r)
    {
      assert Accounted(st, r);
      if step.Act? {
        ActAccounted(st, step.k, step.action, r);
      } else {
        OthersAccounted(st, step, r);
      }
    }
  }

  // --- runs ---

  ghost predicate Runs(st: State, steps: seq<Step>)
    requires Inv(st)
    decreases |steps|
  {
    steps == [] ||
    (Can(st, steps[0]) && (InvAfter(st, steps[0]); Runs(After(st, steps[0]), steps[1..])))
  }

  ghost function Run(st: State, steps: seq<Step>): (end: State)
    requires Inv(st) && Runs(st, steps)
    ensures Inv(end)
    decreases |steps|
  {
    if steps == [] then st else (InvAfter(st, steps[0]); Run(After(st, steps[0]), steps[1..]))
  }

  const START := State([], map[], [])

  lemma StartInv()
    ensures Inv(START)
  {
  }

  predicate Registered(st: State, r: Registration)
    ensures Registered(st, r) ==> r.session < |st.sessions|
  {
    r.session < |st.sessions| && r.id in st.sessions[r.session].clients
  }

  /** A connection holds a registration: as its current one, or as the other end of a switch. */
  predicate Holds(p: Phase, r: Registration) { Weight(p, r, false) > 0 }

  lemma HeldIsRegistered(st: State, k: nat, r: Registration)
    requires Inv(st) && k < |st.conns| && Holds(st.conns[k].phase, r)
    ensures Registered(st, r)
  {
    assert Accounted(st, r);
    TotalCovers(st.conns, k, r, false);
  }

  lemma RegisteredIsHeld(st: State, r: Registration) returns (k: nat)
    requires Inv(st) && Registered(st, r)
    ensures r.id < st.sessions[r.session].nextId && multiset(st.sessions[r.session].clients)[r.id] == 1
    ensures k < |st.conns| && Holds(st.conns[k].phase, r)
    ensures forall l :: 0 <= l < |st.conns| && l != k ==> !Holds(st.conns[l].phase, r)
  {
    assert Accounted(st, r);
    TotalPending(st.conns, r);
    k := TotalWitness(st.conns, r, false);
    TotalCovers(st.conns, k, r, false);
  }

  lemma OwnershipIn(st: State)
    requires Inv(st)
    ensures forall k :: 0 <= k < |st.conns| && st.conns[k].phase.InLoop() ==> Registered(st, st.conns[k].phase.at)
    ensures forall k, r :: 0 <= k < |st.conns| && Holds(st.conns[k].phase, r) ==> Registered(st, r)
    ensures forall r :: Registered(st, r) ==>
              && r.id < st.sessions[r.session].nextId
              && multiset(st.sessions[r.session].clients)[r.id] == 1
              && (exists k :: 0 <= k < |st.conns| && Holds(st.conns[k].phase, r))
              && (forall k, l :: 0 <= k < l < |st.conns| ==>
                    !(Holds(st.conns[k].phase, r) && Holds(st.conns[l].phase, r)))
  {
    hide Inv, Registered;
    forall k, r | 0 <= k < |st.conns| && Holds(st.conns[k].phase, r)
      ensures Registered(st, r)
    {
      HeldIsRegistered(st, k, r);
    }
    forall k | 0 <= k < |st.conns| && st.conns[k].phase.InLoop()
      ensures Registered(st, st.conns[k].phase.at)
    {
      assert Holds(st.conns[k].phase, st.conns[k].phase.at);
    }
    forall r | Registered(st, r)
      ensures r.id < st.sessions[r.session].nextId
      ensures multiset(st.sessions[r.session].clients)[r.id] == 1
      ensures exists k :: 0 <= k < |st.conns| && Holds(st.conns[k].phase, r)
      ensures forall k, l :: 0 <= k < l < |st.conns| ==> !(Holds(st.conns[k].phase, r) && Holds(st.conns[l].phase, r))
    {
      var k := RegisteredIsHeld(st, r);
    }
  }

  /** In every reachable state, whatever has interleaved: a connection in its input loop is
      registered under its current (session, number); every registration is held by exactly one
      connection, and appears in the table once; numbers in the table have been drawn. */
  lemma {:induction false} Ownership(steps: seq<Step>)
    requires (StartInv(); Runs(START, steps))
    ensures var st := (StartInv(); Run(START, steps));
            && (forall k :: 0 <= k < |st.conns| && st.conns[k].phase.InLoop() ==> Registered(st, st.conns[k].phase.at))
            && (forall k, r :: 0 <= k < |st.conns| && Holds(st.conns[k].phase, r) ==> Registered(st, r))
            && (forall r :: Registered(st, r) ==>
                  && r.id < st.sessions[r.session].nextId
                  && multiset(st.sessions[r.session].clients)[r.id] == 1
                  && (exists k :: 0 <= k < |st.conns| && Holds(st.conns[k].phase, r))
                  && (forall k, l :: 0 <= k < l < |st.conns| ==>
                        !(Holds(st.conns[k].phase, r) && Holds(st.conns[l].phase, r))))
  {
    StartInv();
    OwnershipIn(Run(START, steps));
  }

  /** What is left when nobody is connected any more: exactly the registrations of connections
      that broke off while the attach was being answered. */
  lemma OnlyLostRemain(st: State)
    requires Inv(st) && forall k :: 0 <= k < |st.conns| ==> st.conns[k].phase.Gone? || st.conns[k].phase.Lost?
    ensures forall r :: Registered(st, r) <==> exists k :: 0 <= k < |st.conns| && st.conns[k].phase == Lost(r)
  {
    hide Inv, Registered;
    forall r
      ensures Registered(st, r) <==> exists k :: 0 <= k < |st.conns| && st.conns[k].phase == Lost(r)
    {
      if Registered(st, r) {
        var k := RegisteredIsHeld(st, r);
        assert st.conns[k].phase == Lost(r);
      }
      if k :| 0 <= k < |st.conns| && st.conns[k].phase == Lost(r) {
        HeldIsRegistered(st, k, r);
      }
    }
  }

  /** A client that is gone by the time its attach is answered. */
  const BROKEN_ATTACH: seq<Step> :=
    [Open("main"), Connect(0), Act(0, Advance), Act(0, Advance), Act(0, Advance), Act(0, Greet(false))]

  /** Such a connection is reachable, and its registration is left in the table. */
  lemma LostRegistrationReached()
    ensures (StartInv(); Runs(START, BROKEN_ATTACH))
    ensures var end := (StartInv(); Run(START, BROKEN_ATTACH));
            && |end.conns| == 1 && end.conns[0].phase == Lost(Registration(0, 0))
            && Registered(end, Registration(0, 0))
  {
  }

  /** Cleaning up takes the connection's registration out of the table and nothing else. */
  lemma CleanupRemovesOne(st: State, k: nat, r: Registration)
    requires Inv(st) && k < |st.conns| && st.conns[k].phase.Exiting?
    ensures var st' := After(st, Act(k, Advance));
            Entries(st'.sessions, r) == if r == st.conns[k].phase.at then 0 else Entries(st.sessions, r)
  {
    assert Accounted(st, r);
    ActEntries(st, k, Advance, r);
    TotalCovers(st.conns, k, r, false);
    TotalPending(st.conns, r);
  }

  // --- switching ---

  /** A connection still on `at`: idle, or in a switch that has not taken effect. */
  predicate Undecided(p: Phase, at: Registration) {
    p.InLoop() && !p.Both? && !p.Leaving? && p.at == at
  }

  /** A connection that has left `at` for good, or is about to. */
  predicate Departed(p: Phase, at: Registration) {
    || Weight(p, at, true) == 0
    || (p.Both? && p.at == at && p.next != at)
    || (p.Leaving? && p.prior == at && p.at != at)
    || p == Exiting(at)
  }

  predicate AlreadyDrawn(st: State, r: Registration) {
    r.session < |st.sessions| && r.id < st.sessions[r.session].nextId
  }

  lemma StaysDrawn(st: State, step: Step, r: Registration)
    requires Sane(st) && Can(st, step) && AlreadyDrawn(st, r)
    ensures AlreadyDrawn(After(st, step), r)
  {
    if step.Act? {
      assert InBounds(st, st.conns[step.k].phase);
      SessionsChange(st, st.conns[step.k].phase, step.action);
      hide NextSessions, Sane, InBounds, Enabled;
    }
  }

  lemma DepartedStays(st: State, c: Conn, a: Action, at: Registration)
    requires Enabled(c.phase, a) && InBounds(st, c.phase)
    requires AlreadyDrawn(st, at) && Departed(c.phase, at)
    ensures Departed(NextConn(st, c, a).phase, at)
  {
    WeightChange(st, c, a, at);
    hide Live, InBounds;
  }

  lemma UndecidedNext(st: State, c: Conn, a: Action, at: Registration)
    requires Enabled(c.phase, a) && InBounds(st, c.phase)
    requires Undecided(c.phase, at) && Weight(NextConn(st, c, a).phase, at, true) <= 1
    ensures Undecided(NextConn(st, c, a).phase, at) || Departed(NextConn(st, c, a).phase, at)
    ensures Drawn(c.phase).Some? ==> Departed(NextConn(st, c, a).phase, at)
    ensures Dropping(c.phase).None?
  {
    hide Live, InBounds;
  }

  /** A step that leaves every session's client table as it was. */
  ghost predicate KeepsTable(st: State, step: Step)
    requires Sane(st) && Can(st, step)
  {
    forall r: Registration :: Entries(After(st, step).sessions, r) == Entries(st.sessions, r)
  }

  /** None of connection `k`'s own steps touches a client table. */
  ghost predicate OwnStepsKeepTable(st: State, steps: seq<Step>, k: nat)
    requires Inv(st) && Runs(st, steps)
    decreases |steps|
  {
    steps == [] ||
    ((steps[0].Act? && steps[0].k == k ==> KeepsTable(st, steps[0])) &&
     (InvAfter(st, steps[0]); OwnStepsKeepTable(After(st, steps[0]), steps[1..], k)))
  }

  /** What one step of a run does to connection `k`, which is on `at` or has departed from it. */
  lemma StepFromOn(st: State, step: Step, k: nat, at: Registration)
    requires Inv(st) && Can(st, step) && k < |st.conns| && AlreadyDrawn(st, at)
    requires Undecided(st.conns[k].phase, at) || Departed(st.conns[k].phase, at)
    ensures var st' := After(st, step);
            && k < |st'.conns| && AlreadyDrawn(st', at)
            && (Undecided(st'.conns[k].phase, at) || Departed(st'.conns[k].phase, at))
            && (Departed(st.conns[k].phase, at) ==> Departed(st'.conns[k].phase, at))
            && (step.Act? && step.k == k && !Departed(st'.conns[k].phase, at) ==> KeepsTable(st, step))
  {
    StaysDrawn(st, step, at);
    var p := st.conns[k].phase;
    if step.Act? && step.k == k {
      var c, a := st.conns[k], step.action;
      assert InBounds(st, p);
      InvAfter(st, step);
      assert Accounted(After(st, step), at);
      TotalCovers(After(st, step).conns, k, at, true);
      if Departed(p, at) {
        DepartedStays(st, c, a, at);
      } else {
        UndecidedNext(st, c, a, at);
        if !Departed(NextConn(st, c, a).phase, at) {
          forall r: Registration
            ensures Entries(After(st, step).sessions, r) == Entries(st.sessions, r)
          {
            assert Accounted(st, r);
            ActEntries(st, k, a, r);
          }
        }
      }
    }
    hide NextConn, NextSessions, Sane, InBounds, Enabled, Undecided, Departed, Entries;
  }

  lemma {:induction false} TotalZero(conns: seq<Conn>, r: Registration)
    requires forall l :: 0 <= l < |conns| ==> Weight(conns[l].phase, r, false) == 0
    ensures Total(conns, r, false) == 0
  {
    hide Weight;
    if conns != [] {
      TotalZero(conns[1..], r);
    }
  }

  lemma {:induction false} StaysOrLeaves(st: State, steps: seq<Step>, k: nat, at: Registration)
    requires Inv(st) && Runs(st, steps) && k < |st.conns| && AlreadyDrawn(st, at)
    requires Undecided(st.conns[k].phase, at) || Departed(st.conns[k].phase, at)
    ensures var end := Run(st, steps);
            && k < |end.conns|
            && (Departed(st.conns[k].phase, at) ==> Departed(end.conns[k].phase, at))
            && (Undecided(end.conns[k].phase, at) || Departed(end.conns[k].phase, at))
            && (!Departed(end.conns[k].phase, at) ==> OwnStepsKeepTable(st, steps, k))
    decreases |steps|
  {
    hide After, Can, Accounted, Undecided, Departed, AlreadyDrawn, KeepsTable;
    if steps != [] {
      StepFromOn(st, steps[0], k, at);
      InvAfter(st, steps[0]);
      StaysOrLeaves(After(st, steps[0]), steps[1..], k, at);
    }
  }

  /** No connection but `k` comes to claim `at`. */
  ghost predicate OnlyClaimedBy(st: State, k: nat, at: Registration) {
    forall l :: 0 <= l < |st.conns| && l != k ==> Weight(st.conns[l].phase, at, true) == 0
  }

  lemma StillOnlyClaimedBy(st: State, step: Step, k: nat, at: Registration)
    requires Sane(st) && Can(st, step) && k < |st.conns| && AlreadyDrawn(st, at) && OnlyClaimedBy(st, k, at)
    ensures OnlyClaimedBy(After(st, step), k, at) && AlreadyDrawn(After(st, step), at) && k < |After(st, step).conns|
  {
    StaysDrawn(st, step, at);
    if step.Act? {
      assert InBounds(st, st.conns[step.k].phase);
      WeightChange(st, st.conns[step.k], step.action, at);
    }
    hide NextConn, NextSessions, Sane, InBounds, Enabled;
  }

  lemma {:induction false} OnlyClaimedInRun(st: State, steps: seq<Step>, k: nat, at: Registration)
    requires Inv(st) && Runs(st, steps) && k < |st.conns| && AlreadyDrawn(st, at) && OnlyClaimedBy(st, k, at)
    ensures OnlyClaimedBy(Run(st, steps), k, at)
    decreases |steps|
  {
    hide After, Can, AlreadyDrawn, OnlyClaimedBy;
    if steps != [] {
      StillOnlyClaimedBy(st, steps[0], k, at);
      InvAfter(st, steps[0]);
      OnlyClaimedInRun(After(st, steps[0]), steps[1..], k, at);
    }
  }

  lemma {:induction false} OthersNeverClaim(st: State, steps: seq<Step>, k: nat, at: Registration)
    requires Inv(st) && Runs(st, steps) && k < |st.conns| && Weight(st.conns[k].phase, at, true) == 1
    ensures OnlyClaimedBy(Run(st, steps), k, at)
  {
    assert Accounted(st, at);
    TotalCovers(st.conns, k, at, true);
    OnlyClaimedInRun(st, steps, k, at);
  }

  /** The registration part of it. */
  lemma {:induction false} SwitchLeaves(st: State, steps: seq<Step>, k: nat)
    requires Inv(st) && Runs(st, steps) && k < |st.conns| && st.conns[k].phase.Idle?
    requires k < |Run(st, steps).conns| && Run(st, steps).conns[k].phase.Idle?
    ensures var at, end := st.conns[k].phase.at, Run(st, steps);
            if end.conns[k].phase.at == at then OwnStepsKeepTable(st, steps, k)
            else !Registered(end, at) && forall l :: 0 <= l < |end.conns| ==> !Holds(end.conns[l].phase, at)
  {
    var at, end := st.conns[k].phase.at, Run(st, steps);
    assert Accounted(st, at);
    TotalCovers(st.conns, k, at, true);
    StaysOrLeaves(st, steps, k, at);
    if end.conns[k].phase.at != at {
      OthersNeverClaim(st, steps, k, at);
      forall l | 0 <= l < |end.conns|
        ensures Weight(end.conns[l].phase, at, false) == 0
      {
        assert Weight(end.conns[l].phase, at, true) == 0;
      }
      assert Accounted(end, at);
      TotalZero(end.conns, at);
    }
  }

  // --- where a switch leads ---

  /** The name a phase is looking up. */
  function Sought(p: Phase): Option<string> { if p.Looking? || p.Missing? then Some(p.name) else None }

  /** This step of `k` finds the live session `t` under `name`, which it sought, or creates it. */
  predicate Finds(st: State, step: Step, k: nat, name: string, t: nat)
    requires Sane(st) && Can(st, step)
  {
    && step.Act? && step.k == k && Sought(st.conns[k].phase) == Some(name)
    && var st' := After(st, step);
    && st'.conns[k].phase.Found? && st'.conns[k].phase.target == t
    && Live(st', name) && st'.names[name] == t
  }

  /** Some step of the run does. */
  ghost predicate Served(st: State, steps: seq<Step>, k: nat, name: string, t: nat)
    requires Inv(st) && Runs(st, steps)
    decreases |steps|
  {
    steps != [] &&
    (Finds(st, steps[0], k, name, t) || (InvAfter(st, steps[0]); Served(After(st, steps[0]), steps[1..], k, name, t)))
  }

  predicate Requested(steps: seq<Step>, k: nat, name: string) {
    exists i, byMessage :: 0 <= i < |steps| && steps[i] == Act(k, Request(name, byMessage))
  }

  /** The session a switch is heading for and has no registration on yet. */
  function Heading(p: Phase): Option<nat> {
    if p.Found? || p.Compared? || p.Switching? || p.SwitchAdmitted? || p.SwitchNumbered? then Some(p.target) else None
  }

  /** The registrations a phase works with or is moving to. */
  predicate WorksWith(p: Phase, r: Registration) {
    (p.InLoop() && p.at == r) || (p.Both? && p.next == r)
  }

  lemma FindsNext(st: State, step: Step, k: nat)
    requires Sane(st) && Can(st, step) && step.Act? && step.k == k && Sought(st.conns[k].phase).Some?
    ensures var p' := After(st, step).conns[k].phase;
            p'.Found? ==> Finds(st, step, k, Sought(st.conns[k].phase).value, p'.target)
  {
    assert InBounds(st, st.conns[k].phase);
  }

  /** One step brings a connection to work only with what it worked with before, or to what it was
      heading for; and it heads only for what it finds. */
  lemma StepsTowards(st: State, step: Step, k: nat, r: Registration)
    requires Sane(st) && Can(st, step) && k < |st.conns| && st.conns[k].phase.InLoop()
    ensures var p, p' := st.conns[k].phase, After(st, step).conns[k].phase;
            && (WorksWith(p', r) ==> WorksWith(p, r) || Heading(p) == Some(r.session))
            && (Heading(p').Some? ==> Heading(p') == Heading(p) || exists name :: Finds(st, step, k, name, Heading(p').value))
            && (Sought(p').Some? ==>
                  Sought(p') == Sought(p) || exists byMessage :: step == Act(k, Request(Sought(p').value, byMessage)))
            && (p'.InLoop() || p'.Exiting?)
  {
    assert InBounds(st, st.conns[k].phase);
    if step.Act? && step.k == k {
      var p := st.conns[k].phase;
      if p.Looking? || p.Missing? {
        FindsNext(st, step, k);
      } else if p.Idle? && step.action.Request? {
        assert step == Act(k, Request(step.action.name, step.action.byMessage));
      }
    }
    hide Sane, InBounds, NextSessions, NextNames, Live;
  }

  lemma OutAfter(st: State, step: Step, k: nat)
    requires Sane(st) && Can(st, step) && k < |st.conns|
    requires st.conns[k].phase.Exiting? || st.conns[k].phase.Gone?
    ensures var st' := After(st, step);
            k < |st'.conns| && (st'.conns[k].phase.Exiting? || st'.conns[k].phase.Gone?)
  {
    hide Sane, InBounds, NextSessions, NextNames, Live;
  }

  /** Once out of its loop a connection works with nothing any more. */
  lemma {:induction false} OutOfLoop(st: State, steps: seq<Step>, k: nat)
    requires Inv(st) && Runs(st, steps) && k < |st.conns|
    requires st.conns[k].phase.Exiting? || st.conns[k].phase.Gone?
    ensures var end := Run(st, steps);
            k < |end.conns| && (end.conns[k].phase.Exiting? || end.conns[k].phase.Gone?)
    decreases |steps|
  {
    if steps != [] {
      InvAfter(st, steps[0]);
      OutAfter(st, steps[0], k);
      hide After, Can;
      OutOfLoop(After(st, steps[0]), steps[1..], k);
    }
  }

  lemma ServedLater(st: State, steps: seq<Step>, k: nat, t: nat)
    requires Inv(st) && Runs(st, steps) && steps != []
    requires (InvAfter(st, steps[0]); exists name :: Served(After(st, steps[0]), steps[1..], k, name, t))
    ensures exists name :: Served(st, steps, k, name, t)
  {
    InvAfter(st, steps[0]);
    var name :| Served(After(st, steps[0]), steps[1..], k, name, t);
    hide After, Can, Finds, Accounted;
    assert Served(st, steps, k, name, t);
  }

  lemma ServedNow(st: State, steps: seq<Step>, k: nat, t: nat)
    requires Inv(st) && Runs(st, steps) && steps != []
    requires exists name :: Finds(st, steps[0], k, name, t)
    ensures exists name :: Served(st, steps, k, name, t)
  {
    var name :| Finds(st, steps[0], k, name, t);
    hide After, Can, Finds, Accounted;
    assert Served(st, steps, k, name, t);
  }

  lemma StillThere(st: State, step: Step, k: nat)
    requires Sane(st) && Can(st, step) && k < |st.conns|
    ensures k < |After(st, step).conns|
  {
  }

  lemma NothingWorked(p: Phase, r: Registration)
    ensures p.Exiting? || p.Gone? ==> !WorksWith(p, r)
  {
  }

  /** Over any run: what a connection works with in the end it worked with or was heading for at the
      start, or it is on a session some step of its own found under a name it sought. */
  lemma {:induction false} LeadsToFound(st: State, steps: seq<Step>, k: nat, r: Registration)
    requires Inv(st) && Runs(st, steps) && k < |st.conns| && st.conns[k].phase.InLoop()
    requires k < |Run(st, steps).conns| && WorksWith(Run(st, steps).conns[k].phase, r)
    ensures || WorksWith(st.conns[k].phase, r) || Heading(st.conns[k].phase) == Some(r.session)
            || exists name :: Served(st, steps, k, name, r.session)
    decreases |steps|
  {
    hide Can, WorksWith, Heading, Finds, Sought, Accounted, Served;
    if steps != [] {
      var next := After(st, steps[0]);
      InvAfter(st, steps[0]);
      StepsTowards(st, steps[0], k, r);
      StillThere(st, steps[0], k);
      hide After;
      if next.conns[k].phase.InLoop() {
        LeadsToFound(next, steps[1..], k, r);
        if exists name :: Served(next, steps[1..], k, name, r.session) {
          ServedLater(st, steps, k, r.session);
        } else if Heading(next.conns[k].phase) == Some(r.session) {
          if exists name :: Finds(st, steps[0], k, name, r.session) {
            ServedNow(st, steps, k, r.session);
          }
        }
      } else {
        OutOfLoop(next, steps[1..], k);
        NothingWorked(Run(next, steps[1..]).conns[k].phase, r);
      }
    }
  }

  lemma {:induction false} NotServedOutside(st: State, steps: seq<Step>, k: nat, name: string, t: nat)
    requires Inv(st) && Runs(st, steps) && k < |st.conns|
    requires st.conns[k].phase.Exiting? || st.conns[k].phase.Gone?
    ensures !Served(st, steps, k, name, t)
    decreases |steps|
  {
    if steps != [] {
      InvAfter(st, steps[0]);
      OutAfter(st, steps[0], k);
      hide After, Can;
      NotServedOutside(After(st, steps[0]), steps[1..], k, name, t);
    }
  }

  /** A name found is a name sought from the start or requested on the way. */
  lemma {:induction false} FoundWasRequested(st: State, steps: seq<Step>, k: nat, name: string, t: nat)
    requires Inv(st) && Runs(st, steps) && Served(st, steps, k, name, t)
    requires k < |st.conns| && st.conns[k].phase.InLoop()
    ensures Sought(st.conns[k].phase) == Some(name) || Requested(steps, k, name)
    decreases |steps|
  {
    if !Finds(st, steps[0], k, name, t) {
      var next := After(st, steps[0]);
      InvAfter(st, steps[0]);
      StepsTowards(st, steps[0], k, st.conns[k].phase.at);
      StillThere(st, steps[0], k);
      hide After, Can, Finds, Sought, Accounted;
      if next.conns[k].phase.InLoop() {
        FoundWasRequested(next, steps[1..], k, name, t);
        if Sought(next.conns[k].phase) == Some(name) && Sought(st.conns[k].phase) != Some(name) {
          var byMessage :| steps[0] == Act(k, Request(name, byMessage));
        }
      } else {
        NotServedOutside(next, steps[1..], k, name, t);
      }
    }
  }

  /** A connection that has moved is on a session it found live under a name it had requested. */
  lemma MovedAsRequested(st: State, steps: seq<Step>, k: nat)
    requires Inv(st) && Runs(st, steps) && k < |st.conns| && st.conns[k].phase.Idle?
    requires k < |Run(st, steps).conns| && Run(st, steps).conns[k].phase.Idle?
    requires Run(st, steps).conns[k].phase.at != st.conns[k].phase.at
    ensures exists name ::
              && Served(st, steps, k, name, Run(st, steps).conns[k].phase.at.session)
              && Requested(steps, k, name)
  {
    hide Inv, Runs, Run, Served, Requested;
    var r := Run(st, steps).conns[k].phase.at;
    LeadsToFound(st, steps, k, r);
    var name :| Served(st, steps, k, name, r.session);
    FoundWasRequested(st, steps, k, name, r.session);
  }

  /** Any number of switch requests by `k`, interleaved with anything: if in the end the connection
      idles on the registration it had, none of its steps has touched a client table; if it idles
      on another one, the former is out of the table and no connection holds it, and the session it
      is on it found live under a name it had requested. */
  lemma {:induction false} SwitchOutcome(st: State, steps: seq<Step>, k: nat)
    requires Inv(st) && Runs(st, steps) && k < |st.conns| && st.conns[k].phase.Idle?
    requires k < |Run(st, steps).conns| && Run(st, steps).conns[k].phase.Idle?
    ensures var at, end := st.conns[k].phase.at, Run(st, steps);
            if end.conns[k].phase.at == at then OwnStepsKeepTable(st, steps, k)
            else
              && !Registered(end, at) && (forall l :: 0 <= l < |end.conns| ==> !Holds(end.conns[l].phase, at))
              && exists name :: Served(st, steps, k, name, end.conns[k].phase.at.session) && Requested(steps, k, name)
  {
    if Run(st, steps).conns[k].phase.at != st.conns[k].phase.at {
      MovedAsRequested(st, steps, k);
    }
    SwitchLeaves(st, steps, k);
    hide Inv, Runs, Run, Served, Requested, OwnStepsKeepTable, Registered, Holds;
  }

  // --- repainting ---

  function Shown(c: Conn): nat { if c.repoints == [] then c.first else c.repoints[|c.repoints| - 1] }

  /** The renderer shows the session the input loop is on, and it has been told to repaint once per
      message that asked for it (the one being served excepted) and once per overlay switch. */
  predicate Rendered(c: Conn) {
    && (c.phase.InLoop() || c.phase.Greeting? ==> Shown(c) == c.phase.at.session)
    && |c.repoints| + c.invalidates + (if c.phase.Asking() then 1 else 0) == c.repaintsAsked + c.overlayMoves
    && (c.phase.Attaching? || c.phase.Admitted? || c.phase.Numbered? || c.phase.Greeting? ==> c.repoints == [])
  }

  lemma NextRendered(st: State, c: Conn, a: Action)
    requires Enabled(c.phase, a) && InBounds(st, c.phase) && Rendered(c)
    ensures Rendered(NextConn(st, c, a))
  {
    hide Live, InBounds;
  }

  lemma NewRendered(target: nat)
    ensures Rendered(NewConn(target))
  {
  }

  lemma {:induction false} EveryRequestRepaintsOnce(st: State, steps: seq<Step>)
    requires Inv(st) && Runs(st, steps) && forall k :: 0 <= k < |st.conns| ==> Rendered(st.conns[k])
    ensures forall k :: 0 <= k < |Run(st, steps).conns| ==> Rendered(Run(st, steps).conns[k])
    decreases |steps|
  {
    hide Rendered;
    if steps != [] {
      var step := steps[0];
      InvAfter(st, step);
      if step.Act? {
        assert InBounds(st, st.conns[step.k].phase);
        NextRendered(st, st.conns[step.k], step.action);
      } else if step.Connect? {
        NewRendered(step.target);
      }
      assert forall k :: 0 <= k < |After(st, step).conns| ==> Rendered(After(st, step).conns[k]) by {
        hide NextConn, NextSessions, NextNames, InBounds, Enabled;
      }
      hide After, Can;
      EveryRequestRepaintsOnce(After(st, step), steps[1..]);
    }
  }

  /** The messages of `k`'s client that ask for a repaint, in the order they are served. */
  function RepaintRequests(steps: seq<Step>, k: nat): seq<Action> {
    if steps == [] then []
    else
      var first := steps[0];
      (if first.Act? && first.k == k && (first.action.Redraw? || (first.action.Request? && first.action.byMessage))
       then [first.action] else [])
      + RepaintRequests(steps[1..], k)
  }

  function AskedBy(st: State, k: nat): nat { if k < |st.conns| then st.conns[k].repaintsAsked else 0 }

  lemma AskedAfter(st: State, step: Step, k: nat)
    requires Sane(st) && Can(st, step)
    ensures AskedBy(After(st, step), k) == AskedBy(st, k) + |RepaintRequests([step], k)|
  {
    assert [step][1..] == [];
    if step.Act? && step.k == k {
      assert InBounds(st, st.conns[k].phase);
    }
    hide Sane, InBounds, NextSessions, NextNames, Live;
  }

  /** Served requests are counted, one by one. */
  lemma {:induction false} RequestsCounted(st: State, steps: seq<Step>, k: nat)
    requires Inv(st) && Runs(st, steps)
    ensures AskedBy(Run(st, steps), k) == AskedBy(st, k) + |RepaintRequests(steps, k)|
    decreases |steps|
  {
    hide After, Can, AskedBy, Accounted;
    if steps != [] {
      assert [steps[0]][1..] == [];
      InvAfter(st, steps[0]);
      AskedAfter(st, steps[0], k);
      RequestsCounted(After(st, steps[0]), steps[1..], k);
    }
  }

  // --- a switch without interference ---

  /** `k` takes up to `n` steps of its own, until it needs something from outside. */
  function Alone(st: State, k: nat, n: nat): State
    requires Sane(st) && k < |st.conns|
    decreases n
  {
    if n == 0 || !Enabled(st.conns[k].phase, Advance) then st
    else
      SaneAfter(st, Act(k, Advance));
      Alone(After(st, Act(k, Advance)), k, n - 1)
  }

  lemma {:induction false} AloneStep(st: State, k: nat, n: nat) returns (next: State)
    requires Sane(st) && k < |st.conns| && n > 0 && Enabled(st.conns[k].phase, Advance)
    ensures Sane(next) && |next.conns| == |st.conns| && Alone(st, k, n) == Alone(next, k, n - 1)
    ensures InBounds(st, st.conns[k].phase)
    ensures next.conns[k] == NextConn(st, st.conns[k], Advance)
    ensures next.sessions == NextSessions(st, st.conns[k].phase, Advance)
    ensures next.names == NextNames(st, st.conns[k].phase, Advance)
  {
    SaneAfter(st, Act(k, Advance));
    next := After(st, Act(k, Advance));
    hide InBounds, NextConn, NextSessions, NextNames;
  }

  lemma {:induction false} AloneStop(st: State, k: nat, n: nat)
    requires Sane(st) && k < |st.conns| && !Enabled(st.conns[k].phase, Advance)
    ensures Alone(st, k, n) == st
  {
  }

  /** Both client lists after a move from `at` to session `t`. */
  function MovedTables(all: seq<Session>, at: Registration, t: nat): seq<Session>
    requires t < |all| && at.session < |all|
  {
    var entered := all[t := Pushed(all[t].(nextId := all[t].nextId + 1), all[t].nextId)];
    entered[at.session := Removed(entered[at.session], at.id)]
  }

  lemma {:induction false} LeaveAlone(st: State, k: nat)
    requires Sane(st) && k < |st.conns|
    ensures Alone(st, k, 0) == st
  {
  }

  lemma {:induction false} BothAlone(st: State, k: nat, at: Registration, target: Registration, asked: bool)
    requires Sane(st) && k < |st.conns| && st.conns[k].phase == Both(at, target, asked)
    ensures var end := Alone(st, k, 2);
            && at.session < |st.sessions| && k < |end.conns|
            && end.sessions == st.sessions[at.session := Removed(st.sessions[at.session], at.id)]
            && end.conns[k].phase == Idle(target)
            && end.conns[k].repoints == st.conns[k].repoints + [target.session]
  {
    hide Alone, Sane, Live, Removed;
    var s1 := AloneStep(st, k, 2);
    var s2 := AloneStep(s1, k, 1);
    LeaveAlone(s2, k);
  }

  /** Once the target has let it in, the connection moves. */
  lemma {:induction false} AdmittedAlone(st: State, k: nat, at: Registration, t: nat, asked: bool)
    requires Sane(st) && k < |st.conns| && st.conns[k].phase == SwitchAdmitted(at, t, asked)
    ensures var end := Alone(st, k, 4);
            && t < |st.sessions| && at.session < |st.sessions| && k < |end.conns|
            && end.sessions == MovedTables(st.sessions, at, t)
            && end.conns[k].phase == Idle(Registration(t, st.sessions[t].nextId))
            && end.conns[k].repoints == st.conns[k].repoints + [t]
  {
    hide Alone, Sane, Live, Removed;
    var s1 := AloneStep(st, k, 4);
    var s2 := AloneStep(s1, k, 3);
    BothAlone(s2, k, at, Registration(t, st.sessions[t].nextId), asked);
    hide NextConn, NextNames, Enabled, InBounds;
  }

  /** From the found target on: refused if it is called like the present session or is closing,
      else moved. */
  lemma {:induction false} FoundAlone(st: State, k: nat, at: Registration, t: nat, asked: bool)
    requires Sane(st) && k < |st.conns| && st.conns[k].phase == Found(at, t, asked)
    ensures var end := Alone(st, k, 7);
            && t < |st.sessions| && at.session < |st.sessions| && k < |end.conns|
            && if st.sessions[t].name == st.sessions[at.session].name || st.sessions[t].closing then
                 end.sessions == st.sessions && end.conns[k] == Failed(st.conns[k], at, asked)
               else
                 && end.sessions == MovedTables(st.sessions, at, t)
                 && end.conns[k].phase == Idle(Registration(t, st.sessions[t].nextId))
                 && end.conns[k].repoints == st.conns[k].repoints + [t]
  {
    hide Alone, Sane, Live, MovedTables;
    var s1 := AloneStep(st, k, 7);
    var s2 := AloneStep(s1, k, 6);
    if st.sessions[t].name == st.sessions[at.session].name {
      AloneStop(s2, k, 5);
    } else {
      var s3 := AloneStep(s2, k, 5);
      if st.sessions[t].closing {
        AloneStop(s3, k, 4);
      } else {
        AdmittedAlone(s3, k, at, t, asked);
      }
    }
  }

  lemma {:induction false} LookAlone(st: State, k: nat, at: Registration, name: string, asked: bool) returns (next: State)
    requires Sane(st) && k < |st.conns| && st.conns[k].phase == Looking(at, name, asked) && Live(st, name)
    ensures Sane(next) && |next.conns| == |st.conns| && Alone(st, k, 8) == Alone(next, k, 7)
    ensures next.sessions == st.sessions && next.conns[k] == st.conns[k].(phase := Found(at, st.names[name], asked))
  {
    hide Alone, Sane;
    next := AloneStep(st, k, 8);
  }

  /** A request for a live name, served without interference: the outcome is decided by the names
      and the target's closing flag alone, and both tables change as a direct move changes them. */
  lemma {:induction false} SwitchAlone(st: State, k: nat, at: Registration, name: string, asked: bool)
    requires Sane(st) && k < |st.conns| && st.conns[k].phase == Looking(at, name, asked) && Live(st, name)
    ensures var t, end := st.names[name], Alone(st, k, 8);
            && at.session < |st.sessions| && k < |end.conns|
            && if st.sessions[t].name == st.sessions[at.session].name then
                 && end.sessions == st.sessions && end.conns[k].phase == Idle(at)
                 && end.conns[k].invalidates == st.conns[k].invalidates + if asked then 1 else 0
               else
                 && end.sessions == MovedTables(st.sessions, at, t)
                 && end.conns[k].phase == Idle(Registration(t, st.sessions[t].nextId))
                 && end.conns[k].repoints == st.conns[k].repoints + [t]
  {
    hide Alone, Sane, MovedTables;
    var s1 := LookAlone(st, k, at, name, asked);
    hide NextConn, NextSessions, NextNames, Enabled, InBounds;
    FoundAlone(s1, k, at, st.names[name], asked);
  }

  lemma {:induction false} Misses(st: State, k: nat, at: Registration, name: string, asked: bool) returns (missed: State)
    requires Sane(st) && k < |st.conns| && st.conns[k].phase == Looking(at, name, asked) && !Live(st, name)
    ensures Sane(missed) && missed == After(st, Act(k, Advance)) && |missed.conns| == |st.conns| && at.session < |st.sessions|
    ensures missed.conns[k] == st.conns[k].(phase := Missing(at, name, asked))
    ensures missed.sessions == st.sessions && missed.names == st.names - {name} && !Live(missed, name)
  {
    SaneAfter(st, Act(k, Advance));
    missed := After(st, Act(k, Advance));
    assert InBounds(st, st.conns[k].phase);
    hide Sane;
  }

  lemma {:induction false} Creates(st: State, k: nat, at: Registration, name: string, asked: bool, built: bool) returns (made: State)
    requires Sane(st) && k < |st.conns| && st.conns[k].phase == Missing(at, name, asked) && !Live(st, name)
    ensures Can(st, Act(k, Create(built))) && Sane(made) && made == After(st, Act(k, Create(built))) && |made.conns| == |st.conns|
    ensures made.names == if built then st.names[name := |st.sessions|] else st.names
    ensures made.sessions == if built then st.sessions + [Session(name, false, 0, [])] else st.sessions
    ensures made.conns[k] == if built then st.conns[k].(phase := Found(at, |st.sessions|, asked)) else Failed(st.conns[k], at, asked)
    ensures built ==> Live(made, name)
  {
    SaneAfter(st, Act(k, Create(built)));
    made := After(st, Act(k, Create(built)));
    assert InBounds(st, st.conns[k].phase);
    hide Sane;
  }

  lemma Relisted(names: map<string, nat>, name: string, t: nat)
    ensures (names - {name})[name := t] == names[name := t]
  {
  }

  /** A failed switch does not depend on how far it got. */
  lemma FailedSame(c: Conn, p: Phase, at: Registration, asked: bool)
    ensures Failed(c.(phase := p), at, asked) == Failed(c, at, asked)
    ensures !Enabled(Failed(c, at, asked).phase, Advance)
  {
  }

  /** A request for a name no live session has: the stale entry goes, and the outcome is then up to
      whether a session of that name can be built. If so it is open under that name, empty, and the
      connection moves to it as its first client, unless its own session has that name; if not, it
      stays, and a client that asked is repainted. */
  lemma {:induction false} DeclaredAlone(st: State, k: nat, at: Registration, name: string, asked: bool, built: bool)
    returns (missed: State, made: State, end: State)
    requires Sane(st) && k < |st.conns| && st.conns[k].phase == Looking(at, name, asked) && !Live(st, name)
    ensures Sane(missed) && missed == After(st, Act(k, Advance))
    ensures Can(missed, Act(k, Create(built))) && made == After(missed, Act(k, Create(built)))
    ensures Sane(made) && k < |made.conns| && end == Alone(made, k, 7)
    ensures var t, all := |st.sessions|, st.sessions + [Session(name, false, 0, [])];
            && at.session < t && k < |end.conns|
            && made.names == (if built then st.names[name := t] else st.names - {name})
            && (built ==> Live(made, name) && made.sessions == all)
            && (!built ==> end.sessions == st.sessions && end.conns[k] == Failed(st.conns[k], at, asked))
            && (built && name == st.sessions[at.session].name ==>
                 end.sessions == all && end.conns[k] == Failed(st.conns[k], at, asked))
            && (built && name != st.sessions[at.session].name ==>
                 && end.sessions == MovedTables(all, at, t)
                 && end.conns[k].phase == Idle(Registration(t, 0))
                 && end.conns[k].repoints == st.conns[k].repoints + [t])
  {
    hide After, Can, Alone, Sane, Live, MovedTables, NextConn, NextSessions, NextNames, InBounds, Failed;
    missed := Misses(st, k, at, name, asked);
    made := Creates(missed, k, at, name, asked, built);
    end := Alone(made, k, 7);
    Relisted(st.names, name, |st.sessions|);
    FailedSame(st.conns[k], missed.conns[k].phase, at, asked);
    FailedSame(st.conns[k], made.conns[k].phase, at, asked);
    hide Enabled;
    if built {
      FoundAlone(made, k, at, |st.sessions|, asked);
    } else {
      AloneStop(made, k, 7);
    }
  }

  /** An attach served without interference: turned away exactly if the session is closing, else in
      its list under the next number; once answered, in its loop with that registration. */
  lemma {:induction false} AttachAlone(st: State, k: nat, t: nat)
    requires Sane(st) && k < |st.conns| && st.conns[k].phase == Attaching(t)
    ensures Sane(Alone(st, k, 3))
    ensures var end := Alone(st, k, 3);
            && t < |st.sessions| && k < |end.conns|
            && if st.sessions[t].closing then end.sessions == st.sessions && end.conns[k].phase == Gone
               else
                 var s := st.sessions[t];
                 && end.sessions == st.sessions[t := s.(nextId := s.nextId + 1, clients := s.clients + [s.nextId])]
                 && end.conns[k].phase == Greeting(Registration(t, s.nextId)) && end.conns[k].first == t
                 && After(end, Act(k, Greet(true))).conns[k].phase == Idle(Registration(t, s.nextId))
  {
    hide Alone, Sane, Live;
    var s1 := AloneStep(st, k, 3);
    if st.sessions[t].closing {
      AloneStop(s1, k, 2);
    } else {
      var s2 := AloneStep(s1, k, 2);
      var s3 := AloneStep(s2, k, 1);
      LeaveAlone(s3, k);
    }
  }

  /** Leaving ends in the table without the registration and the connection gone. */
  lemma {:induction false} LeaveAndCleanUp(st: State, k: nat, at: Registration)
    requires Sane(st) && k < |st.conns| && st.conns[k].phase == Idle(at)
    ensures var left := After(st, Act(k, Leave));
            var end := (SaneAfter(st, Act(k, Leave)); Alone(left, k, 1));
            && at.session < |st.sessions| && k < |end.conns|
            && end.conns[k].phase == Gone && end.names == st.names
            && end.sessions == st.sessions[at.session := Removed(st.sessions[at.session], at.id)]
  {
    SaneAfter(st, Act(k, Leave));
    var left := After(st, Act(k, Leave));
    assert left.conns[k].phase == Exiting(at) && left.sessions == st.sessions && left.names == st.names;
    hide After, Alone, Sane, Live, Removed;
    var end := AloneStep(left, k, 1);
    LeaveAlone(end, k);
  }

  // --- names ---

  /** Every listed name is the name its session has. */
  predicate NamesAgree(st: State) {
    forall name :: name in st.names ==> st.names[name] < |st.sessions| && st.sessions[st.names[name]].name == name
  }

  /** A step renames no session but through the registry. */
  lemma {:induction false} KeepsNames(st: State, p: Phase, a: Action)
    requires Enabled(p, a) && InBounds(st, p)
    ensures var next := NextSessions(st, p, a);
            && |st.sessions| <= |next|
            && (forall s :: 0 <= s < |st.sessions| ==> next[s].name == st.sessions[s].name)
            && (NextNames(st, p, a) != st.names && !p.Looking? ==>
                 p.Missing? && NextNames(st, p, a) == st.names[p.name := |st.sessions|]
                 && next == st.sessions + [Session(p.name, false, 0, [])])
  {
    hide Live;
  }

  lemma {:induction false} NamesAgreeAfter(st: State, step: Step)
    requires Sane(st) && NamesAgree(st) && Can(st, step)
    ensures NamesAgree(After(st, step))
  {
    if step.Act? {
      var p := st.conns[step.k].phase;
      assert InBounds(st, p);
      KeepsNames(st, p, step.action);
      hide NextSessions, NextConn, Live, Sane, InBounds, Enabled;
    }
  }

  lemma SaneOf(st: State)
    requires Inv(st)
    ensures Sane(st)
  {
  }

  /** In every reachable state the registry lists each session under its own name, so under one name
      at most, whatever was created, renamed, closed or dropped in between. */
  lemma {:induction false} RegistryNames(st: State, steps: seq<Step>)
    requires Inv(st) && NamesAgree(st) && Runs(st, steps)
    ensures NamesAgree(Run(st, steps))
    ensures forall a, b :: a in Run(st, steps).names && b in Run(st, steps).names && Run(st, steps).names[a] == Run(st, steps).names[b] ==>
              a == b
    decreases |steps|
  {
    hide After, Can, Inv;
    if steps != [] {
      assert Sane(st) by { SaneOf(st); }
      NamesAgreeAfter(st, steps[0]);
      InvAfter(st, steps[0]);
      RegistryNames(After(st, steps[0]), steps[1..]);
    }
  }
}
