/** What a run of the event loop sends, paints, opens and decides, told by the events that cause it. */
module PumpEffects {
  import opened Prelude
  import O = OuterEvents
  import R = Roster
  import opened PickerRows
  import opened Streaming
  import opened RowAssembly
  import opened Picker
  import opened PickerKeys
  import Runs = PickerRuns
  import opened PickerRender
  import opened Pump

  // --- a trace seen through one lens ---

  /** What `f` sees of a trace, in order. */
  ghost function Project<T>(trace: seq<Act>, f: Act -> seq<T>): seq<T> {
    if trace == [] then [] else Project(trace[..|trace| - 1], f) + f(trace[|trace| - 1])
  }

  lemma {:induction false} ProjectSnoc<T>(trace: seq<Act>, a: Act, f: Act -> seq<T>)
    ensures Project(trace + [a], f) == Project(trace, f) + f(a)
  {
    assert (trace + [a])[..|trace|] == trace;
  }

  lemma {:induction false} ProjectOne<T>(a: Act, f: Act -> seq<T>)
    ensures Project([a], f) == f(a)
  {
    ProjectSnoc([], a, f);
    assert [] + [a] == [a];
  }

  lemma {:induction false} ProjectTwo<T>(a: Act, b: Act, f: Act -> seq<T>)
    ensures Project([a, b], f) == f(a) + f(b)
  {
    ProjectOne(a, f);
    ProjectSnoc([a], b, f);
    assert [a] + [b] == [a, b];
  }

  lemma {:induction false} ProjectAppend<T>(a: seq<Act>, b: seq<Act>, f: Act -> seq<T>)
    ensures Project(a + b, f) == Project(a, f) + Project(b, f)
  {
    if b == [] {
      assert a + b == a;
    } else {
      var n := |b| - 1;
      assert (a + b)[..|a| + n] == a + b[..n] && (a + b)[|a| + n] == b[n];
      ProjectAppend(a, b[..n], f);
      ConcatAssociative(Project(a, f), Project(b[..n], f), f(b[n]));
    }
  }

  /** What `g` says of each event and the loop it meets, in order. */
  ghost function Over<T>(s: Loop, events: seq<Event>, g: (Loop, Event) -> seq<T>): seq<T> {
    if events == [] then []
    else Over(s, events[..|events| - 1], g) + g(Run(s, events[..|events| - 1]), events[|events| - 1])
  }

  /** A lens that sees of every event's acts just what `g` says, sees of a whole run what `g` says. */
  lemma {:induction false} TraceOver<T>(s: Loop, events: seq<Event>, f: Act -> seq<T>, g: (Loop, Event) -> seq<T>)
    requires forall at: Loop, e: Event :: Project(Added(at, e), f) == g(at, e)
    ensures Project(Run(s, events).trace, f) == Project(s.trace, f) + Over(s, events, g)
  {
    hide Next, Added;
    if events == [] {
      assert Project(s.trace, f) + [] == Project(s.trace, f);
    } else {
      var front, e := events[..|events| - 1], events[|events| - 1];
      var at := Run(s, front);
      TraceOver(s, front, f, g);
      ProjectAppend(at.trace, Added(at, e), f);
      ConcatAssociative(Project(s.trace, f), Over(s, front, g), g(at, e));
    }
  }

  // --- one event ---

  /** What the picker decides on the keys of a chunk. */
  ghost function Decision(s: Loop, e: Event): Option<Outcome> {
    if e.Stdin? && s.exit == None && s.stdinOpen && e.chunk != [] && s.picker.Some? then
      Pressed(s.picker.value.0, KeysIn(e.chunk)).1
    else None
  }

  /** The chunk goes to the session. */
  ghost predicate Forwards(s: Loop, e: Event) {
    e.Stdin? && s.exit == None && s.stdinOpen && s.picker == None && e.chunk != []
  }

  ghost function Frame(s: Loop): seq<Act> {
    if s.picker.Some? then [ToScreen(PickerFrame(s.picker.value.0, s.size))] else []
  }

  /** The session the picker was opened on. */
  ghost predicate OnOwnSession(s: Loop, host: Host, name: string) {
    s.picker.Some? && host == s.daemon && name == s.picker.value.1
  }

  ghost function RequestFor(s: Loop, name: string): Message {
    if s.picker.Some? && name == s.picker.value.1 then Redraw else SwitchSession(name)
  }

  /** The acts on a decision `o`. */
  ghost function Acted(s: Loop, e: Event, o: Outcome): seq<Act>
    requires e.Stdin?
  {
    match o
    case Switch(name) => [ToScreen(LeavePicker), ToDaemon(RequestFor(s, name))]
    case Cancel => [ToScreen(LeavePicker), ToDaemon(Redraw)]
    case Reconnect(_, _, _) => [ToScreen(LeavePicker)]
    case New(_, _, _) => [ToScreen(LeavePicker)]
    case Forget(_) => Frame(Next(s, e))
    case Kill(host, name) =>
      if e.reply.Killed? then if OnOwnSession(s, host, name) then [] else Frame(Next(s, e))
      else if e.reply.Unexpected? then [] else [ToScreen(Note)]
  }

  lemma {:induction false} ActedIs(s: Loop, e: Event, o: Outcome)
    requires Decision(s, e) == Some(o)
    ensures Added(s, e) == Acted(s, e, o)
  {
    hide Runs.After, RosterRowsOf, AdHocOf, KeysIn, Pressed;
  }

  /** What one event adds to the trace, by the event and what it meets. */
  lemma {:induction false} AddedIs(s: Loop, e: Event)
    ensures Added(s, e) ==
            if s.exit.Some? then []
            else
              match e
              case DaemonOutput(bytes) => if s.picker == None then [ToScreen(Output(bytes))] else []
              case OpenPicker(_, _, _) => [ToScreen(EnterPicker)] + Frame(Next(s, e))
              case Resized(size) => [ToDaemon(Resize(size))] + Frame(Next(s, e))
              case Status(_, _) => if s.answers then Frame(Next(s, e)) else []
              case Stdin(chunk, _, _) =>
                if Forwards(s, e) then Forwarded(chunk)
                else if !s.stdinOpen || chunk == [] then []
                else if Decision(s, e) == None then Frame(Next(s, e))
                else Acted(s, e, Decision(s, e).value)
              case _ => []
  {
    if Decision(s, e).Some? {
      ActedIs(s, e, Decision(s, e).value);
    } else {
      hide Runs.After, RosterRowsOf, PickerRowsOf, AdHocOf, KeysIn, Pressed, Chosen, CurrentIndex, Forwarded, ResolveStatus;
    }
  }

  // --- what reaches the daemon and the screen ---

  function OutputOf(a: Act): seq<seq<byte>> { if a.ToScreen? && a.paint.Output? then [a.paint.bytes] else [] }

  function NoticeOf(a: Act): seq<O.Event> { if a.ToDaemon? && a.message.Outer? then [a.message.event] else [] }

  function InputOf(a: Act): seq<seq<byte>> { if a.ToDaemon? && a.message.Input? then [a.message.bytes] else [] }

  function ResizeOf(a: Act): seq<Screen> { if a.ToDaemon? && a.message.Resize? then [a.message.size] else [] }

  function RequestOf(a: Act): seq<Message> { if AsksRepaint(a) then [a.message] else [] }

  /** The picker's screen taken and given back, and failures shown on it. */
  function MarkOf(a: Act): seq<Paint> {
    if a.ToScreen? && (a.paint.EnterPicker? || a.paint.LeavePicker? || a.paint.Note?) then [a.paint] else []
  }

  function FrameOf(a: Act): seq<(State, Screen)> {
    if a.ToScreen? && a.paint.PickerFrame? then [(a.paint.picker, a.paint.size)] else []
  }

  ghost function OutputRead(s: Loop, e: Event): seq<seq<byte>> {
    if e.DaemonOutput? && s.exit == None && s.picker == None then [e.bytes] else []
  }

  ghost function ReportsTyped(s: Loop, e: Event): seq<O.Event> {
    if Forwards(s, e) then O.Scan(e.chunk).events else []
  }

  ghost function InputTyped(s: Loop, e: Event): seq<seq<byte>> {
    if Forwards(s, e) && O.Scan(e.chunk).kept != [] then [O.Scan(e.chunk).kept] else []
  }

  ghost function SizesTold(s: Loop, e: Event): seq<Screen> {
    if e.Resized? && s.exit == None then [e.size] else []
  }

  ghost function RepaintsChosen(s: Loop, e: Event): seq<Message> {
    match Decision(s, e)
    case Some(Switch(name)) => [RequestFor(s, name)]
    case Some(Cancel) => [Redraw]
    case _ => []
  }

  ghost predicate Closes(s: Loop, e: Event) {
    match Decision(s, e)
    case None => false
    case Some(o) => !o.Forget? && !o.Kill?
  }

  ghost function MarksMade(s: Loop, e: Event): seq<Paint> {
    if e.OpenPicker? && s.exit == None then [EnterPicker]
    else if Closes(s, e) then [LeavePicker]
    else if Decision(s, e).Some? && Decision(s, e).value.Kill? && (e.reply.DaemonRefused? || e.reply.ConnectFailed?) then [Note]
    else []
  }

  /** A kill that changes no row: refused, failed, or of the picker's own session. */
  ghost predicate QuietKill(s: Loop, e: Event) {
    match Decision(s, e)
    case Some(Kill(host, name)) => e.reply.Killed? ==> OnOwnSession(s, host, name)
    case _ => false
  }

  /** The event may have changed what an open picker shows. */
  ghost predicate Touches(s: Loop, e: Event) {
    s.exit == None &&
    match e
    case OpenPicker(_, _, _) => true
    case Resized(_) => true
    case Status(_, _) => s.answers
    case Stdin(chunk, _, _) => s.stdinOpen && chunk != []
    case _ => false
  }

  ghost function FramesDue(s: Loop, e: Event): seq<(State, Screen)> {
    var next := Next(s, e);
    if next.picker.Some? && Touches(s, e) && !QuietKill(s, e) then [(next.picker.value.0, next.size)] else []
  }

  lemma {:induction false} NoticesSeen<T>(events: seq<O.Event>, f: Act -> seq<T>)
    requires forall ev :: f(ToDaemon(Outer(ev))) == []
    ensures Project(Notices(events), f) == []
  {
    if events != [] {
      NoticesSeen(events[1..], f);
      ProjectOne(ToDaemon(Outer(events[0])), f);
      ProjectAppend([ToDaemon(Outer(events[0]))], Notices(events[1..]), f);
    }
  }

  /** Typed chunks show up only as notices and input. */
  lemma {:induction false} ForwardedUnseen<T>(chunk: seq<byte>, f: Act -> seq<T>)
    requires forall ev :: f(ToDaemon(Outer(ev))) == []
    requires forall bytes :: f(ToDaemon(Input(bytes))) == []
    ensures Project(Forwarded(chunk), f) == []
  {
    hide O.Scan;
    var scanned := O.Scan(chunk);
    NoticesSeen(scanned.events, f);
    var input: seq<Act> := if scanned.kept == [] then [] else [ToDaemon(Input(scanned.kept))];
    ProjectOne(ToDaemon(Input(scanned.kept)), f);
    ProjectAppend(Notices(scanned.events), input, f);
  }

  lemma {:induction false} NoticesAreEvents(events: seq<O.Event>)
    ensures Project(Notices(events), NoticeOf) == events
  {
    if events != [] {
      var first := ToDaemon(Outer(events[0]));
      NoticesAreEvents(events[1..]);
      ProjectOne(first, NoticeOf);
      ProjectAppend([first], Notices(events[1..]), NoticeOf);
      assert [events[0]] + events[1..] == events;
    }
  }

  lemma {:induction false} ForwardedInput(chunk: seq<byte>)
    ensures Project(Forwarded(chunk), InputOf) == if O.Scan(chunk).kept == [] then [] else [O.Scan(chunk).kept]
  {
    hide O.Scan;
    var scanned := O.Scan(chunk);
    NoticesSeen(scanned.events, InputOf);
    var input: seq<Act> := if scanned.kept == [] then [] else [ToDaemon(Input(scanned.kept))];
    ProjectOne(ToDaemon(Input(scanned.kept)), InputOf);
    ProjectAppend(Notices(scanned.events), input, InputOf);
  }

  lemma {:induction false} ForwardedNotices(chunk: seq<byte>)
    ensures Project(Forwarded(chunk), NoticeOf) == O.Scan(chunk).events
  {
    hide O.Scan;
    var scanned := O.Scan(chunk);
    NoticesAreEvents(scanned.events);
    var input: seq<Act> := if scanned.kept == [] then [] else [ToDaemon(Input(scanned.kept))];
    ProjectOne(ToDaemon(Input(scanned.kept)), NoticeOf);
    ProjectAppend(Notices(scanned.events), input, NoticeOf);
    assert scanned.events + [] == scanned.events;
  }

  /** What a lens sees of the acts of one event, by the acts. */
  lemma {:induction false} SeenOf<T>(s: Loop, e: Event, f: Act -> seq<T>)
    ensures Project(Added(s, e), f) ==
            if s.exit.Some? then []
            else
              match e
              case DaemonOutput(bytes) => if s.picker == None then f(ToScreen(Output(bytes))) else []
              case OpenPicker(_, _, _) => f(ToScreen(EnterPicker)) + Project(Frame(Next(s, e)), f)
              case Resized(size) => f(ToDaemon(Resize(size))) + Project(Frame(Next(s, e)), f)
              case Status(_, _) => if s.answers then Project(Frame(Next(s, e)), f) else []
              case Stdin(chunk, _, _) =>
                if Forwards(s, e) then Project(Forwarded(chunk), f)
                else if !s.stdinOpen || chunk == [] then []
                else if Decision(s, e) == None then Project(Frame(Next(s, e)), f)
                else Project(Acted(s, e, Decision(s, e).value), f)
              case _ => []
  {
    AddedIs(s, e);
    hide Next, Added, Frame, Acted, Forwarded, Decision;
    if s.exit == None {
      match e
      case DaemonOutput(bytes) => ProjectOne(ToScreen(Output(bytes)), f);
      case OpenPicker(_, _, _) =>
        ProjectOne(ToScreen(EnterPicker), f);
        ProjectAppend([ToScreen(EnterPicker)], Frame(Next(s, e)), f);
      case Resized(size) =>
        ProjectOne(ToDaemon(Resize(size)), f);
        ProjectAppend([ToDaemon(Resize(size))], Frame(Next(s, e)), f);
      case _ =>
    }
  }

  lemma {:induction false} FrameSeen<T>(s: Loop, f: Act -> seq<T>)
    ensures Project(Frame(s), f) ==
            if s.picker.Some? then f(ToScreen(PickerFrame(s.picker.value.0, s.size))) else []
  {
    if s.picker.Some? {
      ProjectOne(ToScreen(PickerFrame(s.picker.value.0, s.size)), f);
    }
  }

  lemma {:induction false} ActedSeen<T>(s: Loop, e: Event, o: Outcome, f: Act -> seq<T>)
    requires e.Stdin?
    ensures Project(Acted(s, e, o), f) ==
            match o
            case Switch(name) => f(ToScreen(LeavePicker)) + f(ToDaemon(RequestFor(s, name)))
            case Cancel => f(ToScreen(LeavePicker)) + f(ToDaemon(Redraw))
            case Reconnect(_, _, _) => f(ToScreen(LeavePicker))
            case New(_, _, _) => f(ToScreen(LeavePicker))
            case Forget(_) => Project(Frame(Next(s, e)), f)
            case Kill(host, name) =>
              if e.reply.Killed? then if OnOwnSession(s, host, name) then [] else Project(Frame(Next(s, e)), f)
              else if e.reply.Unexpected? then [] else f(ToScreen(Note))
  {
    hide Frame, Next;
    match o
    case Switch(name) => ProjectTwo(ToScreen(LeavePicker), ToDaemon(RequestFor(s, name)), f);
    case Cancel => ProjectTwo(ToScreen(LeavePicker), ToDaemon(Redraw), f);
    case Reconnect(_, _, _) => ProjectOne(ToScreen(LeavePicker), f);
    case New(_, _, _) => ProjectOne(ToScreen(LeavePicker), f);
    case Kill(_, _) => ProjectOne(ToScreen(Note), f);
    case _ =>
  }

  lemma {:induction false} DecisionMeans(s: Loop, e: Event)
    ensures Decision(s, e).Some? ==>
              e.Stdin? && s.exit == None && s.stdinOpen && e.chunk != [] && s.picker.Some? && !Forwards(s, e)
  {
    hide Pressed, KeysIn;
  }

  lemma {:induction false} OutputAdded(s: Loop, e: Event)
    ensures Project(Added(s, e), OutputOf) == OutputRead(s, e)
  {
    DecisionMeans(s, e);
    hide Next, Added, Project, Frame, Acted, Decision, Forwarded, O.Scan;
    SeenOf(s, e, OutputOf);
    FrameSeen(Next(s, e), OutputOf);
    if Decision(s, e).Some? {
      ActedSeen(s, e, Decision(s, e).value, OutputOf);
    } else if e.Stdin? {
      ForwardedUnseen(e.chunk, OutputOf);
    }
  }

  lemma {:induction false} NoticeAdded(s: Loop, e: Event)
    ensures Project(Added(s, e), NoticeOf) == ReportsTyped(s, e)
  {
    DecisionMeans(s, e);
    hide Next, Added, Project, Frame, Acted, Decision, Forwarded, O.Scan;
    SeenOf(s, e, NoticeOf);
    FrameSeen(Next(s, e), NoticeOf);
    if Decision(s, e).Some? {
      ActedSeen(s, e, Decision(s, e).value, NoticeOf);
    } else if e.Stdin? {
      ForwardedNotices(e.chunk);
    }
  }

  lemma {:induction false} InputAdded(s: Loop, e: Event)
    ensures Project(Added(s, e), InputOf) == InputTyped(s, e)
  {
    DecisionMeans(s, e);
    hide Next, Added, Project, Frame, Acted, Decision, Forwarded, O.Scan;
    SeenOf(s, e, InputOf);
    FrameSeen(Next(s, e), InputOf);
    if Decision(s, e).Some? {
      ActedSeen(s, e, Decision(s, e).value, InputOf);
    } else if e.Stdin? {
      ForwardedInput(e.chunk);
    }
  }

  lemma {:induction false} ResizeAdded(s: Loop, e: Event)
    ensures Project(Added(s, e), ResizeOf) == SizesTold(s, e)
  {
    DecisionMeans(s, e);
    hide Next, Added, Project, Frame, Acted, Decision, Forwarded, O.Scan;
    SeenOf(s, e, ResizeOf);
    FrameSeen(Next(s, e), ResizeOf);
    if Decision(s, e).Some? {
      ActedSeen(s, e, Decision(s, e).value, ResizeOf);
    } else if e.Stdin? {
      ForwardedUnseen(e.chunk, ResizeOf);
    }
  }

  lemma {:induction false} RequestAdded(s: Loop, e: Event)
    ensures Project(Added(s, e), RequestOf) == RepaintsChosen(s, e)
  {
    DecisionMeans(s, e);
    hide Next, Added, Project, Frame, Acted, Decision, Forwarded, O.Scan;
    SeenOf(s, e, RequestOf);
    FrameSeen(Next(s, e), RequestOf);
    if Decision(s, e).Some? {
      ActedSeen(s, e, Decision(s, e).value, RequestOf);
    } else if e.Stdin? {
      ForwardedUnseen(e.chunk, RequestOf);
    }
  }

  lemma {:induction false} MarkAdded(s: Loop, e: Event)
    ensures Project(Added(s, e), MarkOf) == MarksMade(s, e)
  {
    DecisionMeans(s, e);
    hide Next, Added, Project, Frame, Acted, Decision, Forwarded, O.Scan;
    SeenOf(s, e, MarkOf);
    FrameSeen(Next(s, e), MarkOf);
    if Decision(s, e).Some? {
      ActedSeen(s, e, Decision(s, e).value, MarkOf);
    } else if e.Stdin? {
      ForwardedUnseen(e.chunk, MarkOf);
    }
  }

  /** Session output reaches the screen frame by frame, exactly as the daemon sent it, whenever no
      picker is open: none is lost, held back, repeated or out of order. */
  lemma {:induction false} OutputIsPainted(s: Loop, events: seq<Event>)
    ensures Project(Run(s, events).trace, OutputOf) == Project(s.trace, OutputOf) + Over(s, events, OutputRead)
  {
    hide Added, OutputOf, OutputRead;
    forall at: Loop, e: Event ensures Project(Added(at, e), OutputOf) == OutputRead(at, e) {
      OutputAdded(at, e);
    }
    TraceOver(s, events, OutputOf, OutputRead);
  }

  /** The terminal's own reports reach the daemon as notices: exactly those found in what was typed
      while no picker was open, in order. */
  lemma {:induction false} ReportsAreSent(s: Loop, events: seq<Event>)
    ensures Project(Run(s, events).trace, NoticeOf) == Project(s.trace, NoticeOf) + Over(s, events, ReportsTyped)
  {
    hide Added, NoticeOf, ReportsTyped;
    forall at: Loop, e: Event ensures Project(Added(at, e), NoticeOf) == ReportsTyped(at, e) {
      NoticeAdded(at, e);
    }
    TraceOver(s, events, NoticeOf, ReportsTyped);
  }

  /** The input the daemon gets is exactly what was typed while no picker was open, chunk by chunk, each
      less the terminal's own reports. */
  lemma {:induction false} InputIsSent(s: Loop, events: seq<Event>)
    ensures Project(Run(s, events).trace, InputOf) == Project(s.trace, InputOf) + Over(s, events, InputTyped)
  {
    hide Added, InputOf, InputTyped;
    forall at: Loop, e: Event ensures Project(Added(at, e), InputOf) == InputTyped(at, e) {
      InputAdded(at, e);
    }
    TraceOver(s, events, InputOf, InputTyped);
  }

  /** One resize message per size the terminal takes, with that size. */
  lemma {:induction false} ResizesAreSent(s: Loop, events: seq<Event>)
    ensures Project(Run(s, events).trace, ResizeOf) == Project(s.trace, ResizeOf) + Over(s, events, SizesTold)
  {
    hide Added, ResizeOf, SizesTold;
    forall at: Loop, e: Event ensures Project(Added(at, e), ResizeOf) == SizesTold(at, e) {
      ResizeAdded(at, e);
    }
    TraceOver(s, events, ResizeOf, SizesTold);
  }

  /** Each switch chosen to another session asks the daemon for that session; each cancel, and each
      switch to the session the picker was opened on, for a redraw; nothing else asks. */
  lemma {:induction false} RequestsAreSent(s: Loop, events: seq<Event>)
    ensures Project(Run(s, events).trace, RequestOf) == Project(s.trace, RequestOf) + Over(s, events, RepaintsChosen)
  {
    hide Added, RequestOf, RepaintsChosen;
    forall at: Loop, e: Event ensures Project(Added(at, e), RequestOf) == RepaintsChosen(at, e) {
      RequestAdded(at, e);
    }
    TraceOver(s, events, RequestOf, RepaintsChosen);
  }

  /** The picker's screen is taken once per opening and given back once per decision to leave, and a
      kill that fails is told on it. */
  lemma {:induction false} MarksAreMade(s: Loop, events: seq<Event>)
    ensures Project(Run(s, events).trace, MarkOf) == Project(s.trace, MarkOf) + Over(s, events, MarksMade)
  {
    hide Added, MarkOf, MarksMade;
    forall at: Loop, e: Event ensures Project(Added(at, e), MarkOf) == MarksMade(at, e) {
      MarkAdded(at, e);
    }
    TraceOver(s, events, MarkOf, MarksMade);
  }

  // --- the picker while open ---

  lemma {:induction false} StepOpen(s: Loop, e: Event)
    ensures Next(s, e).picker.Some? <==> (e.OpenPicker? && s.exit == None) || (s.picker.Some? && !Closes(s, e))
  {
    hide Runs.After, RosterRowsOf, PickerRowsOf, AdHocOf, KeysIn, Pressed, CurrentIndex, Forwarded, ResolveStatus;
  }

  /** Event `i` opened a picker, and no decision has closed it since. */
  ghost predicate OpenSince(s: Loop, events: seq<Event>, i: nat) {
    && i < |events|
    && events[i].OpenPicker? && Run(s, events[..i]).exit == None
    && forall j :: i < j < |events| ==> !Closes(Run(s, events[..j]), events[j])
  }

  /** A picker is open exactly when one was opened and nothing decided in it has closed it: not
      output, not failures, not the terminal's end of input. */
  lemma {:induction false} OpenIff(s: Loop, events: seq<Event>)
    requires s.picker == None
    ensures Run(s, events).picker.Some? <==> exists i :: OpenSince(s, events, i)
  {
    hide Next, Closes;
    if events != [] {
      var n := |events| - 1;
      var front := events[..n];
      assert forall j :: 0 <= j <= n ==> front[..j] == events[..j];
      OpenIff(s, front);
      StepOpen(Run(s, front), events[n]);
      if i: nat :| OpenSince(s, front, i) {
        assert !Closes(Run(s, front), events[n]) ==> OpenSince(s, events, i);
      }
      if i: nat :| OpenSince(s, events, i) {
        assert i < n ==> OpenSince(s, front, i);
      }
      assert events[n].OpenPicker? && Run(s, front).exit == None ==> OpenSince(s, events, n);
    }
  }

  /** The keys of a chunk the picker handles: all, or those up to the first that decides. */
  ghost function KeysUsed(p: State, keys: seq<byte>): nat
    decreases |keys|
  {
    if keys == [] then 0
    else if HandleKey(p, keys[0]).1.Some? then 1
    else 1 + KeysUsed(HandleKey(p, keys[0]).0, keys[1..])
  }

  function Keys(keys: seq<byte>): seq<Runs.Event> {
    if keys == [] then [] else Keys(keys[..|keys| - 1]) + [Runs.Key(keys[|keys| - 1])]
  }

  lemma {:induction false} KeysCons(key: byte, keys: seq<byte>)
    ensures Keys([key] + keys) == [Runs.Key(key)] + Keys(keys)
  {
    var all := [key] + keys;
    if keys == [] {
      assert all[..0] == [] && all == [key];
    } else {
      assert all[..|keys|] == [key] + keys[..|keys| - 1];
      KeysCons(key, keys[..|keys| - 1]);
      ConcatAssociative([Runs.Key(key)], Keys(keys[..|keys| - 1]), [Runs.Key(keys[|keys| - 1])]);
    }
  }

  lemma {:induction false} RunKeys(p: State, key: byte, keys: seq<byte>)
    ensures Runs.Run(p, Keys([key] + keys)) == Runs.Run(HandleKey(p, key).0, Keys(keys))
  {
    hide HandleKey, Runs.Run;
    KeysCons(key, keys);
    Runs.RunOne(p, Runs.Key(key));
    Runs.RunConcat(p, [Runs.Key(key)], Keys(keys));
  }

  lemma {:induction false} NoKeys()
    ensures Keys([]) == []
  {
  }

  /** A chunk's keys are a run of the picker's, which ends where the picker ends: at the last key, or
      at the first that decides. */
  lemma {:induction false} PressedIsRun(p: State, keys: seq<byte>)
    ensures var n := KeysUsed(p, keys);
            && n <= |keys| && Pressed(p, keys).0 == Runs.Run(p, Keys(keys[..n]))
            && (if Pressed(p, keys).1.Some? then n > 0 else n == |keys|)
    decreases |keys|
  {
    hide HandleKey, Runs.Run, Keys;
    if keys == [] {
      Runs.RunNothing(p);
      assert Keys([]) == [] by { NoKeys(); }
    } else {
      var (next, o) := HandleKey(p, keys[0]);
      var m := if o.Some? then 0 else KeysUsed(next, keys[1..]);
      if o.None? {
        PressedIsRun(next, keys[1..]);
      } else {
        NoKeys();
        Runs.RunNothing(next);
      }
      RunKeys(p, keys[0], keys[1..][..m]);
      assert keys[..1 + m] == [keys[0]] + keys[1..][..m];
    }
  }

  /** Of the keys handled only the last may decide, and it decides what the chunk decides. */
  lemma {:induction false} PressedEmits(p: State, keys: seq<byte>, k: nat)
    requires k < KeysUsed(p, keys) <= |keys|
    ensures Runs.Emitted(Runs.Run(p, Keys(keys[..k])), Runs.Key(keys[k])) ==
            if k == KeysUsed(p, keys) - 1 then Pressed(p, keys).1 else None
    decreases |keys|
  {
    hide HandleKey, Runs.Run, Keys;
    var (next, o) := HandleKey(p, keys[0]);
    if k == 0 {
      NoKeys();
      Runs.RunNothing(p);
      if o.None? && keys[1..] == [] {
        PressedNothing(next);
      }
    } else {
      PressedEmits(next, keys[1..], k - 1);
      RunKeys(p, keys[0], keys[1..][..k - 1]);
      assert keys[..k] == [keys[0]] + keys[1..][..k - 1];
    }
  }

  ghost predicate DecidesAt(p: State, keys: seq<byte>, o: Outcome, k: nat) {
    && k < |keys|
    && Runs.Emitted(Runs.Run(p, Keys(keys[..k])), Runs.Key(keys[k])) == Some(o)
    && forall j: nat :: j < k ==> Runs.Emitted(Runs.Run(p, Keys(keys[..j])), Runs.Key(keys[j])) == None
  }

  /** A chunk decides `o` exactly when some key of it emits `o` where the keys before it, none of which
      emits anything, have brought the picker. */
  lemma {:induction false} DecidesIff(p: State, keys: seq<byte>, o: Outcome)
    ensures Pressed(p, keys).1 == Some(o) <==> exists k: nat :: DecidesAt(p, keys, o, k)
  {
    hide Runs.Emitted, Runs.Run, Keys, Pressed, KeysUsed;
    PressedIsRun(p, keys);
    var n := KeysUsed(p, keys);
    forall k: nat | k < n
      ensures Runs.Emitted(Runs.Run(p, Keys(keys[..k])), Runs.Key(keys[k])) == if k == n - 1 then Pressed(p, keys).1 else None
    {
      PressedEmits(p, keys, k);
    }
    if Pressed(p, keys).1 == Some(o) {
      assert DecidesAt(p, keys, o, n - 1);
    }
    if k: nat :| DecidesAt(p, keys, o, k) {
      var last: nat := if n > 0 then n - 1 else 0;
      assert n > 0 ==> Runs.Emitted(Runs.Run(p, Keys(keys[..last])), Runs.Key(keys[last])) == Pressed(p, keys).1;
      assert Pressed(p, keys).1.Some? ==> k <= last;
    }
  }

  /** What a decision does to the rows: a forgotten host has them assembled anew, a killed session's
      row goes. */
  ghost function RowEdit(s: Loop, e: Event): seq<Runs.Event> {
    match Decision(s, e)
    case Some(Forget(_)) =>
      [Runs.Replaced(RosterRowsOf(e.roster, Some(s.daemon)).rows, AdHocOf(e.roster, s.daemon))]
    case Some(Kill(host, name)) => if QuietKill(s, e) then [] else [Runs.Removed(host, name)]
    case _ => []
  }

  /** What one event hands to the open picker. */
  ghost function Handed(s: Loop, e: Event): seq<Runs.Event> {
    if s.exit.Some? || s.picker == None then []
    else
      match e
      case Stdin(chunk, _, _) =>
        if !s.stdinOpen then []
        else
          var keys := KeysIn(chunk);
          Keys(keys[..Used(s, e)]) + RowEdit(s, e)
      case Status(host, status) => if s.answers then [Runs.Answered(ResolveStatus(host, status))] else []
      case _ => []
  }

  ghost function Used(s: Loop, e: Event): (n: nat)
    requires e.Stdin? && s.picker.Some?
    ensures n <= |KeysIn(e.chunk)|
  {
    PressedIsRun(s.picker.value.0, KeysIn(e.chunk));
    KeysUsed(s.picker.value.0, KeysIn(e.chunk))
  }

  lemma {:induction false} EmptyChunk(p: State)
    ensures KeysIn([]) == [] && Pressed(p, []) == (p, None)
  {
  }

  lemma {:induction false} HandedKeys(s: Loop, e: Event)
    requires e.Stdin? && s.exit == None && s.stdinOpen && s.picker.Some? && !Closes(s, e)
    ensures Next(s, e).picker == Some((Runs.Run(s.picker.value.0, Handed(s, e)), s.picker.value.1))
  {
    hide Runs.After, Runs.Run, RosterRowsOf, AdHocOf, KeysUsed, Keys, KeysIn, Pressed;
    var (p, keys) := (s.picker.value.0, KeysIn(e.chunk));
    PressedIsRun(p, keys);
    var typed := Keys(keys[..Used(s, e)]);
    Runs.RunConcat(p, typed, RowEdit(s, e));
    var after := Pressed(p, keys).0;
    if e.chunk == [] {
      EmptyChunk(p);
      NoKeys();
      Runs.RunNothing(p);
    } else {
      Runs.RunNothing(after);
      match Decision(s, e)
      case Some(Forget(_)) => Runs.RunOne(after, RowEdit(s, e)[0]);
      case Some(Kill(host, name)) => Runs.RunOne(after, Runs.Removed(host, name));
      case _ =>
    }
  }

  lemma {:induction false} HandedStep(s: Loop, e: Event)
    requires s.picker.Some? && !e.OpenPicker? && !Closes(s, e)
    ensures Next(s, e).picker == Some((Runs.Run(s.picker.value.0, Handed(s, e)), s.picker.value.1))
  {
    if e.Stdin? && s.exit == None && s.stdinOpen {
      HandedKeys(s, e);
    } else {
      hide Runs.After, Runs.Run, Runs.Emitted, Keys, KeysIn, Pressed, ResolveStatus;
      Runs.RunNothing(s.picker.value.0);
      if e.Status? {
        Runs.RunOne(s.picker.value.0, Runs.Answered(ResolveStatus(e.host, e.status)));
      }
    }
  }

  /** While it stays open the loop's picker is a run of the picker alone: over the keys of the chunks
      typed, the answers still awaited, and the edits its decisions call for, in the order they come.
      So whatever holds of every run of the picker holds of every picker the loop runs. */
  lemma {:induction false} PickerIsItsRun(s: Loop, events: seq<Event>)
    requires s.picker.Some?
    requires forall j :: 0 <= j < |events| ==> !events[j].OpenPicker? && !Closes(Run(s, events[..j]), events[j])
    ensures Run(s, events).picker == Some((Runs.Run(s.picker.value.0, Over(s, events, Handed)), s.picker.value.1))
  {
    hide Next, Closes, Handed, Runs.Run;
    if events == [] {
      Runs.RunNothing(s.picker.value.0);
    } else {
      var n := |events| - 1;
      var front := events[..n];
      assert forall j :: 0 <= j <= n ==> front[..j] == events[..j];
      PickerIsItsRun(s, front);
      HandedStep(Run(s, front), events[n]);
      Runs.RunConcat(s.picker.value.0, Over(s, front, Handed), Handed(Run(s, front), events[n]));
    }
  }

  /** Opening: the rows assembled for the session list, navigating, unfiltered, nothing to install. */
  lemma {:induction false} OpensFresh(s: Loop, e: Event)
    requires e.OpenPicker? && s.exit == None
    ensures var next := Next(s, e);
            && next.answers && next.picker.Some? && next.picker.value.1 == e.session
            && var p := next.picker.value.0;
            && p.rows == PickerRowsOf(e.entries, s.daemon, e.roster) && p.current == Some(s.daemon)
            && p.mode == Navigate && p.filter == "" && p.install == UseExisting && p.lower == s.lower
            && (forall i :: 0 <= i < p.cursor ==> i < |p.rows| && !IsCurrentSession(p.rows[i], p.current, e.session))
            && (p.cursor != 0 ==> p.cursor < |p.rows| && IsCurrentSession(p.rows[p.cursor], p.current, e.session))
            && p.adhoc == RosterRowsOf(e.roster, Some(s.daemon)).adhoc
  {
    hide PickerRowsOf, RosterRowsOf;
  }

  // --- how it ends ---

  ghost predicate Decides(s: Loop, e: Event, host: Host, name: string, install: InstallPolicy) {
    Decision(s, e) == Some(Reconnect(host, name, install)) || Decision(s, e) == Some(New(host, name, install))
  }

  /** The event ends the loop with `x`. */
  ghost predicate Ends(s: Loop, e: Event, x: Exit) {
    s.exit == None &&
    match x
    case Ended => e.DaemonClosed?
    case Follow => e.DaemonExited?
    case Failed => e.DaemonFailed?
    case ReconnectTo(host, name, install) =>
      || (name != "" && Decides(s, e, host, name, install))
      || (name == "main" && Decides(s, e, host, "", install))
  }

  lemma {:induction false} EndsStep(s: Loop, e: Event, x: Exit)
    ensures Next(s, e).exit == Some(x) <==> s.exit == Some(x) || Ends(s, e, x)
  {
    hide Runs.After, RosterRowsOf, PickerRowsOf, AdHocOf, KeysIn, Pressed, CurrentIndex, Forwarded, ResolveStatus;
  }

  /** The loop ends exactly by the first event that ends it, and as that event says: the daemon's
      word, or a decision to reconnect, to that host under that install policy and to that session,
      `main` standing in for an empty name. */
  lemma {:induction false} ExitIff(s: Loop, events: seq<Event>, x: Exit)
    requires s.exit == None
    ensures Run(s, events).exit == Some(x) <==>
            exists i :: 0 <= i < |events| && Ends(Run(s, events[..i]), events[i], x)
  {
    hide Next, Ends;
    if events != [] {
      var n := |events| - 1;
      var front := events[..n];
      assert forall j :: 0 <= j <= n ==> front[..j] == events[..j];
      ExitIff(s, front, x);
      EndsStep(Run(s, front), events[n], x);
      assert forall i :: 0 <= i < n ==> front[i] == events[i];
    }
  }

  lemma {:induction false} ListensStep(s: Loop, e: Event)
    ensures Next(s, e).stdinOpen <==> s.stdinOpen && (e.Stdin? && e.chunk == [] ==> s.exit.Some?)
  {
    hide Runs.After, RosterRowsOf, PickerRowsOf, AdHocOf, KeysIn, Pressed, CurrentIndex, Forwarded, ResolveStatus;
  }

  /** Typing is listened to until its end is read, whatever else happens. */
  lemma {:induction false} ListensIff(s: Loop, events: seq<Event>)
    requires s.stdinOpen
    ensures Run(s, events).stdinOpen <==>
            forall i :: 0 <= i < |events| && events[i].Stdin? && events[i].chunk == [] ==> Run(s, events[..i]).exit.Some?
  {
    hide Next;
    if events != [] {
      var n := |events| - 1;
      var front := events[..n];
      assert forall j :: 0 <= j <= n ==> front[..j] == events[..j];
      ListensIff(s, front);
      ListensStep(Run(s, front), events[n]);
      assert forall i :: 0 <= i < n ==> front[i] == events[i];
    }
  }

  /** The event starts the other daemons' answers streaming in. */
  ghost predicate Queries(s: Loop, e: Event) {
    (e.OpenPicker? && s.exit == None) || (Decision(s, e).Some? && Decision(s, e).value.Forget?)
  }

  /** The event stops them: all have answered, or the picker is closed for this daemon's session. */
  ghost predicate Silences(s: Loop, e: Event) {
    || (e.StatusesDone? && s.exit == None)
    || (Decision(s, e).Some? && (Decision(s, e).value.Switch? || Decision(s, e).value.Cancel?))
  }

  lemma {:induction false} AnswersStep(s: Loop, e: Event)
    ensures Next(s, e).answers <==> Queries(s, e) || (s.answers && !Silences(s, e))
  {
    hide Runs.After, RosterRowsOf, PickerRowsOf, AdHocOf, KeysIn, Pressed, CurrentIndex, Forwarded, ResolveStatus;
  }

  /** Event `i` has started answers streaming in, and nothing has stopped them since. */
  ghost predicate QueriedSince(s: Loop, events: seq<Event>, i: nat) {
    && i < |events| && Queries(Run(s, events[..i]), events[i])
    && forall j :: i < j < |events| ==> !Silences(Run(s, events[..j]), events[j])
  }

  /** Answers are awaited exactly from an opening or a forgotten host until all have come or the
      picker is closed. */
  lemma {:induction false} AwaitsIff(s: Loop, events: seq<Event>)
    requires !s.answers
    ensures Run(s, events).answers <==> exists i :: QueriedSince(s, events, i)
  {
    hide Next, Queries, Silences;
    if events != [] {
      var n := |events| - 1;
      var front := events[..n];
      assert forall j :: 0 <= j <= n ==> front[..j] == events[..j];
      AwaitsIff(s, front);
      AnswersStep(Run(s, front), events[n]);
      if i: nat :| QueriedSince(s, front, i) {
        assert !Silences(Run(s, front), events[n]) ==> QueriedSince(s, events, i);
      }
      if i: nat :| QueriedSince(s, events, i) {
        assert i < n ==> QueriedSince(s, front, i);
      }
      assert Queries(Run(s, front), events[n]) ==> QueriedSince(s, events, n);
    }
  }

  lemma {:induction false} SizeStep(s: Loop, e: Event)
    ensures Next(s, e).size == if e.Resized? && s.exit == None then e.size else s.size
  {
    hide Runs.After, RosterRowsOf, PickerRowsOf, AdHocOf, KeysIn, Pressed, CurrentIndex, Forwarded, ResolveStatus;
  }

  /** The size drawn for is the last one told. */
  lemma {:induction false} SizeIsLastTold(s: Loop, events: seq<Event>)
    ensures var told := Over(s, events, SizesTold);
            Run(s, events).size == if told == [] then s.size else told[|told| - 1]
  {
    hide Next;
    if events != [] {
      SizeIsLastTold(s, events[..|events| - 1]);
      SizeStep(Run(s, events[..|events| - 1]), events[|events| - 1]);
    }
  }

  // --- rows after a decision ---

  lemma {:induction false} KeysKeepRows(s: Loop, e: Event)
    requires Decision(s, e).Some?
    ensures Pressed(s.picker.value.0, KeysIn(e.chunk)).0.rows == s.picker.value.0.rows
  {
    PressedSwitch(s.picker.value.0, KeysIn(e.chunk));
  }

  /** A killed session's rows are gone, every other row stays where it was. */
  lemma {:induction false} KilledRowGoes(s: Loop, e: Event, host: Host, name: string)
    requires Decision(s, e) == Some(Kill(host, name)) && e.reply.Killed? && !OnOwnSession(s, host, name)
    ensures var next := Next(s, e);
            && next.picker.Some?
            && next.picker.value.0.rows ==
               Filter(s.picker.value.0.rows, (r: Row) => !(r.kind == SessionRow && r.host == host && r.name == name))
  {
    hide RosterRowsOf, AdHocOf, KeysIn, Pressed, Matching;
    KeysKeepRows(s, e);
    FilterSame(s.picker.value.0.rows, (r: Row) => !(IsSessionOf(r, host) && r.name == name),
               (r: Row) => !(r.kind == SessionRow && r.host == host && r.name == name));
  }

  /** A kill that is refused, fails, or is of the picker's own session leaves every row. */
  lemma {:induction false} QuietKillKeepsRows(s: Loop, e: Event)
    requires QuietKill(s, e)
    ensures Next(s, e).picker.Some? && Next(s, e).picker.value.0.rows == s.picker.value.0.rows
    ensures Next(s, e).exit == None
  {
    hide RosterRowsOf, AdHocOf, KeysIn, Pressed, Matching;
    KeysKeepRows(s, e);
  }

  lemma {:induction false} NotRebuilt(roster: seq<R.RosterHost>, daemon: Host, remote: string)
    requires forall i :: 0 <= i < |roster| ==> roster[i].host != remote
    ensures forall r :: r in RosterRowsOf(roster, Some(daemon)).rows ==> r.host != Remote(remote)
  {
    var others := Others(roster, Some(daemon));
    RemoteAnchorsAt(others);
    forall h | h in others
      ensures h.host != remote
    {
      FilterMember(roster, (x: R.RosterHost) => IsOther(x, Some(daemon)), h);
    }
    hide Others;
    assert forall i :: 0 <= i < |others| ==> others[i] in others;
  }

  /** A forgotten host goes, with its sessions, once the roster no longer lists it; the attached
      daemon's rows stay, in place. */
  lemma {:induction false} ForgottenHostGoes(s: Loop, e: Event, remote: string)
    requires Decision(s, e) == Some(Forget(remote)) && s.picker.value.0.current == Some(s.daemon)
    requires forall i :: 0 <= i < |e.roster| ==> e.roster[i].host != remote
    ensures var next := Next(s, e);
            && next.picker.Some? && next.answers
            && OfDaemon(s.picker.value.0.rows, Some(s.daemon)) <= next.picker.value.0.rows
            && forall r :: r in next.picker.value.0.rows && r.host == Remote(remote) ==> s.daemon == Remote(remote)
  {
    hide KeysIn, Pressed, Matching, RosterRowsOf;
    KeysKeepRows(s, e);
    PressedSwitch(s.picker.value.0, KeysIn(e.chunk));
    var built := RosterRowsOf(e.roster, Some(s.daemon));
    var own := OfDaemon(s.picker.value.0.rows, Some(s.daemon));
    forall r | r in own
      ensures r.host == s.daemon
    {
      FilterMember(s.picker.value.0.rows, (x: Row) => Some(x.host) == Some(s.daemon), r);
    }
    NotRebuilt(e.roster, s.daemon, remote);
    hide OfDaemon;
  }

  // --- what the open picker shows ---

  lemma {:induction false} FramesAdded(s: Loop, e: Event)
    ensures Project(Added(s, e), FrameOf) == FramesDue(s, e)
  {
    DecisionMeans(s, e);
    StepOpen(s, e);
    hide Next, Added, Project, Frame, Acted, Decision, Forwarded, O.Scan;
    SeenOf(s, e, FrameOf);
    FrameSeen(Next(s, e), FrameOf);
    if Decision(s, e).Some? {
      ActedSeen(s, e, Decision(s, e).value, FrameOf);
    } else if e.Stdin? {
      ForwardedUnseen(e.chunk, FrameOf);
    }
  }

  /** The open picker is drawn after every event that may have changed it, as it then stands and at
      the terminal's size, but for the kills that change no row. */
  lemma {:induction false} FramesAreDrawn(s: Loop, events: seq<Event>)
    ensures Project(Run(s, events).trace, FrameOf) == Project(s.trace, FrameOf) + Over(s, events, FramesDue)
  {
    hide Added, FrameOf, FramesDue;
    forall at: Loop, e: Event ensures Project(Added(at, e), FrameOf) == FramesDue(at, e) {
      FramesAdded(at, e);
    }
    TraceOver(s, events, FrameOf, FramesDue);
  }

  /** The last drawing shows the open picker as it stands. */
  ghost predicate Shows(s: Loop) {
    s.picker.Some? ==>
      var drawn := Project(s.trace, FrameOf);
      drawn != [] && drawn[|drawn| - 1] == (s.picker.value.0, s.size)
  }

  lemma {:induction false} Untouched(s: Loop, e: Event)
    requires !Touches(s, e)
    ensures Next(s, e).picker == s.picker && Next(s, e).size == s.size
  {
    hide ResolveStatus;
  }

  lemma {:induction false} ShowsStep(s: Loop, e: Event)
    requires Shows(s) && !QuietKill(s, e)
    ensures Shows(Next(s, e))
  {
    var next := Next(s, e);
    assert next.trace == s.trace + Added(s, e);
    ProjectAppend(s.trace, Added(s, e), FrameOf);
    FramesAdded(s, e);
    if !Touches(s, e) {
      Untouched(s, e);
    }
    hide Next, Added, Project, Touches, QuietKill;
  }

  /** What the user sees is the picker as it stands, as long as no kill has changed no row. */
  lemma {:induction false} ShownAsItStands(s: Loop, events: seq<Event>)
    requires Shows(s) && forall j :: 0 <= j < |events| ==> !QuietKill(Run(s, events[..j]), events[j])
    ensures Shows(Run(s, events))
  {
    hide Next, Shows, QuietKill;
    if events != [] {
      var n := |events| - 1;
      assert forall j :: 0 <= j <= n ==> events[..n][..j] == events[..j];
      ShownAsItStands(s, events[..n]);
      ShowsStep(Run(s, events[..n]), events[n]);
    }
  }

  lemma {:induction false} ConfirmedByY(p: State, host: Host, name: string)
    requires p.mode == ConfirmKill(host, name)
    ensures HandleKey(p, KEY_Y) == (p.(mode := Navigate), Some(Kill(host, name)))
  {
  }

  lemma {:induction false} OneKey(p: State, b: byte)
    ensures b != ESC ==> KeysIn([b]) == [b]
    ensures Pressed(p, [b]) == HandleKey(p, b)
  {
    hide HandleKey;
    assert [b][1..] == [];
  }

  /** A confirmed kill that changes no row leaves its confirmation on the screen although the picker
      is navigating again. */
  lemma {:induction false} QuietKillLeavesConfirmation(s: Loop, host: Host, name: string, roster: seq<R.RosterHost>, reply: KillReply)
    requires s.exit == None && s.stdinOpen && s.picker.Some? && s.picker.value.0.mode == ConfirmKill(host, name) && Shows(s)
    ensures var e := Stdin([KEY_Y], roster, reply);
            var next := Next(s, e);
            && Decision(s, e) == Some(Kill(host, name))
            && (QuietKill(s, e) ==>
                && next.picker.Some? && next.picker.value.0.mode == Navigate
                && var drawn := Project(next.trace, FrameOf);
                   drawn != [] && drawn[|drawn| - 1].0.mode == ConfirmKill(host, name))
            && (!QuietKill(s, e) ==> Shows(next))
  {
    var e := Stdin([KEY_Y], roster, reply);
    var p := s.picker.value.0;
    OneKey(p, KEY_Y);
    ConfirmedByY(p, host, name);
    hide Pressed, KeysIn, HandleKey, RosterRowsOf, Matching;
    if QuietKill(s, e) {
      FramesAdded(s, e);
      ProjectAppend(s.trace, Added(s, e), FrameOf);
      assert Project(s.trace, FrameOf) + [] == Project(s.trace, FrameOf);
      hide Project;
    } else {
      ShowsStep(s, e);
    }
  }

  /** All of it from the start of the client. */
  lemma {:induction false} FromTheStart(daemon: Host, lower: string -> string, size: Screen, events: seq<Event>)
    requires lower("") == "" && forall i :: 0 <= i < |events| ==> FromClient(events[i])
    ensures var start := Init(daemon, lower, size);
            var end := Run(start, events);
            && OwnerOf(end.trace) != Broken && (OwnerOf(end.trace) == Picking <==> end.picker.Some?)
            && Project(end.trace, OutputOf) == Over(start, events, OutputRead)
            && Project(end.trace, InputOf) == Over(start, events, InputTyped)
            && Project(end.trace, NoticeOf) == Over(start, events, ReportsTyped)
            && (end.picker.Some? <==> exists i :: OpenSince(start, events, i))
            && (end.picker.Some? ==> SoundPicker(end.picker.value.0, daemon))
            && (end.exit.Some? && end.exit.value.ReconnectTo? ==> end.exit.value.name != "")
  {
    var start := Init(daemon, lower, size);
    InitScreen(daemon, lower, size);
    hide Run, OwnerOf, SoundPicker, ScreenInv, Over, OpenSince;
    ScreenDiscipline(start, events);
    OutputIsPainted(start, events);
    InputIsSent(start, events);
    ReportsAreSent(start, events);
    OpenIff(start, events);
    PickersAreSound(start, events);
  }
}
