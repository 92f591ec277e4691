/** The client's event loop: terminal input, daemon frames, resizes and query answers, with the
    picker as a mode of it. What it sends to the daemon and paints on the screen is one trace. */
module Pump {
  import opened Prelude
  import O = OuterEvents
  import opened PickerRows
  import opened Streaming
  import opened RowAssembly
  import R = Roster
  import opened Picker
  import opened PickerKeys
  import Runs = PickerRuns
  import D = SwitchProtocol
  import opened PickerRender

  datatype Message =
    | Outer(event: O.Event)
    | Input(bytes: seq<byte>)
    | SwitchSession(name: string)
    | Redraw
    | Resize(size: Screen)

  datatype Paint = Output(bytes: seq<byte>) | PickerFrame(picker: State, size: Screen) | EnterPicker | LeavePicker | Note

  datatype Act = ToDaemon(message: Message) | ToScreen(paint: Paint)

  datatype Exit =
    | Ended | Follow | Failed
    | ReconnectTo(host: Host, name: string, install: InstallPolicy)

  /** What a kill request on its own connection came to. */
  datatype KillReply = Killed | DaemonRefused | Unexpected | ConnectFailed

  datatype Event =
    | DaemonOutput(bytes: seq<byte>)
    | DaemonExited
    | DaemonFailed
    | DaemonClosed
    | OpenPicker(entries: seq<SessionEntry>, session: string, roster: seq<R.RosterHost>)
    | Stdin(chunk: seq<byte>, roster: seq<R.RosterHost>, reply: KillReply)
    | Resized(size: Screen)
    | Status(host: Host, status: HostStatus)
    | StatusesDone

  /** `daemon` is the host attached to, `lower` the lower-casing the filter uses. */
  datatype Loop = Loop(
    daemon: Host, lower: string -> string,
    picker: Option<(State, string)>, answers: bool, stdinOpen: bool,
    exit: Option<Exit>, size: Screen, trace: seq<Act>)

  function Init(daemon: Host, lower: string -> string, size: Screen): Loop {
    Loop(daemon, lower, None, false, true, None, size, [])
  }

  function With(s: Loop, acts: seq<Act>): Loop { s.(trace := s.trace + acts) }

  function AdHocOf(roster: seq<R.RosterHost>, daemon: Host): seq<string> { RosterRowsOf(roster, Some(daemon)).adhoc }

  function Opened(s: Loop, entries: seq<SessionEntry>, session: string, roster: seq<R.RosterHost>): Loop {
    var rows := PickerRowsOf(entries, s.daemon, roster);
    var at := CurrentIndex(rows, Some(s.daemon), session);
    var fresh' := Start(rows, Some(s.daemon), if at.Some? then at.value else 0, s.lower)
                  .(adhoc := AdHocOf(roster, s.daemon));
    With(s.(picker := Some((fresh', session)), answers := true), [ToScreen(EnterPicker), ToScreen(PickerFrame(fresh', s.size))])
  }

  /** The picker is over and the terminal back on its own screen. */
  function Closed(s: Loop, message: Message): Loop {
    With(s.(picker := None, answers := false), [ToScreen(LeavePicker), ToDaemon(message)])
  }

  function OrMain(name: string): string { if name == "" then "main" else name }

  /** What the picker's outcome `o` makes of the loop; `p` is the picker after the keys. */
  function Chosen(s: Loop, p: State, session: string, o: Outcome, roster: seq<R.RosterHost>, reply: KillReply): Loop {
    match o
    case Switch(name) => Closed(s, if name == session then Redraw else SwitchSession(name))
    case Cancel => Closed(s, Redraw)
    case Reconnect(host, name, install) =>
      With(s.(picker := None, exit := Some(ReconnectTo(host, OrMain(name), install))), [ToScreen(LeavePicker)])
    case New(host, name, install) =>
      With(s.(picker := None, exit := Some(ReconnectTo(host, OrMain(name), install))), [ToScreen(LeavePicker)])
    case Forget(_) =>
      var rows := RosterRowsOf(roster, Some(s.daemon)).rows;
      var p' := Runs.After(p, Runs.Replaced(rows, AdHocOf(roster, s.daemon)));
      With(s.(picker := Some((p', session)), answers := true), [ToScreen(PickerFrame(p', s.size))])
    case Kill(host, name) =>
      match reply
      case Killed =>
        if host == s.daemon && name == session then s.(picker := Some((p, session)))
        else
          var p' := Runs.After(p, Runs.Removed(host, name));
          With(s.(picker := Some((p', session))), [ToScreen(PickerFrame(p', s.size))])
      case DaemonRefused => With(s.(picker := Some((p, session))), [ToScreen(Note)])
      case ConnectFailed => With(s.(picker := Some((p, session))), [ToScreen(Note)])
      case Unexpected => s.(picker := Some((p, session)))
  }

  function Notices(events: seq<O.Event>): seq<Act> {
    if events == [] then [] else [ToDaemon(Outer(events[0]))] + Notices(events[1..])
  }

  /** What a chunk typed with no picker open sends. */
  function Forwarded(chunk: seq<byte>): seq<Act> {
    var scanned := O.Scan(chunk);
    Notices(scanned.events) + if scanned.kept == [] then [] else [ToDaemon(Input(scanned.kept))]
  }

  function Typed(s: Loop, chunk: seq<byte>, roster: seq<R.RosterHost>, reply: KillReply): Loop {
    match s.picker
    case None => With(s, Forwarded(chunk))
    case Some((p, session)) =>
      var (p', o) := Pressed(p, KeysIn(chunk));
      if o.Some? then Chosen(s, p', session, o.value, roster, reply)
      else With(s.(picker := Some((p', session))), [ToScreen(PickerFrame(p', s.size))])
  }

  function Next(s: Loop, e: Event): Loop {
    if s.exit.Some? then s
    else
      match e
      case DaemonOutput(bytes) => if s.picker.None? then With(s, [ToScreen(Output(bytes))]) else s
      case DaemonExited => s.(exit := Some(Follow))
      case DaemonFailed => s.(exit := Some(Failed))
      case DaemonClosed => s.(exit := Some(Ended))
      case OpenPicker(entries, session, roster) => Opened(s, entries, session, roster)
      case Stdin(chunk, roster, reply) =>
        if !s.stdinOpen then s
        else if chunk == [] then s.(stdinOpen := false)
        else Typed(s, chunk, roster, reply)
      case Resized(size) =>
        With(s.(size := size),
             [ToDaemon(Resize(size))] + if s.picker.Some? then [ToScreen(PickerFrame(s.picker.value.0, size))] else [])
      case Status(host, status) =>
        if !s.answers || s.picker.None? then s
        else
          var answered := Runs.After(s.picker.value.0, Runs.Answered(ResolveStatus(host, status)));
          With(s.(picker := Some((answered, s.picker.value.1))), [ToScreen(PickerFrame(answered, s.size))])
      case StatusesDone => s.(answers := false)
  }

  function Run(s: Loop, events: seq<Event>): Loop {
    if events == [] then s else Next(Run(s, events[..|events| - 1]), events[|events| - 1])
  }

  // --- the screen ---

  /** Whose the screen is: the session's, the picker's, or nobody's until a repaint is asked for;
      `Broken` once something was painted on a screen of another owner. */
  datatype Owner = Session | Picking | Stale | Broken

  function OwnerAfter(owner: Owner, a: Act): Owner {
    match a
    case ToScreen(Output(_)) => if owner == Session then Session else Broken
    case ToScreen(PickerFrame(_, _)) => if owner == Picking then Picking else Broken
    case ToScreen(Note) => if owner == Picking then Picking else Broken
    case ToScreen(EnterPicker) => if owner == Session || owner == Picking then Picking else Broken
    case ToScreen(LeavePicker) => if owner == Picking then Stale else Broken
    case ToDaemon(SwitchSession(_)) => if owner == Stale then Session else Broken
    case ToDaemon(Redraw) => if owner == Stale then Session else Broken
    case ToDaemon(_) => if owner == Stale then Broken else owner
  }

  function OwnerOf(trace: seq<Act>): Owner {
    if trace == [] then Session else OwnerAfter(OwnerOf(trace[..|trace| - 1]), trace[|trace| - 1])
  }

  lemma {:induction false} OwnerSnoc(trace: seq<Act>, a: Act)
    ensures OwnerOf(trace + [a]) == OwnerAfter(OwnerOf(trace), a)
  {
    assert (trace + [a])[..|trace|] == trace;
  }

  lemma {:induction false} OwnerSnoc2(trace: seq<Act>, a: Act, b: Act)
    ensures OwnerOf(trace + [a, b]) == OwnerAfter(OwnerAfter(OwnerOf(trace), a), b)
  {
    OwnerSnoc(trace, a);
    OwnerSnoc(trace + [a], b);
    assert trace + [a] + [b] == trace + [a, b];
  }

  lemma {:induction false} OwnerNotices(trace: seq<Act>, events: seq<O.Event>)
    requires OwnerOf(trace) == Session
    ensures OwnerOf(trace + Notices(events)) == Session
    decreases |events|
  {
    if events == [] {
      assert trace + [] == trace;
    } else {
      var first := ToDaemon(Outer(events[0]));
      OwnerSnoc(trace, first);
      assert OwnerAfter(Session, first) == Session;
      hide OwnerOf, OwnerAfter;
      OwnerNotices(trace + [first], events[1..]);
      ConcatAssociative(trace, [first], Notices(events[1..]));
    }
  }

  lemma OwnerForwarded(trace: seq<Act>, chunk: seq<byte>)
    requires OwnerOf(trace) == Session
    ensures OwnerOf(trace + Forwarded(chunk)) == Session
  {
    var scanned := O.Scan(chunk);
    var notices := Notices(scanned.events);
    OwnerNotices(trace, scanned.events);
    if scanned.kept == [] {
      assert notices + [] == notices;
    } else {
      OwnerSnoc(trace + notices, ToDaemon(Input(scanned.kept)));
      ConcatAssociative(trace, notices, [ToDaemon(Input(scanned.kept))]);
    }
  }

  /** The loop's own view agrees with the trace: the picker is open exactly while the screen is its
      own, and only a reconnect leaves it to nobody. */
  predicate ScreenInv(s: Loop) {
    && (s.picker.Some? ==> OwnerOf(s.trace) == Picking)
    && (s.picker.None? ==> OwnerOf(s.trace) == if s.exit.Some? && s.exit.value.ReconnectTo? then Stale else Session)
    && (s.answers && s.exit == None ==> s.picker.Some?)
  }

  lemma ChosenScreen(s: Loop, p: State, session: string, o: Outcome, roster: seq<R.RosterHost>, reply: KillReply)
    requires ScreenInv(s) && s.picker.Some? && s.exit == None
    ensures ScreenInv(Chosen(s, p, session, o, roster, reply))
  {
    hide Runs.After, RosterRowsOf, AdHocOf, OwnerOf;
    match o
    case Switch(name) =>
      OwnerSnoc2(s.trace, ToScreen(LeavePicker), ToDaemon(if name == session then Redraw else SwitchSession(name)));
    case Cancel => OwnerSnoc2(s.trace, ToScreen(LeavePicker), ToDaemon(Redraw));
    case Reconnect(_, _, _) => OwnerSnoc(s.trace, ToScreen(LeavePicker));
    case New(_, _, _) => OwnerSnoc(s.trace, ToScreen(LeavePicker));
    case Forget(_) =>
      var frame := Chosen(s, p, session, o, roster, reply).picker.value.0;
      OwnerSnoc(s.trace, ToScreen(PickerFrame(frame, s.size)));
    case Kill(_, _) =>
      var frame := Chosen(s, p, session, o, roster, reply).picker.value.0;
      OwnerSnoc(s.trace, ToScreen(PickerFrame(frame, s.size)));
      OwnerSnoc(s.trace, ToScreen(Note));
  }

  lemma NextScreen(s: Loop, e: Event)
    requires ScreenInv(s)
    ensures ScreenInv(Next(s, e))
  {
    hide Runs.After, RosterRowsOf, PickerRowsOf, AdHocOf, OwnerOf, Chosen, Pressed, Forwarded, CurrentIndex;
    if s.exit == None {
      match e
      case DaemonOutput(bytes) => OwnerSnoc(s.trace, ToScreen(Output(bytes)));
      case OpenPicker(_, _, _) =>
        OwnerSnoc2(s.trace, ToScreen(EnterPicker), ToScreen(PickerFrame(Next(s, e).picker.value.0, s.size)));
      case Stdin(chunk, roster, reply) =>
        if s.picker.None? {
          OwnerForwarded(s.trace, chunk);
        } else {
          var (p, o) := Pressed(s.picker.value.0, KeysIn(chunk));
          OwnerSnoc(s.trace, ToScreen(PickerFrame(p, s.size)));
          if o.Some? {
            ChosenScreen(s, p, s.picker.value.1, o.value, roster, reply);
          }
        }
      case Resized(size) =>
        var resize := ToDaemon(Resize(size));
        OwnerSnoc(s.trace, resize);
        assert [resize] + [] == [resize];
        if s.picker.Some? {
          var frame := ToScreen(PickerFrame(s.picker.value.0, size));
          OwnerSnoc2(s.trace, resize, frame);
          assert [resize] + [frame] == [resize, frame];
        }
      case Status(_, _) =>
        if s.answers && s.picker.Some? {
          OwnerSnoc(s.trace, ToScreen(PickerFrame(Next(s, e).picker.value.0, s.size)));
        }
      case _ =>
    }
  }

  /** In every run nothing is painted on a screen of another owner: no session output while the
      picker is open, and none after it closed until a repaint has been asked for, which is the very
      next thing sent. The alternate screen is up exactly while the picker is open; answers are
      awaited only then; and only a reconnect leaves the screen stale. */
  lemma {:induction false} ScreenDiscipline(s: Loop, events: seq<Event>)
    requires ScreenInv(s)
    ensures var end := Run(s, events);
            && ScreenInv(end) && OwnerOf(end.trace) != Broken
            && (OwnerOf(end.trace) == Picking <==> end.picker.Some?)
  {
    hide Next, OwnerOf;
    if events != [] {
      ScreenDiscipline(s, events[..|events| - 1]);
      NextScreen(Run(s, events[..|events| - 1]), events[|events| - 1]);
    }
  }

  lemma InitScreen(daemon: Host, lower: string -> string, size: Screen)
    ensures ScreenInv(Init(daemon, lower, size))
  {
  }

  // --- repaints asked of the daemon ---

  function Closings(trace: seq<Act>): nat {
    if trace == [] then 0
    else Closings(trace[..|trace| - 1]) + if trace[|trace| - 1].ToScreen? && trace[|trace| - 1].paint.LeavePicker? then 1 else 0
  }

  predicate AsksRepaint(a: Act) { a.ToDaemon? && (a.message.Redraw? || a.message.SwitchSession?) }

  function RepaintsAsked(trace: seq<Act>): nat {
    if trace == [] then 0
    else RepaintsAsked(trace[..|trace| - 1]) + if AsksRepaint(trace[|trace| - 1]) then 1 else 0
  }

  lemma {:induction false} OneRepaintPerClosing(trace: seq<Act>)
    requires OwnerOf(trace) != Broken
    ensures Closings(trace) == RepaintsAsked(trace) + if OwnerOf(trace) == Stale then 1 else 0
  {
    if trace != [] {
      OneRepaintPerClosing(trace[..|trace| - 1]);
    }
  }

  /** The messages that ask for a repaint, as the daemon's connection serves them. */
  function RepaintMessages(trace: seq<Act>): seq<D.Action> {
    if trace == [] then []
    else
      var front, last := RepaintMessages(trace[..|trace| - 1]), trace[|trace| - 1];
      if last.ToDaemon? && last.message.Redraw? then front + [D.Redraw]
      else if last.ToDaemon? && last.message.SwitchSession? then front + [D.Request(last.message.name, true)]
      else front
  }

  lemma {:induction false} MessagesCounted(trace: seq<Act>)
    ensures |RepaintMessages(trace)| == RepaintsAsked(trace)
  {
    if trace != [] {
      MessagesCounted(trace[..|trace| - 1]);
    }
  }

  /** Client and daemon together, from the start of both: once the connection has served exactly the
      repaint messages the client sent, in their order, its renderer has been told to repaint once
      for each picker the client closed (an overlay's own switches apart). */
  lemma {:induction false} EveryClosingRepainted(daemon: Host, lower: string -> string, size: Screen, events: seq<Event>,
                                                 steps: seq<D.Step>, k: nat)
    requires (D.StartInv(); D.Runs(D.START, steps))
    requires var end := Run(Init(daemon, lower, size), events);
             && !(end.exit.Some? && end.exit.value.ReconnectTo?)
             && D.RepaintRequests(steps, k) == RepaintMessages(end.trace)
    requires var dEnd := (D.StartInv(); D.Run(D.START, steps));
             k < |dEnd.conns| && dEnd.conns[k].phase.Idle?
    ensures var c := (D.StartInv(); D.Run(D.START, steps)).conns[k];
            |c.repoints| + c.invalidates == Closings(Run(Init(daemon, lower, size), events).trace) + c.overlayMoves
  {
    D.StartInv();
    InitScreen(daemon, lower, size);
    ScreenDiscipline(Init(daemon, lower, size), events);
    D.EveryRequestRepaintsOnce(D.START, steps);
    D.RequestsCounted(D.START, steps, k);
    var end, dEnd := Run(Init(daemon, lower, size), events), D.Run(D.START, steps);
    hide Run, OwnerOf, ScreenInv, D.Inv, D.Runs, D.Run;
    OneRepaintPerClosing(end.trace);
    MessagesCounted(end.trace);
    assert D.Rendered(dEnd.conns[k]);
  }

  // --- one event's acts ---

  lemma AddsOnly(s: Loop, e: Event)
    ensures s.trace <= Next(s, e).trace
  {
    hide Runs.After, RosterRowsOf, PickerRowsOf, AdHocOf, Pressed, Forwarded, CurrentIndex;
  }

  /** What one event adds to the trace. */
  function Added(s: Loop, e: Event): seq<Act>
    ensures Next(s, e).trace == s.trace + Added(s, e)
  {
    var next := Next(s, e);
    AddsOnly(s, e);
    next.trace[|s.trace|..]
  }

  // --- the picker inside ---

  /** The rosters rows are built from are assembled ones. */
  predicate FromClient(e: Event) {
    match e
    case OpenPicker(_, _, roster) => DistinctHosts(roster)
    case Stdin(_, roster, _) => DistinctHosts(roster)
    case _ => true
  }

  predicate SoundPicker(p: State, daemon: Host) {
    p.InRange() && Grouped(p.rows) && p.current == Some(daemon)
  }

  lemma AfterSound(p: State, e: Runs.Event, daemon: Host)
    requires SoundPicker(p, daemon) && Runs.FromRoster(e, Some(daemon))
    ensures SoundPicker(Runs.After(p, e), daemon)
  {
    hide Runs.After, Grouped, Runs.FromRoster;
    Runs.AfterInRange(p, e);
    Runs.AfterGrouped(p, e);
  }

  lemma AfterKey(p: State, b: byte)
    ensures Runs.After(p, Runs.Key(b)) == HandleKey(p, b).0
  {
  }

  lemma {:induction false} PressedSound(p: State, keys: seq<byte>, daemon: Host)
    requires SoundPicker(p, daemon)
    ensures SoundPicker(Pressed(p, keys).0, daemon)
    decreases |keys|
  {
    hide HandleKey, SoundPicker;
    if keys != [] {
      AfterKey(p, keys[0]);
      AfterSound(p, Runs.Key(keys[0]), daemon);
      PressedSound(HandleKey(p, keys[0]).0, keys[1..], daemon);
    }
  }

  predicate PickerInv(s: Loop) { s.picker.Some? ==> SoundPicker(s.picker.value.0, s.daemon) }

  lemma StartSound(rows: seq<Row>, daemon: Host, cursor: nat, lower: string -> string, names: seq<string>)
    requires Grouped(rows) && cursor <= |Matching(rows, lower, "")|
    ensures SoundPicker(Start(rows, Some(daemon), cursor, lower).(adhoc := names), daemon)
  {
  }

  lemma OpenedSound(s: Loop, entries: seq<SessionEntry>, session: string, roster: seq<R.RosterHost>)
    requires DistinctHosts(roster) && s.lower("") == ""
    ensures PickerInv(Opened(s, entries, session, roster))
  {
    hide Matching, SoundPicker, AdHocOf, Grouped, PickerRowsOf;
    var rows := PickerRowsOf(entries, s.daemon, roster);
    PickerRowsGrouped(entries, s.daemon, roster);
    Runs.EmptyFilterShowsAll(rows, s.lower, "");
    var at := CurrentIndex(rows, Some(s.daemon), session);
    StartSound(rows, s.daemon, if at.Some? then at.value else 0, s.lower, AdHocOf(roster, s.daemon));
  }

  lemma ChosenSound(s: Loop, p: State, session: string, o: Outcome, roster: seq<R.RosterHost>, reply: KillReply)
    requires SoundPicker(p, s.daemon) && DistinctHosts(roster) && s.exit == None
    ensures var next := Chosen(s, p, session, o, roster, reply);
            && PickerInv(next) && next.lower == s.lower && next.daemon == s.daemon
            && (next.exit.Some? && next.exit.value.ReconnectTo? ==> next.exit.value.name != "")
  {
    hide SoundPicker, Runs.After, RosterRowsOf;
    match o
    case Forget(_) =>
      RosterRowsFresh(roster, Some(s.daemon));
      AfterSound(p, Runs.Replaced(RosterRowsOf(roster, Some(s.daemon)).rows, AdHocOf(roster, s.daemon)), s.daemon);
    case Kill(host, name) => AfterSound(p, Runs.Removed(host, name), s.daemon);
    case _ =>
  }

  lemma NextSound(s: Loop, e: Event)
    requires PickerInv(s) && FromClient(e) && s.lower("") == ""
    requires s.exit.Some? && s.exit.value.ReconnectTo? ==> s.exit.value.name != ""
    ensures var next := Next(s, e);
            && PickerInv(next) && next.lower == s.lower && next.daemon == s.daemon
            && (next.exit.Some? && next.exit.value.ReconnectTo? ==> next.exit.value.name != "")
  {
    hide SoundPicker, Runs.After, PickerRowsOf, RosterRowsOf, Forwarded, Pressed, KeysIn, CurrentIndex;
    match e
    case OpenPicker(entries, session, roster) =>
      OpenedSound(s, entries, session, roster);
    case Stdin(chunk, roster, reply) =>
      if s.exit == None && s.picker.Some? {
        var (p, o) := Pressed(s.picker.value.0, KeysIn(chunk));
        PressedSound(s.picker.value.0, KeysIn(chunk), s.daemon);
        if o.Some? {
          ChosenSound(s, p, s.picker.value.1, o.value, roster, reply);
          hide Chosen;
        }
      }
    case Status(host, status) =>
      if s.picker.Some? {
        AfterSound(s.picker.value.0, Runs.Answered(ResolveStatus(host, status)), s.daemon);
      }
    case _ =>
  }

  /** Every picker the loop ever runs has its cursor in range and its rows grouped, is on the right
      daemon, and never asks to reconnect under an empty session name. */
  lemma {:induction false} PickersAreSound(s: Loop, events: seq<Event>)
    requires PickerInv(s) && s.lower("") == ""
    requires s.exit.Some? && s.exit.value.ReconnectTo? ==> s.exit.value.name != ""
    requires forall i :: 0 <= i < |events| ==> FromClient(events[i])
    ensures var end := Run(s, events);
            && PickerInv(end) && end.lower == s.lower && end.daemon == s.daemon
            && (end.exit.Some? && end.exit.value.ReconnectTo? ==> end.exit.value.name != "")
  {
    hide Next, PickerInv;
    if events != [] {
      PickersAreSound(s, events[..|events| - 1]);
      NextSound(Run(s, events[..|events| - 1]), events[|events| - 1]);
    }
  }

  // --- switching ---

  lemma SelectedIsListed(p: State)
    requires p.Selected().Some?
    ensures p.Selected().value in p.rows
  {
    var (lower, filter) := (p.lower, p.filter);
    FilterMember(p.rows, (r: Row) => Contains(lower(r.caption), lower(filter)), p.Selected().value);
  }

  /** Keys leave the rows alone, and one that switches names a listed session of the daemon. */
  lemma {:induction false} PressedSwitch(p: State, keys: seq<byte>)
    ensures var (p', o) := Pressed(p, keys);
            && p'.rows == p.rows && p'.current == p.current
            && (o.Some? && o.value.Switch? ==> exists r :: r in p.rows && IsCurrentSession(r, p.current, o.value.name))
    decreases |keys|
  {
    hide Matching;
    if keys != [] {
      var (next, o) := HandleKey(p, keys[0]);
      if o.Some? {
        Runs.KeyOutcome(p, keys[0], o.value);
        if o.value.Switch? {
          SelectedIsListed(p);
        }
      } else {
        PressedSwitch(next, keys[1..]);
      }
    }
  }

  lemma {:induction false} NoSwitchIn(events: seq<O.Event>)
    ensures forall a :: a in Notices(events) ==> a.ToDaemon? && a.message.Outer?
  {
    if events != [] {
      NoSwitchIn(events[1..]);
    }
  }

  /** A switch is asked for only while a picker is open, to a session listed on the attached daemon,
      and never to the session the picker was opened on. */
  lemma SwitchGoesElsewhere(s: Loop, e: Event, name: string)
    requires PickerInv(s) && ToDaemon(SwitchSession(name)) in Added(s, e)
    ensures s.picker.Some? && name != s.picker.value.1
    ensures exists r :: r in s.picker.value.0.rows && IsCurrentSession(r, Some(s.daemon), name)
  {
    hide Runs.After, RosterRowsOf, PickerRowsOf, AdHocOf, Pressed, CurrentIndex, Matching, Grouped;
    if e.Stdin? && s.picker.None? {
      NoSwitchIn(O.Scan(e.chunk).events);
    } else if e.Stdin? {
      PressedSwitch(s.picker.value.0, KeysIn(e.chunk));
    }
  }
}
