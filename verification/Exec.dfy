/** Running one command in a pane and waiting for it: the wait for the pane's count of finished
    commands to pass a baseline races the pane's child, a deadline and the client. */
module Exec {
  import opened Prelude

  /** The pane's screen as far as the wait looks at it; `counter` and `exit` are the number of
      finished commands and the exit payload of the last, both cleared by a full reset. */
  datatype Pane = Pane(counter: nat, exit: Option<int>, altScreen: bool, marked: bool, atPrompt: bool)

  datatype PaneEvent =
    | Finished(exit: Option<int>)
    | Reset
    | Redrawn(altScreen: bool, marked: bool, atPrompt: bool)

  datatype Event =
    | InPane(event: PaneEvent)
    | CheckReady
    | Inject(accepted: bool)
    | Tick
    | ChildExits
    | Deadline
    | Frame
    | ClientGone

  datatype Refusal = AltScreen | NoMarks | Busy | InputClosed | PaneReset | ChildExited | UnexpectedFrame

  datatype Reply = ExecDone(exit: Option<int>, timedOut: bool) | Refused(reason: Refusal)

  datatype Phase = Starting | Ready | Waiting | Replied | Abandoned

  /** `checked` is the pane as the preconditions found it, `log` what happened in it from then to
      the end. */
  datatype State = State(
    text: string, timeout: bool, pane: Pane,
    phase: Phase, checked: Option<Pane>, log: seq<PaneEvent>, injected: seq<string>, replies: seq<Reply>)

  function AfterEvent(p: Pane, e: PaneEvent): Pane {
    match e
    case Finished(exit) => p.(counter := p.counter + 1, exit := exit)
    case Reset => Pane(0, None, false, false, false)
    case Redrawn(alt, marked, atPrompt) => p.(altScreen := alt, marked := marked, atPrompt := atPrompt)
  }

  /** Which of the preconditions fails, in the order they are tested. */
  function Unready(p: Pane): Option<Refusal> {
    if p.altScreen then Some(AltScreen)
    else if !p.marked then Some(NoMarks)
    else if !p.atPrompt then Some(Busy)
    else None
  }

  function Answered(s: State, reply: Reply): State { s.(phase := Replied, replies := s.replies + [reply]) }

  function Baseline(s: State): nat
    requires s.checked.Some?
  {
    s.checked.value.counter
  }

  /** The check every way of waking makes first, with what it falls back to. */
  function Decided(s: State, otherwise: State): State
    requires s.checked.Some?
  {
    if s.pane.counter > Baseline(s) then Answered(s, ExecDone(s.pane.exit, false)) else otherwise
  }

  function Waken(s: State, e: Event): State
    requires s.checked.Some?
  {
    match e
    case Tick => Decided(s, if s.pane.counter < Baseline(s) then Answered(s, Refused(PaneReset)) else s)
    case ChildExits => Decided(s, Answered(s, Refused(ChildExited)))
    case Deadline => if s.timeout then Decided(s, Answered(s, ExecDone(None, true))) else s
    case Frame => Answered(s, Refused(UnexpectedFrame))
    case ClientGone => s.(phase := Abandoned)
    case _ => s
  }

  /** One event. An event the present phase does not listen for changes nothing but the pane. */
  function Next(s: State, e: Event): State {
    match e
    case InPane(event) =>
      s.(pane := AfterEvent(s.pane, event),
         log := if s.phase == Ready || s.phase == Waiting then s.log + [event] else s.log)
    case CheckReady =>
      if s.phase != Starting then s
      else if Unready(s.pane).Some? then Answered(s.(checked := Some(s.pane)), Refused(Unready(s.pane).value))
      else s.(phase := Ready, checked := Some(s.pane))
    case Inject(accepted) =>
      if s.phase != Ready then s
      else if accepted then s.(phase := Waiting, injected := s.injected + [s.text + "\r"])
      else Answered(s, Refused(InputClosed))
    case _ => if s.phase == Waiting && s.checked.Some? then Waken(s, e) else s
  }

  function Run(s: State, events: seq<Event>): State {
    if events == [] then s else Next(Run(s, events[..|events| - 1]), events[|events| - 1])
  }

  function Init(text: string, timeout: bool, pane: Pane): State {
    State(text, timeout, pane, Starting, None, [], [], [])
  }

  // --- reading the log ---

  function PaneAfter(p: Pane, log: seq<PaneEvent>): Pane {
    if log == [] then p else AfterEvent(PaneAfter(p, log[..|log| - 1]), log[|log| - 1])
  }

  function Completions(log: seq<PaneEvent>): nat {
    if log == [] then 0 else Completions(log[..|log| - 1]) + if log[|log| - 1].Finished? then 1 else 0
  }

  predicate WasReset(log: seq<PaneEvent>) { exists i :: 0 <= i < |log| && log[i] == Reset }

  function SinceReset(log: seq<PaneEvent>): nat {
    if log == [] || log[|log| - 1] == Reset then 0
    else SinceReset(log[..|log| - 1]) + if log[|log| - 1].Finished? then 1 else 0
  }

  /** `exit` is the payload of the last command finished in `log`. */
  predicate LastFinished(log: seq<PaneEvent>, exit: Option<int>) {
    exists i :: 0 <= i < |log| && log[i] == Finished(exit) &&
                forall j :: i < j < |log| ==> !log[j].Finished?
  }

  /** The commands finished since the baseline was read pass it: without a reset, any one does;
      after a reset, more than the baseline itself counted. */
  predicate Passes(baseline: nat, log: seq<PaneEvent>) {
    if WasReset(log) then SinceReset(log) > baseline else Completions(log) > 0
  }

  lemma {:induction false} CounterMeaning(p: Pane, log: seq<PaneEvent>)
    ensures PaneAfter(p, log).counter == if WasReset(log) then SinceReset(log) else p.counter + Completions(log)
    ensures SinceReset(log) <= Completions(log)
  {
    if log != [] {
      var front := log[..|log| - 1];
      CounterMeaning(p, front);
      assert forall i :: 0 <= i < |front| ==> front[i] == log[i];
      assert WasReset(front) ==> WasReset(log);
      assert log[|log| - 1] != Reset && WasReset(log) ==> WasReset(front);
    }
  }

  /** A counter past the baseline means the last exit payload is that of a command finished since. */
  lemma {:induction false} ExitMeaning(p: Pane, log: seq<PaneEvent>)
    requires PaneAfter(p, log).counter > p.counter
    ensures LastFinished(log, PaneAfter(p, log).exit)
  {
    if log != [] {
      var front, last := log[..|log| - 1], log[|log| - 1];
      if last.Redrawn? {
        ExitMeaning(p, front);
        var i :| 0 <= i < |front| && front[i] == Finished(PaneAfter(p, front).exit) &&
                 forall j :: i < j < |front| ==> !front[j].Finished?;
        assert log[i] == front[i];
        assert forall j :: i < j < |front| ==> log[j] == front[j];
      } else if last.Finished? {
        assert log[|log| - 1] == Finished(PaneAfter(p, log).exit);
      }
    }
  }

  // --- every run ---

  predicate PhaseHistory(s: State) {
    && (s.phase == Starting ==> s.checked == None && s.log == [])
    && (s.phase == Ready || s.phase == Waiting ==> s.checked.Some? && s.pane == PaneAfter(s.checked.value, s.log))
    && (s.phase == Ready || s.phase == Waiting || s.injected != [] ==>
          s.checked.Some? && !s.checked.value.altScreen && s.checked.value.marked && s.checked.value.atPrompt)
    && s.injected == (if s.phase == Starting || s.phase == Ready || s.injected == [] then [] else [s.text + "\r"])
    && (s.phase == Waiting ==> s.injected != [])
    && |s.replies| == (if s.phase == Replied then 1 else 0)
  }

  /** What a reply says about the pane's history since the baseline. */
  predicate Truthful(s: State, reply: Reply) {
    match reply
    case ExecDone(exit, false) =>
      && s.checked.Some? && s.injected != []
      && Completions(s.log) > 0 && Passes(Baseline(s), s.log) && LastFinished(s.log, exit)
    case ExecDone(exit, true) =>
      && s.timeout && exit == None && s.checked.Some? && s.injected != []
      && !Passes(Baseline(s), s.log)
    case Refused(ChildExited) => s.checked.Some? && s.injected != [] && !Passes(Baseline(s), s.log)
    case Refused(PaneReset) =>
      s.checked.Some? && s.injected != [] && WasReset(s.log) && SinceReset(s.log) < Baseline(s)
    case Refused(UnexpectedFrame) => s.injected != []
    case Refused(AltScreen) => s.injected == [] && s.checked.Some? && s.checked.value.altScreen
    case Refused(NoMarks) => s.injected == [] && s.checked.Some? && !s.checked.value.altScreen && !s.checked.value.marked
    case Refused(Busy) =>
      s.injected == [] && s.checked.Some? && !s.checked.value.altScreen && s.checked.value.marked && !s.checked.value.atPrompt
    case Refused(InputClosed) => s.injected == []
  }

  predicate Safe(s: State) {
    PhaseHistory(s) && forall i :: 0 <= i < |s.replies| ==> Truthful(s, s.replies[i])
  }

  lemma LogSnoc(p: Pane, log: seq<PaneEvent>, e: PaneEvent)
    ensures PaneAfter(p, log + [e]) == AfterEvent(PaneAfter(p, log), e)
  {
    assert (log + [e])[..|log|] == log;
  }

  lemma PassesIff(s: State)
    requires PhaseHistory(s) && s.phase == Waiting
    ensures s.pane.counter > Baseline(s) <==> Passes(Baseline(s), s.log)
    ensures s.pane.counter < Baseline(s) ==> WasReset(s.log) && SinceReset(s.log) < Baseline(s)
    ensures s.pane.counter > Baseline(s) ==> Completions(s.log) > 0 && LastFinished(s.log, s.pane.exit)
  {
    CounterMeaning(s.checked.value, s.log);
    if s.pane.counter > Baseline(s) {
      ExitMeaning(s.checked.value, s.log);
    }
  }

  lemma NothingYet(p: Pane)
    ensures PaneAfter(p, []) == p
  {
  }

  lemma PaneSafe(s: State, e: PaneEvent)
    requires Safe(s)
    ensures Safe(Next(s, InPane(e)))
  {
    hide Completions, SinceReset, WasReset, LastFinished, Passes, AfterEvent, PaneAfter;
    if s.checked.Some? {
      LogSnoc(s.checked.value, s.log, e);
    } else {
      NothingYet(s.pane);
    }
  }

  lemma WakenSafe(s: State, e: Event)
    requires Safe(s) && s.phase == Waiting
    ensures Safe(Waken(s, e))
  {
    PassesIff(s);
    hide Completions, SinceReset, WasReset, LastFinished, Passes, PaneAfter;
  }

  lemma NextSafe(s: State, e: Event)
    requires Safe(s)
    ensures Safe(Next(s, e)) && Next(s, e).text == s.text && Next(s, e).timeout == s.timeout
  {
    hide Completions, SinceReset, WasReset, LastFinished, Passes, AfterEvent;
    if e.InPane? {
      PaneSafe(s, e.event);
    } else if s.phase == Waiting {
      WakenSafe(s, e);
    } else {
      NothingYet(s.pane);
      hide PaneAfter;
    }
  }

  /** In every run, resets and all: at most one reply; the text injected at most once, whole, and
      only into a pane found ready; no reply to a client that left; and every reply truthful: an
      outcome only for a command finished after the baseline, with that command's exit payload; a
      timeout or a dead child only while the count had not passed the baseline; a reset only after
      a reset. */
  lemma {:induction false} EveryRunSafe(text: string, timeout: bool, pane: Pane, events: seq<Event>)
    ensures var s := Run(Init(text, timeout, pane), events);
            && Safe(s)
            && |s.replies| <= 1
            && (s.injected == [] || s.injected == [text + "\r"])
            && (s.injected != [] ==>
                  s.checked.Some? && !s.checked.value.altScreen && s.checked.value.marked && s.checked.value.atPrompt)
            && (s.phase == Abandoned ==> s.replies == [])
            && s.text == text && s.timeout == timeout
  {
    hide Next, Truthful, PaneAfter;
    if events != [] {
      EveryRunSafe(text, timeout, pane, events[..|events| - 1]);
      NextSafe(Run(Init(text, timeout, pane), events[..|events| - 1]), events[|events| - 1]);
    }
  }

  /** Once over, over: later events change neither the reply nor what was injected. */
  lemma {:induction false} OverIsOver(s: State, events: seq<Event>)
    requires s.phase == Replied || s.phase == Abandoned
    ensures var end := Run(s, events);
            end.phase == s.phase && end.replies == s.replies && end.injected == s.injected && end.log == s.log
  {
    if events != [] {
      OverIsOver(s, events[..|events| - 1]);
    }
  }

  // --- what every event does ---

  function PaneEvents(events: seq<Event>): seq<PaneEvent> {
    if events == [] then []
    else
      var last := events[|events| - 1];
      PaneEvents(events[..|events| - 1]) + if last.InPane? then [last.event] else []
  }

  /** The pane goes its own way, whatever the wait does. */
  lemma {:induction false} PaneUnaffected(text: string, timeout: bool, pane: Pane, events: seq<Event>)
    ensures Run(Init(text, timeout, pane), events).pane == PaneAfter(pane, PaneEvents(events))
  {
    hide AfterEvent;
    if events != [] {
      var front, last := events[..|events| - 1], events[|events| - 1];
      PaneUnaffected(text, timeout, pane, front);
      if last.InPane? {
        LogSnoc(pane, PaneEvents(front), last.event);
      } else {
        assert PaneEvents(front) + [] == PaneEvents(front);
      }
    }
  }

  /** Event `i` gave the pane its present looks: a redraw, or a reset, which leaves a bare screen. */
  predicate LastDrawn(log: seq<PaneEvent>, i: nat, alt: bool, marked: bool, atPrompt: bool) {
    && i < |log|
    && (log[i] == Redrawn(alt, marked, atPrompt) || (log[i] == Reset && !alt && !marked && !atPrompt))
    && forall j :: i < j < |log| ==> log[j].Finished?
  }

  predicate LooksLike(p: Pane, log: seq<PaneEvent>, alt: bool, marked: bool, atPrompt: bool) {
    || (exists i :: 0 <= i < |log| && LastDrawn(log, i, alt, marked, atPrompt))
    || ((forall i :: 0 <= i < |log| ==> log[i].Finished?)
        && alt == p.altScreen && marked == p.marked && atPrompt == p.atPrompt)
  }

  lemma {:induction false} LooksMeaning(p: Pane, log: seq<PaneEvent>)
    ensures var q := PaneAfter(p, log); LooksLike(p, log, q.altScreen, q.marked, q.atPrompt)
  {
    if log != [] {
      var front, last := log[..|log| - 1], log[|log| - 1];
      var q := PaneAfter(p, log);
      LooksMeaning(p, front);
      if !last.Finished? {
        assert LastDrawn(log, |log| - 1, q.altScreen, q.marked, q.atPrompt);
      } else if i :| 0 <= i < |front| && LastDrawn(front, i, q.altScreen, q.marked, q.atPrompt) {
        assert LastDrawn(log, i, q.altScreen, q.marked, q.atPrompt);
      }
    }
  }

  lemma RunSnoc(s: State, events: seq<Event>, e: Event)
    ensures Run(s, events + [e]) == Next(Run(s, events), e)
  {
    assert (events + [e])[..|events|] == events;
  }

  /** Before the text is sent: the check refuses a full-screen program, a pane without prompt marks
      and a running command, tested in this order, and else reads the baseline; the text is then
      sent whole, or refused when the pane takes no more input. */
  lemma BeforeTheWait(text: string, timeout: bool, pane: Pane, events: seq<Event>, e: Event)
    ensures var s, next := Run(Init(text, timeout, pane), events), Run(Init(text, timeout, pane), events + [e]);
            var now := PaneAfter(pane, PaneEvents(events));
            && (s.phase == Starting ==>
                  && next.injected == []
                  && (e == CheckReady ==>
                        if now.altScreen then next.replies == [Refused(AltScreen)]
                        else if !now.marked then next.replies == [Refused(NoMarks)]
                        else if !now.atPrompt then next.replies == [Refused(Busy)]
                        else next.phase == Ready && next.replies == [] && next.checked == Some(now) && next.log == [])
                  && (e != CheckReady ==> next.phase == Starting && next.replies == []))
            && (s.phase == Ready ==>
                  && (e == Inject(true) ==> next.phase == Waiting && next.injected == [text + "\r"] && next.replies == [])
                  && (e == Inject(false) ==> next.replies == [Refused(InputClosed)] && next.injected == [])
                  && (!e.Inject? ==> next.phase == Ready && next.replies == [] && next.injected == []))
  {
    RunSnoc(Init(text, timeout, pane), events, e);
    EveryRunSafe(text, timeout, pane, events);
    PaneUnaffected(text, timeout, pane, events);
    hide Run, PaneAfter, AfterEvent;
  }

  /** The one reply sent is an outcome: the exit payload of the last command finished. */
  predicate RepliesOutcome(s: State) {
    |s.replies| == 1 && s.replies[0].ExecDone? && !s.replies[0].timedOut && LastFinished(s.log, s.replies[0].exit)
  }

  /** What every event does to a wait, in terms of what has happened in the pane since the baseline. */
  lemma WhileWaiting(text: string, timeout: bool, pane: Pane, events: seq<Event>, e: Event)
    requires Run(Init(text, timeout, pane), events).phase == Waiting
    ensures var s, next := Run(Init(text, timeout, pane), events), Run(Init(text, timeout, pane), events + [e]);
            && s.checked.Some? && s.replies == []
            && var passes := Passes(s.checked.value.counter, s.log);
            && var behind := WasReset(s.log) && SinceReset(s.log) < s.checked.value.counter;
            && next.injected == s.injected
            && next.log == (if e.InPane? then s.log + [e.event] else s.log)
            && match e
               case Tick =>
                 if passes then RepliesOutcome(next)
                 else if behind then next.replies == [Refused(PaneReset)]
                 else next.phase == Waiting && next.replies == []
               case ChildExits => if passes then RepliesOutcome(next) else next.replies == [Refused(ChildExited)]
               case Deadline =>
                 if !timeout then next.phase == Waiting && next.replies == []
                 else if passes then RepliesOutcome(next) else next.replies == [ExecDone(None, true)]
               case Frame => next.replies == [Refused(UnexpectedFrame)]
               case ClientGone => next.phase == Abandoned && next.replies == []
               case _ => next.phase == Waiting && next.replies == []
  {
    var s := Run(Init(text, timeout, pane), events);
    RunSnoc(Init(text, timeout, pane), events, e);
    EveryRunSafe(text, timeout, pane, events);
    PassesIff(s);
    CounterMeaning(s.checked.value, s.log);
    hide Run, PaneAfter, AfterEvent, Completions, SinceReset, WasReset, LastFinished, Passes;
  }

  lemma {:induction false} RunConcat(s: State, a: seq<Event>, b: seq<Event>)
    ensures Run(s, a + b) == Run(Run(s, a), b)
  {
    hide Next;
    if b == [] {
      assert a + b == a;
    } else {
      var n := |b| - 1;
      assert (a + b)[..|a| + n] == a + b[..n];
      RunConcat(s, a, b[..n]);
    }
  }

  /** A wait ends: once the child has exited, a set deadline has passed or an unexpected message has
      come, there is exactly one reply, whatever comes after; once the client has gone, none ever. */
  lemma EveryWaitEnds(text: string, timeout: bool, pane: Pane, before: seq<Event>, e: Event, after: seq<Event>)
    requires Run(Init(text, timeout, pane), before).phase == Waiting
    requires e == ChildExits || (e == Deadline && timeout) || e == Frame || e == ClientGone
    ensures var end := Run(Init(text, timeout, pane), before + [e] + after);
            |end.replies| == (if e == ClientGone then 0 else 1) && end.phase == (if e == ClientGone then Abandoned else Replied)
  {
    WhileWaiting(text, timeout, pane, before, e);
    EveryRunSafe(text, timeout, pane, before + [e]);
    RunConcat(Init(text, timeout, pane), before + [e], after);
    OverIsOver(Run(Init(text, timeout, pane), before + [e]), after);
    hide Run, Passes, WasReset, SinceReset, LastFinished;
  }

  /** A finished command is reported at the next wake-up, whichever it is, exactly if the count
      passes the baseline: always without a reset, after one only if as many more commands finish. */
  lemma ReportedIff(text: string, timeout: bool, pane: Pane, events: seq<Event>, e: Event)
    requires e == Tick || e == ChildExits || (e == Deadline && timeout)
    requires Run(Init(text, timeout, pane), events).phase == Waiting
    ensures var s := Run(Init(text, timeout, pane), events);
            && s.checked.Some?
            && ((exists exit :: Next(s, e).replies == [ExecDone(exit, false)]) <==> Passes(Baseline(s), s.log))
            && (!WasReset(s.log) && Completions(s.log) > 0 ==>
                  Next(s, e).replies == [ExecDone(s.pane.exit, false)] && LastFinished(s.log, s.pane.exit))
  {
    var s := Run(Init(text, timeout, pane), events);
    EveryRunSafe(text, timeout, pane, events);
    PassesIff(s);
    hide Completions, SinceReset, WasReset, LastFinished, Run;
    var next := Next(s, e).replies;
    if s.pane.counter > Baseline(s) {
      assert next == [ExecDone(s.pane.exit, false)];
    } else {
      assert next == [] || next[0] == Refused(PaneReset) || next[0] == Refused(ChildExited) || next[0] == ExecDone(None, true);
    }
  }

  /** A command that finishes after a reset can go unreported: here one had finished before the
      baseline, and the deadline answers instead. */
  lemma ResetHidesCompletion()
    ensures var pane := Pane(1, Some(0), false, true, true);
            var events := [CheckReady, Inject(true), InPane(Reset), InPane(Finished(Some(7))), Tick, Deadline];
            var s := Run(Init("make", true, pane), events);
            Completions(s.log) == 1 && s.replies == [ExecDone(None, true)]
  {
    var pane := Pane(1, Some(0), false, true, true);
    var s0 := Init("make", true, pane);
    var e1: seq<Event> := [CheckReady];
    var e2 := e1 + [Inject(true)];
    var e3 := e2 + [InPane(Reset)];
    var e4 := e3 + [InPane(Finished(Some(7)))];
    var e5 := e4 + [Tick];
    assert Run(s0, []) == s0;
    hide Run;
    assert [] + e1 == e1;
    RunSnoc(s0, [], CheckReady);
    RunSnoc(s0, e1, Inject(true));
    RunSnoc(s0, e2, InPane(Reset));
    RunSnoc(s0, e3, InPane(Finished(Some(7))));
    RunSnoc(s0, e4, Tick);
    RunSnoc(s0, e5, Deadline);
    assert e5 + [Deadline] == [CheckReady, Inject(true), InPane(Reset), InPane(Finished(Some(7))), Tick, Deadline];
    var log: seq<PaneEvent> := [Reset, Finished(Some(7))];
    assert log[..1] == [Reset] && [Reset][..0] == [];
    assert Run(s0, e4).log == log;
  }

  // --- the loop ---

  /** The wait: wakes as events come in, until one ends it. `used` events were consumed. */
  method Wait(s: State, events: seq<Event>) returns (reply: Option<Reply>, gone: bool, used: nat)
    requires s.phase == Waiting && s.checked.Some? && s.replies == []
    ensures used <= |events|
    ensures var end := Run(s, events[..used]);
            && (reply.Some? ==> end.phase == Replied && end.replies == [reply.value])
            && (gone ==> end.phase == Abandoned && reply == None)
            && (reply == None && !gone ==> end.phase == Waiting && used == |events|)
  {
    var baseline := s.checked.value.counter;
    var pane := s.pane;
    ghost var now := s;
    reply, gone, used := None, false, 0;
    while used < |events|
      invariant used <= |events|
      invariant now == Run(s, events[..used]) && now.pane == pane
      invariant now.phase == Waiting && now.checked == s.checked && now.replies == [] && now.timeout == s.timeout
      invariant reply == None && !gone
    {
      var e := events[used];
      assert events[..used + 1] == events[..used] + [e];
      RunSnoc(s, events[..used], e);
      now := Next(now, e);
      used := used + 1;
      match e {
        case InPane(event) =>
          pane := AfterEvent(pane, event);
        case Tick =>
          if pane.counter > baseline {
            reply := Some(ExecDone(pane.exit, false));
            return;
          } else if pane.counter < baseline {
            reply := Some(Refused(PaneReset));
            return;
          }
        case ChildExits =>
          reply := Some(if pane.counter > baseline then ExecDone(pane.exit, false) else Refused(ChildExited));
          return;
        case Deadline =>
          if s.timeout {
            reply := Some(if pane.counter > baseline then ExecDone(pane.exit, false) else ExecDone(None, true));
            return;
          }
        case Frame =>
          reply := Some(Refused(UnexpectedFrame));
          return;
        case ClientGone =>
          gone := true;
          return;
        case CheckReady =>
        case Inject(_) =>
      }
    }
  }
}
