/** What holds over every run of the picker: any mix of key bytes and roster edits. */
module PickerRuns {
  import opened Prelude
  import opened Roster
  import opened PickerRows
  import opened Streaming
  import opened RowAssembly
  import opened Picker

  datatype Event =
    | Key(byte: byte)
    | Answered(answer: Answer)
    | Removed(host: Host, name: string)
    | Replaced(others: seq<Row>, adhoc: seq<string>)

  function After(s: State, e: Event): State {
    match e
    case Key(b) => HandleKey(s, b).0
    case Answered(a) => s.(rows := Resolved(s.rows, a.host, a.status, a.sessions)).Clamped()
    case Removed(host, name) => s.(rows := WithoutSession(s.rows, host, name)).Clamped()
    case Replaced(others, names) => s.(rows := OthersReplaced(s.rows, s.current, others), adhoc := names).Clamped()
  }

  function Emitted(s: State, e: Event): Option<Outcome> {
    if e.Key? then HandleKey(s, e.byte).1 else None
  }

  function Run(s: State, events: seq<Event>): State {
    if events == [] then s else After(Run(s, events[..|events| - 1]), events[|events| - 1])
  }

  // --- cursor and grouping ---

  lemma AfterInRange(s: State, e: Event)
    requires s.InRange()
    ensures After(s, e).InRange() && After(s, e).current == s.current && After(s, e).lower == s.lower
  {
    hide Matching;
  }

  /** Whatever is typed and whatever streams in, the cursor stays on a visible row or on the slot,
      and nothing is selected exactly on the slot. */
  lemma {:induction false} CursorInRange(s: State, events: seq<Event>)
    requires s.InRange()
    ensures Run(s, events).InRange()
    ensures Run(s, events).Selected() == None <==> Run(s, events).OnSlot()
    ensures Run(s, events).current == s.current
  {
    hide After;
    if events != [] {
      CursorInRange(s, events[..|events| - 1]);
      AfterInRange(Run(s, events[..|events| - 1]), events[|events| - 1]);
    }
  }

  /** Roster edits as the client makes them: answers carry their own host's sessions, and
      replacement rows are a fresh assembly without the attached daemon. */
  ghost predicate FromRoster(e: Event, current: Option<Host>) {
    match e
    case Answered(a) => Tagged(a)
    case Replaced(others, _) => Fresh(others, current)
    case _ => true
  }

  lemma AfterGrouped(s: State, e: Event)
    requires Grouped(s.rows) && FromRoster(e, s.current)
    ensures Grouped(After(s, e).rows) && After(s, e).current == s.current
  {
    hide Grouped, Matching, Resolved, WithoutSession, OthersReplaced, Fresh;
    match e
    case Key(_) =>
    case Answered(a) => ResolvedGrouped(s.rows, a);
    case Removed(host, name) => WithoutSessionGrouped(s.rows, host, name);
    case Replaced(others, _) => OthersReplacedGrouped(s.rows, s.current, others);
  }

  /** From the assembled list onward the rows stay grouped: one anchor per host, each session in
      the run right behind its own anchor. */
  lemma {:induction false} RowsStayGrouped(s: State, events: seq<Event>)
    requires Grouped(s.rows)
    requires forall i :: 0 <= i < |events| ==> FromRoster(events[i], s.current)
    ensures Grouped(Run(s, events).rows) && Run(s, events).current == s.current
  {
    hide After, Grouped, FromRoster;
    if events != [] {
      RowsStayGrouped(s, events[..|events| - 1]);
      AfterGrouped(Run(s, events[..|events| - 1]), events[|events| - 1]);
    }
  }

  // --- where an outcome comes from ---

  /** The line typed by a stretch of events, roster edits aside. */
  function Typed(events: seq<Event>): string {
    if events == [] then ""
    else
      var last, line := events[|events| - 1], Typed(events[..|events| - 1]);
      if last.Key? then Edited(line, last.byte) else line
  }

  /** Enter, Escape and the arrows leave the filter mode. */
  predicate EndsFiltering(e: Event) {
    e.Key? && (e.byte == ENTER || e.byte == ESC || e.byte == 0x0e || e.byte == 0x0a || e.byte == 0x10 || e.byte == 0x0b)
  }

  /** Event `j` ends the prompt opened at `i`: Escape, or Enter with some text typed. */
  predicate EndsLine(events: seq<Event>, i: nat, j: nat)
    requires i < j < |events|
  {
    events[j] == Key(ESC) || (events[j] == Key(ENTER) && Typed(events[i + 1..j]) != "")
  }

  /** `y`, `n` and Escape answer the question. */
  predicate EndsQuestion(e: Event) { e == Key(KEY_Y) || e == Key(KEY_N) || e == Key(ESC) }

  predicate FilterLasts(events: seq<Event>, i: nat) { forall j :: i < j < |events| ==> !EndsFiltering(events[j]) }

  predicate LineLasts(events: seq<Event>, i: nat) { forall j :: i < j < |events| ==> !EndsLine(events, i, j) }

  predicate QuestionLasts(events: seq<Event>, i: nat) { forall j :: i < j < |events| ==> !EndsQuestion(events[j]) }

  /** Event `i` opened the mode `m`, which nothing has closed since. */
  predicate OpenedAt(s: State, events: seq<Event>, i: nat, m: Mode) {
    && i < |events|
    && var at := Run(s, events[..i]);
    && at.mode == Navigate
    && match m
       case Filtering => events[i] == Key(SLASH) && FilterLasts(events, i)
       case Prompting(host, buf) =>
         && events[i] == Key(KEY_N)
         && at.Selected().Some? && IsAnchor(at.Selected().value, host)
         && buf == Typed(events[i + 1..]) && LineLasts(events, i)
       case PromptingHost(buf) =>
         && events[i] == Key(ENTER) && at.OnSlot()
         && buf == Typed(events[i + 1..]) && LineLasts(events, i)
       case ConfirmKill(host, name) =>
         && events[i] == Key(KEY_K)
         && at.Selected().Some? && IsSessionOf(at.Selected().value, host) && at.Selected().value.name == name
         && QuestionLasts(events, i)
       case _ => false
  }

  /** The mode after one event. */
  predicate ModeAfter(s: State, e: Event, m: Mode) {
    match s.mode
    case Navigate =>
      if e == Key(SLASH) then m == Filtering
      else if e == Key(ENTER) && s.OnSlot() then m == PromptingHost("")
      else if e == Key(KEY_N) && s.Selected().Some? && s.Selected().value.kind == HostRow then
        m == Prompting(s.Selected().value.host, "")
      else if e == Key(KEY_K) && s.Selected().Some? && s.Selected().value.kind == SessionRow then
        m == ConfirmKill(s.Selected().value.host, s.Selected().value.name)
      else m == Navigate
    case Filtering => m == if EndsFiltering(e) then Navigate else Filtering
    case Prompting(host, buf) =>
      m == if e == Key(ESC) || (e == Key(ENTER) && buf != "") then Navigate
           else Prompting(host, if e.Key? then Edited(buf, e.byte) else buf)
    case PromptingHost(buf) =>
      m == if e == Key(ESC) || (e == Key(ENTER) && buf != "") then Navigate
           else PromptingHost(if e.Key? then Edited(buf, e.byte) else buf)
    case ConfirmKill(host, name) =>
      m == if EndsQuestion(e) then Navigate else s.mode
  }

  lemma ModeStep(s: State, e: Event)
    ensures ModeAfter(s, e, After(s, e).mode)
  {
    hide Matching, Resolved, WithoutSession, OthersReplaced;
  }

  lemma RunSnoc(s: State, events: seq<Event>)
    requires events != []
    ensures Run(s, events) == After(Run(s, events[..|events| - 1]), events[|events| - 1])
  {
  }

  /** The text a mode holds, replaced. */
  function Holding(m: Mode, text: string): Mode {
    match m
    case Prompting(host, _) => Prompting(host, text)
    case PromptingHost(_) => PromptingHost(text)
    case _ => m
  }

  lemma {:induction false} OpenedByLast(s: State, events: seq<Event>, m: Mode)
    requires events != [] && m != Navigate
    ensures var n := |events| - 1; var at := Run(s, events[..n]);
            at.mode == Navigate ==> (OpenedAt(s, events, n, m) <==> ModeAfter(at, events[n], m))
  {
    hide Run, Matching;
    assert events[|events|..] == [];
  }

  lemma {:induction false} LastsSnoc(events: seq<Event>, i: nat)
    requires i + 1 < |events|
    ensures var n := |events| - 1;
            && (FilterLasts(events, i) <==> FilterLasts(events[..n], i) && !EndsFiltering(events[n]))
            && (QuestionLasts(events, i) <==> QuestionLasts(events[..n], i) && !EndsQuestion(events[n]))
  {
    hide EndsFiltering, EndsQuestion;
    var n := |events| - 1;
    assert forall j :: 0 <= j < n ==> events[..n][j] == events[j];
  }

  lemma {:induction false} LineLastsSnoc(events: seq<Event>, i: nat)
    requires i + 1 < |events|
    ensures var n := |events| - 1;
            LineLasts(events, i) <==>
              LineLasts(events[..n], i)
              && !(events[n] == Key(ESC) || (events[n] == Key(ENTER) && Typed(events[..n][i + 1..]) != ""))
  {
    hide Typed;
    var n := |events| - 1;
    var front := events[..n];
    assert events[i + 1..n] == front[i + 1..];
    forall j | i < j < n
      ensures EndsLine(events, i, j) <==> EndsLine(front, i, j)
    {
      assert events[i + 1..j] == front[i + 1..j] && front[j] == events[j];
    }
    assert EndsLine(events, i, n) <==>
           events[n] == Key(ESC) || (events[n] == Key(ENTER) && Typed(front[i + 1..]) != "");
    hide EndsLine;
  }

  lemma {:induction false} OpenedBefore(s: State, events: seq<Event>, i: nat, m: Mode)
    requires i + 1 < |events|
    ensures var n := |events| - 1; var front := events[..n];
            var prior := Holding(m, Typed(front[i + 1..]));
            OpenedAt(s, events, i, m) <==>
              OpenedAt(s, front, i, prior) && m != Navigate
              && match m
                 case Filtering => !EndsFiltering(events[n])
                 case ConfirmKill(_, _) => !EndsQuestion(events[n])
                 case _ =>
                   && !(events[n] == Key(ESC) || (events[n] == Key(ENTER) && Typed(front[i + 1..]) != ""))
                   && Holding(m, Typed(events[i + 1..])) == m
  {
    LastsSnoc(events, i);
    LineLastsSnoc(events, i);
    assert events[..|events| - 1][..i] == events[..i];
    hide Run, Matching, EndsFiltering, EndsQuestion, Typed, FilterLasts, LineLasts, QuestionLasts;
  }

  lemma TypedNext(events: seq<Event>, i: nat)
    requires i + 1 < |events|
    ensures var n := |events| - 1;
            Typed(events[i + 1..]) ==
            if events[n].Key? then Edited(Typed(events[..n][i + 1..]), events[n].byte) else Typed(events[..n][i + 1..])
  {
    var n := |events| - 1;
    assert events[i + 1..][..n - i - 1] == events[..n][i + 1..];
  }

  lemma OpenedByLastMode(s: State, events: seq<Event>, m: Mode)
    requires events != [] && m != Navigate && OpenedAt(s, events, |events| - 1, m)
    requires var at, e := Run(s, events[..|events| - 1]), events[|events| - 1];
             ModeAfter(at, e, After(at, e).mode)
    ensures After(Run(s, events[..|events| - 1]), events[|events| - 1]).mode == m
  {
    hide After, Run, Matching;
    OpenedByLast(s, events, m);
  }

  lemma StaysAs(at: State, e: Event, prior: Mode, m: Mode, before: string, line: string)
    requires at.mode == prior && prior == Holding(m, before) && m != Navigate && Holding(m, line) == m
    requires line == if e.Key? then Edited(before, e.byte) else before
    requires match m
             case Filtering => !EndsFiltering(e)
             case ConfirmKill(_, _) => !EndsQuestion(e)
             case _ => !(e == Key(ESC) || (e == Key(ENTER) && before != ""))
    requires ModeAfter(at, e, After(at, e).mode)
    ensures After(at, e).mode == m
  {
    hide After, Matching, EndsFiltering;
  }

  lemma {:induction false} OpenedMeans(s: State, events: seq<Event>, i: nat, m: Mode)
    requires i < |events| && OpenedAt(s, events, i, m) && m != Navigate
    ensures Run(s, events).mode == m
    decreases |events|
  {
    hide After, OpenedAt, Run, ModeAfter, Matching;
    var n := |events| - 1;
    var front := events[..n];
    RunSnoc(s, events);
    ModeStep(Run(s, front), events[n]);
    if i == n {
      OpenedByLastMode(s, events, m);
    } else {
      OpenedBefore(s, events, i, m);
      var prior := Holding(m, Typed(front[i + 1..]));
      OpenedMeans(s, front, i, prior);
      TypedNext(events, i);
      StaysAs(Run(s, front), events[n], prior, m, Typed(front[i + 1..]), Typed(events[i + 1..]));
    }
  }

  lemma RunNothing(s: State)
    ensures Run(s, []) == s
  {
  }

  lemma HoldsTyped(s: State, events: seq<Event>, i: nat, m: Mode)
    requires OpenedAt(s, events, i, m)
    ensures Holding(m, Typed(events[i + 1..])) == m
  {
    hide Run;
  }

  /** A mode that is kept was the same before, but for the text. */
  lemma KeptFrom(at: State, e: Event, m: Mode, before: string, line: string)
    requires at.mode != Navigate && m != Navigate && ModeAfter(at, e, m) && Holding(at.mode, before) == at.mode
    requires line == if e.Key? then Edited(before, e.byte) else before
    ensures at.mode == Holding(m, before) && Holding(m, line) == m
    ensures match m
            case Filtering => !EndsFiltering(e)
            case ConfirmKill(_, _) => !EndsQuestion(e)
            case _ => !(e == Key(ESC) || (e == Key(ENTER) && before != ""))
  {
    hide EndsFiltering, Matching;
  }

  lemma {:induction false} ModalOrigin(s: State, events: seq<Event>)
    requires s.mode == Navigate && Run(s, events).mode != Navigate
    ensures exists i :: 0 <= i < |events| && OpenedAt(s, events, i, Run(s, events).mode)
  {
    hide After, OpenedAt, Run, ModeAfter, Matching;
    RunNothing(s);
    if events != [] {
      var n, m := |events| - 1, Run(s, events).mode;
      var front := events[..n];
      RunSnoc(s, events);
      ModeStep(Run(s, front), events[n]);
      if Run(s, front).mode == Navigate {
        OpenedByLast(s, events, m);
        assert OpenedAt(s, events, n, m);
      } else {
        ModalOrigin(s, front);
        var i :| 0 <= i < |front| && OpenedAt(s, front, i, Run(s, front).mode);
        HoldsTyped(s, front, i, Run(s, front).mode);
        TypedNext(events, i);
        KeptFrom(Run(s, front), events[n], m, Typed(front[i + 1..]), Typed(events[i + 1..]));
        OpenedBefore(s, events, i, m);
        assert OpenedAt(s, events, i, m);
      }
    }
  }

  /** The picker is in a mode exactly if one key on one row (or on the slot) opened it and nothing
      has closed it since: a prompt names that row for good, whatever the roster does meanwhile, and
      holds exactly the text typed since. */
  lemma {:induction false} ModeIff(s: State, events: seq<Event>, m: Mode)
    requires s.mode == Navigate && m != Navigate
    ensures Run(s, events).mode == m <==> exists i :: 0 <= i < |events| && OpenedAt(s, events, i, m)
  {
    hide OpenedAt, Run;
    if i :| 0 <= i < |events| && OpenedAt(s, events, i, m) {
      OpenedMeans(s, events, i, m);
    }
    if Run(s, events).mode == m {
      ModalOrigin(s, events);
    }
  }

  /** The history behind every outcome. `events` has been handled, the key `b` comes next. */
  ghost predicate Explained(s: State, events: seq<Event>, b: byte, o: Outcome) {
    var now := Run(s, events);
    match o
    case Kill(host, name) =>
      b == KEY_Y && exists i :: 0 <= i < |events| && OpenedAt(s, events, i, ConfirmKill(host, name))
    case New(host, name, install) =>
      && b == ENTER && name != "" && install == now.install
      && exists i :: 0 <= i < |events| && OpenedAt(s, events, i, Prompting(host, name))
    case Reconnect(host, name, install) =>
      && b == ENTER && install == now.install
      && if now.mode == Navigate then
           && now.Selected().Some? && now.Selected().value.host == host && Some(host) != s.current
           && name == (if now.Selected().value.kind == SessionRow then now.Selected().value.name else "")
         else
           && host.Remote? && host.name != "" && name == ""
           && exists i :: 0 <= i < |events| && OpenedAt(s, events, i, PromptingHost(host.name))
    case Switch(name) =>
      && b == ENTER && now.mode == Navigate
      && now.Selected().Some? && IsCurrentSession(now.Selected().value, s.current, name)
    case Cancel =>
      && now.mode == Navigate
      && (b == ESC ||
          (b == ENTER && now.Selected().Some? && now.Selected().value.kind == HostRow
           && Some(now.Selected().value.host) == s.current))
    case Forget(remote) =>
      && b == KEY_X && now.mode == Navigate && remote in now.adhoc
      && now.Selected().Some? && IsAnchor(now.Selected().value, Remote(remote))
  }

  /** The key `b` calls for the outcome `o`. */
  predicate CallsFor(s: State, b: byte, o: Outcome) {
    match o
    case Kill(host, name) => b == KEY_Y && s.mode == ConfirmKill(host, name)
    case New(host, name, install) =>
      b == ENTER && s.mode == Prompting(host, name) && name != "" && install == s.install
    case Reconnect(host, name, install) =>
      && b == ENTER && install == s.install
      && ((s.mode == Navigate && Some(host) != s.current
           && s.Selected().Some? && s.Selected().value.host == host
           && name == (if s.Selected().value.kind == SessionRow then s.Selected().value.name else ""))
          || (host.Remote? && host.name != "" && name == "" && s.mode == PromptingHost(host.name)))
    case Switch(name) =>
      && b == ENTER && s.mode == Navigate
      && s.Selected().Some? && IsCurrentSession(s.Selected().value, s.current, name)
    case Cancel =>
      && s.mode == Navigate
      && (b == ESC ||
          (b == ENTER && s.Selected().Some? && s.Selected().value.kind == HostRow
           && Some(s.Selected().value.host) == s.current))
    case Forget(remote) =>
      && b == KEY_X && s.mode == Navigate && remote in s.adhoc
      && s.Selected().Some? && IsAnchor(s.Selected().value, Remote(remote))
  }

  lemma KeyOutcome(s: State, b: byte, o: Outcome)
    ensures HandleKey(s, b).1 == Some(o) <==> CallsFor(s, b, o)
  {
    hide Matching;
  }

  lemma AfterCurrent(s: State, e: Event)
    ensures After(s, e).current == s.current
  {
    hide Matching, Resolved, WithoutSession, OthersReplaced;
  }

  lemma {:induction false} RunCurrent(s: State, events: seq<Event>)
    ensures Run(s, events).current == s.current
  {
    hide After;
    if events != [] {
      RunCurrent(s, events[..|events| - 1]);
      AfterCurrent(Run(s, events[..|events| - 1]), events[|events| - 1]);
    }
  }

  /** An outcome occurs if and only if it has the history it should: a kill, exactly when `y` answers
      a confirmation that `k` opened on that very session row; a new session or a new host, exactly
      when Enter ends a prompt opened on that row (or on the slot) with exactly that text, not empty;
      on a selected row, Enter switches to a session of the attached daemon, cancels on its anchor
      and reconnects elsewhere; `x` forgets an ad-hoc host on its anchor; Escape cancels. */
  lemma {:induction false} OutcomeIff(s: State, events: seq<Event>, b: byte, o: Outcome)
    requires s.mode == Navigate
    ensures Emitted(Run(s, events), Key(b)) == Some(o) <==> Explained(s, events, b, o)
  {
    hide HandleKey, OpenedAt, Run;
    KeyOutcome(Run(s, events), b, o);
    RunCurrent(s, events);
    match o
    case Kill(host, name) => ModeIff(s, events, ConfirmKill(host, name));
    case New(host, name, _) => ModeIff(s, events, Prompting(host, name));
    case Reconnect(host, _, _) =>
      if host.Remote? {
        ModeIff(s, events, PromptingHost(host.name));
      }
    case _ =>
  }

  /** A picker attached to no daemon never switches, and only Escape cancels it. */
  lemma StandaloneNeverSwitches(s: State, events: seq<Event>, b: byte)
    requires s.current == None && Emitted(Run(s, events), Key(b)).Some?
    ensures var o := Emitted(Run(s, events), Key(b)).value;
            !o.Switch? && (o == Cancel ==> b == ESC && Run(s, events).mode == Navigate)
  {
    hide HandleKey, Run;
    KeyOutcome(Run(s, events), b, Emitted(Run(s, events), Key(b)).value);
    RunCurrent(s, events);
  }

  /** What a key does besides changing the mode and giving an outcome. */
  lemma {:induction false} KeyEffects(s: State, b: byte)
    requires s.InRange()
    ensures var t, last := After(s, Key(b)), |s.Visible()|;
            var moving := s.mode == Navigate || s.mode == Filtering;
            && t.rows == s.rows && t.adhoc == s.adhoc && t.current == s.current && t.lower == s.lower
            && (t.install != s.install <==> s.mode == Navigate && b == KEY_I)
            && t.filter == (if s.mode != Filtering then s.filter
                            else if b == ESC then ""
                            else if b == BACKSPACE then (if s.filter == "" then "" else s.filter[..|s.filter| - 1])
                            else if 0x20 <= b <= 0x7e then s.filter + [b as char]
                            else s.filter)
            && t.cursor == (if moving && (b == 0x0e || b == 0x0a) then (if s.cursor == last then 0 else s.cursor + 1)
                            else if moving && (b == 0x10 || b == 0x0b) then (if s.cursor == 0 then last else s.cursor - 1)
                            else if s.mode == Filtering && (b == ESC || b == BACKSPACE || 0x20 <= b <= 0x7e) then 0
                            else s.cursor)
  {
    hide Matching;
    OneStepModulo(s.cursor, |s.Visible()| + 1);
  }

  /** Roster edits leave everything but the rows alone; the cursor keeps its number unless that is
      beyond the slot now, and then it is the slot's. */
  lemma {:induction false} EditsKeepCursor(s: State, e: Event)
    requires !e.Key?
    ensures var t := After(s, e);
            && t == s.(rows := t.rows, adhoc := t.adhoc, cursor := t.cursor)
            && t.cursor == (if s.cursor <= |t.Visible()| then s.cursor else |t.Visible()|)
            && (!e.Replaced? ==> t.adhoc == s.adhoc) && (e.Replaced? ==> t.adhoc == e.adhoc)
  {
    hide Matching, Resolved, WithoutSession, OthersReplaced;
  }

  lemma {:induction false} TypedSnoc(events: seq<Event>, e: Event)
    ensures Typed(events + [e]) == if e.Key? then Edited(Typed(events), e.byte) else Typed(events)
  {
    assert (events + [e])[..|events|] == events;
  }

  /** Printable keys type themselves, Backspace takes the last character back, and other keys and
      roster edits type nothing. */
  lemma {:induction false} TypedMeaning(events: seq<Event>, e: Event, c: byte)
    ensures Typed([]) == ""
    ensures e.Key? && 0x20 <= e.byte <= 0x7e ==> Typed(events + [e]) == Typed(events) + [e.byte as char]
    ensures !e.Key? || e.byte < 0x20 || e.byte > 0x7f ==> Typed(events + [e]) == Typed(events)
    ensures 0x20 <= c <= 0x7e ==> Typed((events + [Key(c)]) + [Key(BACKSPACE)]) == Typed(events)
  {
    TypedSnoc(events, e);
    TypedSnoc(events, Key(c));
    TypedSnoc(events + [Key(c)], Key(BACKSPACE));
  }

  // --- moving and finding ---

  lemma {:induction false} RunConcat(s: State, a: seq<Event>, b: seq<Event>)
    ensures Run(s, a + b) == Run(Run(s, a), b)
  {
    hide After;
    if b == [] {
      assert a + b == a;
    } else {
      var n := |b| - 1;
      assert (a + b)[..|a| + n] == a + b[..n];
      RunConcat(s, a, b[..n]);
    }
  }

  lemma {:induction false} ArrowsStep(s: State)
    requires s.mode == Navigate && s.InRange()
    ensures var n := |s.Visible()|;
            && After(s, Key(0x0e)) == s.(cursor := if s.cursor == n then 0 else s.cursor + 1)
            && After(s, Key(0x10)) == s.(cursor := if s.cursor == 0 then n else s.cursor - 1)
  {
    hide Matching;
    OneStepModulo(s.cursor, |s.Visible()| + 1);
  }

  /** Pressing down walks the rows and then the slot, starting over from the first row: with at
      most one turn every position is reached, and a full turn comes back. */
  lemma {:induction false} DownWalks(s: State, k: nat)
    requires s.mode == Navigate && s.InRange() && k <= |s.Visible()| + 1
    ensures var at := s.cursor + k;
            Run(s, seq(k, _ => Key(0x0e))) ==
            s.(cursor := if at <= |s.Visible()| then at else at - (|s.Visible()| + 1))
  {
    hide Matching, After;
    if k > 0 {
      var keys: seq<Event> := seq(k, _ => Key(0x0e));
      assert keys[..k - 1] == seq(k - 1, _ => Key(0x0e));
      DownWalks(s, k - 1);
      ArrowsStep(Run(s, keys[..k - 1]));
    }
  }

  /** Up undoes down and down undoes up, the wrap-around included. */
  lemma {:induction false} UpUndoesDown(s: State)
    requires s.mode == Navigate && s.InRange()
    ensures After(After(s, Key(0x0e)), Key(0x10)) == s
    ensures After(After(s, Key(0x10)), Key(0x0e)) == s
  {
    hide Matching, After;
    ArrowsStep(s);
    ArrowsStep(After(s, Key(0x0e)));
    ArrowsStep(After(s, Key(0x10)));
  }

  function Keystrokes(text: seq<byte>): seq<Event> {
    if text == [] then [] else Keystrokes(text[..|text| - 1]) + [Key(text[|text| - 1])]
  }

  function Chars(text: seq<byte>): string {
    if text == [] then "" else Chars(text[..|text| - 1]) + [text[|text| - 1] as char]
  }

  lemma OneKeyFilters(s: State, b: byte)
    requires s.mode == Filtering && IsPrintable(b)
    ensures After(s, Key(b)) == s.(filter := s.filter + [b as char], cursor := 0)
  {
    hide Matching;
  }

  lemma {:induction false} TypingFilters(s: State, text: seq<byte>)
    requires s.mode == Filtering && text != [] && forall i :: 0 <= i < |text| ==> IsPrintable(text[i])
    ensures Run(s, Keystrokes(text)) == s.(filter := s.filter + Chars(text), cursor := 0)
  {
    hide After;
    var front, last := text[..|text| - 1], text[|text| - 1];
    assert Keystrokes(text)[..|Keystrokes(front)|] == Keystrokes(front);
    if front == [] {
      OneKeyFilters(s, last);
      assert Chars(text) == [last as char];
    } else {
      TypingFilters(s, front);
      OneKeyFilters(Run(s, Keystrokes(front)), last);
      ConcatAssociative(s.filter, Chars(front), [last as char]);
    }
  }

  lemma RunOne(s: State, e: Event)
    ensures Run(s, [e]) == After(s, e)
  {
    assert [e][..0] == [];
  }

  lemma FilterOpens(s: State)
    requires s.mode == Navigate
    ensures After(s, Key(SLASH)) == s.(mode := Filtering)
  {
    hide Matching;
  }

  lemma FilterCloses(s: State)
    requires s.mode == Filtering
    ensures After(s, Key(ENTER)) == s.(mode := Navigate)
  {
    hide Matching;
  }

  /** `/`, some text and Enter put the cursor on the first row that matches, if any does: the row
      Enter then opens. */
  lemma {:induction false} FindSelectsFirstMatch(s: State, text: seq<byte>)
    requires s.mode == Navigate && text != [] && forall i :: 0 <= i < |text| ==> IsPrintable(text[i])
    ensures var t := Run(s, [Key(SLASH)] + Keystrokes(text) + [Key(ENTER)]);
            var matches := Matching(s.rows, s.lower, s.filter + Chars(text));
            && t == s.(filter := s.filter + Chars(text), cursor := 0)
            && t.Visible() == matches
            && t.Selected() == (if matches == [] then None else Some(matches[0]))
  {
    hide Matching, After;
    var slash, enter: Event := Key(SLASH), Key(ENTER);
    RunConcat(s, [slash] + Keystrokes(text), [enter]);
    RunConcat(s, [slash], Keystrokes(text));
    RunOne(s, slash);
    FilterOpens(s);
    TypingFilters(After(s, slash), text);
    var t := Run(After(s, slash), Keystrokes(text));
    RunOne(t, enter);
    FilterCloses(t);
  }

  /** Backspace takes back the last character typed. */
  lemma {:induction false} BackspaceTakesBack(s: State, b: byte)
    requires s.mode == Filtering && IsPrintable(b)
    ensures Run(s, [Key(b), Key(BACKSPACE)]) == s.(cursor := 0)
  {
    hide Matching;
    var typed, back: Event := Key(b), Key(BACKSPACE);
    RunConcat(s, [typed], [back]);
    assert [typed] + [back] == [typed, back];
    RunOne(s, typed);
    RunOne(After(s, typed), back);
    assert (s.filter + [b as char])[..|s.filter|] == s.filter;
  }

  lemma {:induction false} ContainsIff(s: string, part: string)
    ensures Contains(s, part) <==> exists i :: 0 <= i <= |s| && part <= s[i..]
  {
    assert s[0..] == s;
    if s != [] {
      var tail := s[1..];
      ContainsIff(tail, part);
      assert forall i :: 0 <= i <= |tail| ==> tail[i..] == s[i + 1..];
      if i :| 0 <= i <= |s| && part <= s[i..] && i > 0 {
        assert tail[i - 1..] == s[i..];
      }
    }
  }

  /** A row is visible exactly if its label, letter case aside, has the filter in it somewhere. */
  lemma {:induction false} VisibleIff(s: State, r: Row)
    ensures var text, part := s.lower(r.caption), s.lower(s.filter);
            r in s.Visible() <==> r in s.rows && exists i :: 0 <= i <= |text| && part <= text[i..]
  {
    var lower, filter := s.lower, s.filter;
    ContainsIff(lower(r.caption), lower(filter));
    hide Contains;
    var keep := (x: Row) => Contains(lower(x.caption), lower(filter));
    FilterMember(s.rows, keep, r);
    assert keep(r) == Contains(lower(r.caption), lower(filter));
    assert s.Visible() == Filter(s.rows, keep);
  }

  lemma EmptyFilterShowsAll(rows: seq<Row>, lower: string -> string, filter: string)
    requires filter == "" && lower(filter) == ""
    ensures Matching(rows, lower, filter) == rows
  {
    var keep := (r: Row) => Contains(lower(r.caption), lower(filter));
    forall r | r in rows
      ensures keep(r)
    {
      assert Contains(lower(r.caption), "");
    }
    FilterAll(rows, keep);
  }

  /** Escape ends filtering with every row visible again and the first one selected. */
  lemma {:induction false} EscapeShowsAll(s: State)
    requires s.mode == Filtering && s.lower("") == ""
    ensures var t := Run(s, [Key(ESC)]);
            && t == s.(filter := "", cursor := 0, mode := Navigate)
            && t.Visible() == s.rows
  {
    hide Matching;
    RunOne(s, Key(ESC));
    EmptyFilterShowsAll(s.rows, s.lower, "");
  }

  /** How many of the events toggle the install flag: `i`, pressed while navigating. */
  function Toggles(s: State, events: seq<Event>): nat {
    if events == [] then 0
    else
      var front := events[..|events| - 1];
      Toggles(s, front) + if events[|events| - 1] == Key(KEY_I) && Run(s, front).mode == Navigate then 1 else 0
  }

  lemma AfterInstall(s: State, e: Event)
    ensures After(s, e).install == if e == Key(KEY_I) && s.mode == Navigate then s.install.Toggled() else s.install
  {
    hide Matching, Resolved, WithoutSession, OthersReplaced;
  }

  /** The install flag an outcome carries is the initial one, flipped once per toggle. */
  lemma {:induction false} InstallFollowsToggles(s: State, events: seq<Event>)
    ensures Run(s, events).install == s.install <==> Toggles(s, events) % 2 == 0
  {
    hide After;
    if events != [] {
      InstallFollowsToggles(s, events[..|events| - 1]);
      AfterInstall(Run(s, events[..|events| - 1]), events[|events| - 1]);
    }
  }

  // --- opening ---

  lemma {:induction false} RemoteAnchorsAreHosts(hosts: seq<RosterHost>)
    ensures forall r :: r in RemoteAnchors(hosts) ==> r.kind == HostRow
  {
    if hosts != [] {
      RemoteAnchorsAreHosts(hosts[1..]);
    }
  }

  predicate Named(entries: seq<SessionEntry>, session: string) {
    exists i :: 0 <= i < |entries| && entries[i].name == session
  }

  lemma RosterRowsAreHosts(roster: seq<RosterHost>, attached: Option<Host>)
    ensures forall r :: r in RosterRowsOf(roster, attached).rows ==> r.kind == HostRow
  {
    RemoteAnchorsAreHosts(Others(roster, attached));
  }

  /** The picker opens with the current session selected if it is listed, else with the current
      daemon's anchor selected. */
  lemma OpensOnCurrent(entries: seq<SessionEntry>, current: Host, roster: seq<RosterHost>, session: string,
                       lower: string -> string)
    requires lower("") == ""
    ensures var rows := PickerRowsOf(entries, current, roster);
            var at := CurrentIndex(rows, Some(current), session);
            var selected := Start(rows, Some(current), if at.Some? then at.value else 0, lower).Selected();
            && selected.Some?
            && if Named(entries, session) then IsCurrentSession(selected.value, Some(current), session)
               else selected.value == AnchorRow(current, Live)
  {
    hide Matching, RosterRowsOf;
    var rows := PickerRowsOf(entries, current, roster);
    var sessions, others := SessionRows(entries, current), RosterRowsOf(roster, Some(current)).rows;
    EmptyFilterShowsAll(rows, lower, "");
    assert forall i :: 0 <= i < |entries| ==> rows[1 + i] == sessions[i];
    if i :| 0 <= i < |entries| && entries[i].name == session {
      assert IsCurrentSession(rows[1 + i], Some(current), session);
    } else {
      RosterRowsAreHosts(roster, Some(current));
      assert forall i :: |entries| < i < |rows| ==> rows[i] == others[i - 1 - |entries|];
      assert forall i :: 0 <= i < |rows| ==> !IsCurrentSession(rows[i], Some(current), session);
    }
  }
}
