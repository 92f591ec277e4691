/** The session picker: a modal state machine over the filtered row list, driven by key bytes and
    by roster edits that arrive while it is open. */
module Picker {
  import opened Prelude
  import opened PickerRows
  import opened Streaming

  datatype InstallPolicy = UseExisting | Provision {
    function Toggled(): InstallPolicy { if UseExisting? then Provision else UseExisting }
  }

  datatype Mode =
    | Navigate
    | Filtering
    | Prompting(host: Host, buf: string)
    | PromptingHost(buf: string)
    | ConfirmKill(host: Host, name: string)

  datatype Outcome =
    | Switch(name: string)
    | Cancel
    | Reconnect(host: Host, name: string, install: InstallPolicy)
    | New(host: Host, name: string, install: InstallPolicy)
    | Forget(remote: string)
    | Kill(host: Host, name: string)

  const ENTER: byte := 0x0d
  const BACKSPACE: byte := 0x7f
  const SLASH: byte := 0x2f
  const KEY_I: byte := 0x69
  const KEY_K: byte := 0x6b
  const KEY_N: byte := 0x6e
  const KEY_X: byte := 0x78
  const KEY_Y: byte := 0x79

  predicate IsDown(b: byte) { b == 0x0e || b == 0x0a }

  predicate IsUp(b: byte) { b == 0x10 || b == 0x0b }

  predicate IsPrintable(b: byte) { 0x20 <= b <= 0x7e }

  function Popped(s: string): string { if s == [] then [] else s[..|s| - 1] }

  /** A line of text after one key byte. */
  function Edited(s: string, b: byte): string {
    if b == BACKSPACE then Popped(s) else if IsPrintable(b) then s + [b as char] else s
  }

  predicate Contains(s: string, part: string) {
    part <= s || (s != [] && Contains(s[1..], part))
  }

  /** The rows whose label contains the filter, letter case aside (`lower` is the lower-casing). */
  function Matching(rows: seq<Row>, lower: string -> string, filter: string): seq<Row> {
    Filter(rows, (r: Row) => Contains(lower(r.caption), lower(filter)))
  }

  datatype State = State(
    rows: seq<Row>, adhoc: seq<string>, current: Option<Host>, filter: string, cursor: nat,
    mode: Mode, install: InstallPolicy, lower: string -> string)
  {
    function Visible(): seq<Row> { Matching(rows, lower, filter) }

    function Selected(): Option<Row> {
      if cursor < |Visible()| then Some(Visible()[cursor]) else None
    }

    /** The cursor is on the slot behind the last visible row. */
    predicate OnSlot() { cursor == |Visible()| }

    predicate InRange() { cursor <= |Visible()| }

    function Clamped(): State {
      if cursor > |Visible()| then this.(cursor := |Visible()|) else this
    }

    function Moved(d: int): State {
      this.(cursor := (cursor + d) % (|Visible()| + 1))
    }

    function Accepted(): Option<Outcome> {
      match Selected()
      case None => None
      case Some(row) =>
        if Some(row.host) == current then
          Some(if row.kind == SessionRow then Switch(row.name) else Cancel)
        else
          Some(Reconnect(row.host, if row.kind == SessionRow then row.name else "", install))
    }
  }

  // --- keys ---

  function Navigated(s: State, b: byte): (State, Option<Outcome>) {
    if b == ESC then (s, Some(Cancel))
    else if b == ENTER then
      if s.OnSlot() then (s.(mode := PromptingHost("")), None) else (s, s.Accepted())
    else if IsDown(b) then (s.Moved(1), None)
    else if IsUp(b) then (s.Moved(-1), None)
    else if b == SLASH then (s.(mode := Filtering), None)
    else if b == KEY_I then (s.(install := s.install.Toggled()), None)
    else
      match s.Selected()
      case None => (s, None)
      case Some(row) =>
        if b == KEY_N && row.kind == HostRow then (s.(mode := Prompting(row.host, "")), None)
        else if b == KEY_K && row.kind == SessionRow then (s.(mode := ConfirmKill(row.host, row.name)), None)
        else if b == KEY_X && row.kind == HostRow && row.host.Remote? && row.host.name in s.adhoc then
          (s, Some(Forget(row.host.name)))
        else (s, None)
  }

  function Filtered(s: State, b: byte): State {
    if b == ENTER then s.(mode := Navigate)
    else if IsDown(b) then s.(mode := Navigate).Moved(1)
    else if IsUp(b) then s.(mode := Navigate).Moved(-1)
    else if b == ESC then s.(filter := "", cursor := 0).Clamped().(mode := Navigate)
    else if b == BACKSPACE || IsPrintable(b) then s.(filter := Edited(s.filter, b), cursor := 0).Clamped()
    else s
  }

  function HandleKey(s: State, b: byte): (State, Option<Outcome>) {
    match s.mode
    case Navigate => Navigated(s, b)
    case Filtering => (Filtered(s, b), None)
    case Prompting(host, buf) =>
      if b == ESC then (s.(mode := Navigate), None)
      else if b == ENTER then
        if buf == "" then (s, None) else (s.(mode := Navigate), Some(New(host, buf, s.install)))
      else (s.(mode := Prompting(host, Edited(buf, b))), None)
    case PromptingHost(buf) =>
      if b == ESC then (s.(mode := Navigate), None)
      else if b == ENTER then
        if buf == "" then (s, None) else (s.(mode := Navigate), Some(Reconnect(Remote(buf), "", s.install)))
      else (s.(mode := PromptingHost(Edited(buf, b))), None)
    case ConfirmKill(host, name) =>
      if b == KEY_Y then (s.(mode := Navigate), Some(Kill(host, name)))
      else if b == KEY_N || b == ESC then (s.(mode := Navigate), None)
      else (s, None)
  }

  // --- the picker object ---

  function Start(rows: seq<Row>, current: Option<Host>, cursor: nat, lower: string -> string): State {
    State(rows, [], current, "", cursor, Navigate, UseExisting, lower)
  }

  predicate IsCurrentSession(r: Row, current: Option<Host>, session: string) {
    r.kind == SessionRow && Some(r.host) == current && r.name == session
  }

  function CurrentIndex(rows: seq<Row>, current: Option<Host>, session: string): (r: Option<nat>)
    ensures r.Some? ==> r.value < |rows| && IsCurrentSession(rows[r.value], current, session)
    ensures forall i :: 0 <= i < (if r.Some? then r.value else |rows|) ==>
              !IsCurrentSession(rows[i], current, session)
  {
    if rows == [] then None
    else if IsCurrentSession(rows[0], current, session) then Some(0)
    else
      assert forall k :: 1 <= k < |rows| ==> rows[k] == rows[1..][k - 1];
      match CurrentIndex(rows[1..], current, session)
      case Some(i) => Some(1 + i)
      case None => None
  }

  /** Writing the status in place, splitting behind the anchor and appending, as one expression. */
  lemma SpliceInPlace(rows: seq<Row>, i: nat, status: RowStatus, sessions: seq<Row>)
    requires i < |rows|
    ensures var marked := rows[i := rows[i].(status := status)];
            marked[..i + 1] + sessions + marked[i + 1..] ==
            rows[..i] + ([rows[i].(status := status)] + sessions) + rows[i + 1..]
  {
    var anchor := rows[i].(status := status);
    var marked := rows[i := anchor];
    assert marked[..i + 1] == rows[..i] + [anchor];
    assert marked[i + 1..] == rows[i + 1..];
    assert rows[..i] + [anchor] + sessions == rows[..i] + ([anchor] + sessions);
  }

  lemma OneStepModulo(c: nat, m: nat)
    requires c < m
    ensures (c + 1) % m == if c + 1 == m then 0 else c + 1
    ensures (c - 1) % m == if c == 0 then m - 1 else c - 1
  {
    if c + 1 == m {
      assert m % m == 0;
    }
    if c == 0 {
      assert -1 == (-1) * m + (m - 1);
    }
  }

  class PickerState {
    const lower: string -> string
    const current: Option<Host>
    var rows: seq<Row>
    var adhoc: seq<string>
    var filter: string
    var cursor: nat
    var mode: Mode
    var install: InstallPolicy

    function Value(): State
      reads this
    {
      State(rows, adhoc, current, filter, cursor, mode, install, lower)
    }

    constructor (rows: seq<Row>, lower: string -> string)
      ensures Value() == Start(rows, Some(Local), 0, lower)
    {
      this.lower, this.current, this.rows, this.adhoc := lower, Some(Local), rows, [];
      filter, cursor, mode, install := "", 0, Navigate, UseExisting;
    }

    constructor WithCurrent(rows: seq<Row>, current: Option<Host>, session: string, lower: string -> string)
      ensures var at := CurrentIndex(rows, current, session);
              Value() == Start(rows, current, if at.Some? then at.value else 0, lower)
    {
      var at := CurrentIndex(rows, current, session);
      this.lower, this.current, this.rows, this.adhoc := lower, current, rows, [];
      filter, cursor, mode, install := "", if at.Some? then at.value else 0, Navigate, UseExisting;
    }

    function Visible(): seq<Row>
      reads this
    {
      Matching(rows, lower, filter)
    }

    function Selected(): (r: Option<Row>)
      reads this
      ensures r == Value().Selected()
    {
      var visible := Visible();
      if cursor < |visible| then Some(visible[cursor]) else None
    }

    method Clamp()
      modifies this`cursor
      ensures Value() == old(Value()).Clamped()
      ensures Value().InRange() && (old(Value().InRange()) ==> cursor == old(cursor))
    {
      var last := |Visible()|;
      if cursor > last {
        cursor := last;
      }
    }

    method MoveCursor(d: int)
      modifies this`cursor
      ensures Value() == old(Value()).Moved(d)
      ensures Value().InRange()
      ensures old(Value().InRange()) && d == 1 ==> cursor == if old(Value().OnSlot()) then 0 else old(cursor) + 1
      ensures old(Value().InRange()) && d == -1 ==> if old(cursor) == 0 then Value().OnSlot() else cursor == old(cursor) - 1
    {
      var n := |Visible()| + 1;
      if cursor < n {
        OneStepModulo(cursor, n);
      }
      cursor := (cursor + d) % n;
    }

    method ResolveHost(host: Host, status: RowStatus, sessions: seq<Row>)
      modifies this`rows, this`cursor
      ensures Value() == old(Value()).(rows := Resolved(old(rows), host, status, sessions)).Clamped()
    {
      hide WithoutSessionsOf;
      rows := WithoutSessionsOf(rows, host);
      var at := AnchorIndex(rows, host);
      if at.Some? {
        var idx := at.value;
        SpliceInPlace(rows, idx, status, sessions);
        rows := rows[idx := rows[idx].(status := status)];
        var tail := rows[idx + 1..];
        rows := rows[..idx + 1] + sessions + tail;
      }
      Clamp();
    }

    method RemoveRow(host: Host, name: string)
      modifies this`rows, this`cursor
      ensures Value() == old(Value()).(rows := WithoutSession(old(rows), host, name)).Clamped()
    {
      rows := WithoutSession(rows, host, name);
      Clamp();
    }

    method ReplaceOtherRows(attached: Option<Host>, others: seq<Row>, names: seq<string>)
      modifies this`rows, this`adhoc, this`cursor
      ensures Value() ==
              old(Value()).(rows := OthersReplaced(old(rows), attached, others), adhoc := names).Clamped()
    {
      rows := OfDaemon(rows, attached);
      rows := rows + others;
      adhoc := names;
      Clamp();
    }

    method PushFilter(b: byte)
      modifies this`filter, this`cursor
      ensures Value() == old(Value()).(filter := old(filter) + [b as char], cursor := 0).Clamped()
      ensures cursor == 0 && (Visible() == [] <==> Value().OnSlot())
      ensures Visible() != [] ==> Selected() == Some(Visible()[0])
    {
      filter := filter + [b as char];
      cursor := 0;
      Clamp();
    }

    method Accept() returns (o: Option<Outcome>)
      ensures o == Value().Accepted()
    {
      var selected := Selected();
      if selected.None? {
        return None;
      }
      var row := selected.value;
      var sameDaemon := current == Some(row.host);
      match row.kind {
        case SessionRow =>
          o := Some(if sameDaemon then Switch(row.name) else Reconnect(row.host, row.name, install));
        case HostRow =>
          o := Some(if sameDaemon then Cancel else Reconnect(row.host, "", install));
      }
    }

    method HandleNavigate(b: byte) returns (o: Option<Outcome>)
      modifies this`cursor, this`mode, this`install
      ensures (Value(), o) == Navigated(old(Value()), b)
    {
      o := None;
      var selected := Selected();
      if b == ESC {
        o := Some(Cancel);
      } else if b == ENTER {
        if cursor == |Visible()| {
          mode := PromptingHost("");
        } else {
          o := Accept();
        }
      } else if b == 0x0e || b == 0x0a {
        MoveCursor(1);
      } else if b == 0x10 || b == 0x0b {
        MoveCursor(-1);
      } else if b == SLASH {
        mode := Filtering;
      } else if b == KEY_I {
        install := install.Toggled();
      } else if b == KEY_N {
        if selected.Some? && selected.value.kind == HostRow {
          mode := Prompting(selected.value.host, "");
        }
      } else if b == KEY_X {
        if selected.Some? && selected.value.kind == HostRow && selected.value.host.Remote? {
          var h := selected.value.host.name;
          if h in adhoc {
            o := Some(Forget(h));
          }
        }
      } else if b == KEY_K {
        if selected.Some? && selected.value.kind == SessionRow {
          mode := ConfirmKill(selected.value.host, selected.value.name);
        }
      }
    }

    method HandleFiltering(b: byte)
      modifies this`filter, this`cursor, this`mode
      ensures Value() == Filtered(old(Value()), b)
    {
      if b == ENTER {
        mode := Navigate;
      } else if b == 0x0e || b == 0x0a {
        mode := Navigate;
        MoveCursor(1);
      } else if b == 0x10 || b == 0x0b {
        mode := Navigate;
        MoveCursor(-1);
      } else if b == ESC {
        filter := "";
        cursor := 0;
        Clamp();
        mode := Navigate;
      } else if b == BACKSPACE {
        filter := Popped(filter);
        cursor := 0;
        Clamp();
      } else if 0x21 <= b <= 0x7e || b == 0x20 {
        PushFilter(b);
      }
    }

    method HandlePrompt(b: byte) returns (o: Option<Outcome>)
      requires !mode.Navigate? && !mode.Filtering?
      modifies this`mode
      ensures (Value(), o) == HandleKey(old(Value()), b)
    {
      o := None;
      match mode {
        case Prompting(host, buf) =>
          if b == ESC {
            mode := Navigate;
          } else if b == ENTER {
            if buf != "" {
              o := Some(New(host, buf, install));
              mode := Navigate;
            }
          } else if b == BACKSPACE {
            mode := Prompting(host, Popped(buf));
          } else if 0x21 <= b <= 0x7e || b == 0x20 {
            mode := Prompting(host, buf + [b as char]);
          }
        case PromptingHost(buf) =>
          if b == ESC {
            mode := Navigate;
          } else if b == ENTER {
            if buf != "" {
              o := Some(Reconnect(Remote(buf), "", install));
              mode := Navigate;
            }
          } else if b == BACKSPACE {
            mode := PromptingHost(Popped(buf));
          } else if 0x21 <= b <= 0x7e || b == 0x20 {
            mode := PromptingHost(buf + [b as char]);
          }
        case ConfirmKill(host, name) =>
          if b == KEY_Y {
            o := Some(Kill(host, name));
            mode := Navigate;
          } else if b == KEY_N || b == ESC {
            mode := Navigate;
          }
      }
    }

    method Handle(b: byte) returns (o: Option<Outcome>)
      modifies this`filter, this`cursor, this`mode, this`install
      ensures (Value(), o) == HandleKey(old(Value()), b)
    {
      if mode.Navigate? {
        o := HandleNavigate(b);
      } else if mode.Filtering? {
        HandleFiltering(b);
        o := None;
      } else {
        o := HandlePrompt(b);
      }
    }
  }
}
