/** The two sections of the picker's list: rows of configured daemons first, ad-hoc ones last, from
    the roster through every edit and filter to the divider drawn between them. */
module AdHocSections {
  import opened Prelude
  import opened PickerRows
  import opened Streaming
  import opened RowAssembly
  import opened Roster
  import opened Picker
  import opened PickerKeys
  import opened PickerRender
  import Runs = PickerRuns
  import opened Pump

  /** Behind an ad-hoc row all rows are ad-hoc. */
  predicate AdHocLast(rows: seq<Row>, adhoc: seq<string>) {
    forall i, j :: 0 <= i < j < |rows| && IsAdHoc(rows[i], adhoc) ==> IsAdHoc(rows[j], adhoc)
  }

  // --- edits keep the sections ---

  lemma AdHocLastFront(r: Row, rest: seq<Row>, adhoc: seq<string>)
    requires AdHocLast(rest, adhoc) && (IsAdHoc(r, adhoc) ==> forall x :: x in rest ==> IsAdHoc(x, adhoc))
    ensures AdHocLast([r] + rest, adhoc)
  {
    hide IsAdHoc;
    var all := [r] + rest;
    assert forall i :: 0 <= i < |rest| ==> all[1 + i] == rest[i] && rest[i] in rest;
    forall i, j | 0 <= i < j < |all| && IsAdHoc(all[i], adhoc)
      ensures IsAdHoc(all[j], adhoc)
    {
      assert all[j] == rest[j - 1];
      if i > 0 {
        assert all[i] == rest[i - 1];
      }
    }
  }

  lemma AdHocLastCons(r: Row, rest: seq<Row>, adhoc: seq<string>)
    ensures AdHocLast([r] + rest, adhoc) <==>
            AdHocLast(rest, adhoc) && (IsAdHoc(r, adhoc) ==> forall x :: x in rest ==> IsAdHoc(x, adhoc))
  {
    hide IsAdHoc;
    var all := [r] + rest;
    assert all[0] == r && forall i :: 0 <= i < |rest| ==> all[1 + i] == rest[i] && rest[i] in rest;
    if AdHocLast(rest, adhoc) && (IsAdHoc(r, adhoc) ==> forall x :: x in rest ==> IsAdHoc(x, adhoc)) {
      AdHocLastFront(r, rest, adhoc);
    }
    if AdHocLast(all, adhoc) {
      forall i, j | 0 <= i < j < |rest| && IsAdHoc(rest[i], adhoc)
        ensures IsAdHoc(rest[j], adhoc)
      {
        assert all[1 + i] == rest[i] && all[1 + j] == rest[j];
      }
      forall x | x in rest && IsAdHoc(r, adhoc)
        ensures IsAdHoc(x, adhoc)
      {
        var i :| 0 <= i < |rest| && rest[i] == x;
        assert IsAdHoc(all[0], adhoc) && all[1 + i] == x;
      }
    }
  }

  lemma NothingLast(adhoc: seq<string>)
    ensures AdHocLast([], adhoc)
  {
  }

  lemma {:induction false} FilteredLast(rows: seq<Row>, keep: Row -> bool, adhoc: seq<string>)
    requires AdHocLast(rows, adhoc)
    ensures AdHocLast(Filter(rows, keep), adhoc)
  {
    hide AdHocLast;
    if rows == [] {
      NothingLast(adhoc);
    } else {
      var r, rest := rows[0], Filter(rows[1..], keep);
      assert rows == [r] + rows[1..];
      AdHocLastCons(r, rows[1..], adhoc);
      FilteredLast(rows[1..], keep, adhoc);
      AdHocLastCons(r, rest, adhoc);
      forall x | x in rest
        ensures x in rows[1..]
      {
        FilterMember(rows[1..], keep, x);
      }
      assert [] + rest == rest;
    }
  }

  /** Which row of the list before the edit stands for row `k` after it. */
  function From(k: nat, i: nat, n: nat): nat { if k <= i then k else if k <= i + n then i else k - n }

  /** Rows put in behind an anchor of their own host. */
  lemma SplicedLast(rows: seq<Row>, i: nat, status: RowStatus, sessions: seq<Row>, adhoc: seq<string>)
    requires AdHocLast(rows, adhoc) && i < |rows| && AllSessionsOf(sessions, rows[i].host)
    ensures AdHocLast(rows[..i] + ([rows[i].(status := status)] + sessions) + rows[i + 1..], adhoc)
  {
    var out := rows[..i] + ([rows[i].(status := status)] + sessions) + rows[i + 1..];
    forall k | 0 <= k < |out|
      ensures IsAdHoc(out[k], adhoc) == IsAdHoc(rows[From(k, i, |sessions|)], adhoc)
    {
      if i < k <= i + |sessions| {
        assert out[k] == sessions[k - i - 1];
      }
    }
    forall x, y | 0 <= x < y < |out| && IsAdHoc(out[x], adhoc)
      ensures IsAdHoc(out[y], adhoc)
    {
      assert From(x, i, |sessions|) <= From(y, i, |sessions|);
    }
  }

  lemma ResolvedLast(rows: seq<Row>, answer: Answer, adhoc: seq<string>)
    requires AdHocLast(rows, adhoc) && Tagged(answer)
    ensures AdHocLast(Resolved(rows, answer.host, answer.status, answer.sessions), adhoc)
  {
    var host := answer.host;
    FilteredLast(rows, (r: Row) => !IsSessionOf(r, host), adhoc);
    var kept := WithoutSessionsOf(rows, host);
    hide WithoutSessionsOf, AdHocLast;
    if AnchorIndex(kept, host).Some? {
      SplicedLast(kept, AnchorIndex(kept, host).value, answer.status, answer.sessions, adhoc);
    }
  }

  predicate NotAdHoc(host: Option<Host>, adhoc: seq<string>) {
    host.Some? && host.value.Remote? ==> host.value.name !in adhoc
  }

  lemma ConcatLast(a: seq<Row>, b: seq<Row>, adhoc: seq<string>)
    requires (forall r :: r in a ==> !IsAdHoc(r, adhoc)) && AdHocLast(b, adhoc)
    ensures AdHocLast(a + b, adhoc)
  {
    hide IsAdHoc;
    var all := a + b;
    assert forall i :: 0 <= i < |a| ==> all[i] == a[i] && a[i] in a;
    forall i, j | 0 <= i < j < |all| && IsAdHoc(all[i], adhoc)
      ensures IsAdHoc(all[j], adhoc)
    {
      assert all[i] == b[i - |a|] && all[j] == b[j - |a|];
    }
  }

  lemma OthersReplacedLast(rows: seq<Row>, current: Option<Host>, others: seq<Row>, adhoc: seq<string>)
    requires AdHocLast(others, adhoc) && NotAdHoc(current, adhoc)
    ensures AdHocLast(OthersReplaced(rows, current, others), adhoc)
  {
    hide AdHocLast;
    forall r | r in OfDaemon(rows, current)
      ensures !IsAdHoc(r, adhoc)
    {
      FilterMember(rows, (x: Row) => Some(x.host) == current, r);
    }
    ConcatLast(OfDaemon(rows, current), others, adhoc);
  }

  // --- the picker ---

  predicate Sectioned(s: State) { AdHocLast(s.rows, s.adhoc) && NotAdHoc(s.current, s.adhoc) }

  /** Roster edits that bring rows in sections. */
  predicate InSections(e: Runs.Event, current: Option<Host>) {
    match e
    case Answered(a) => Tagged(a)
    case Replaced(others, names) => AdHocLast(others, names) && NotAdHoc(current, names)
    case _ => true
  }

  lemma WithoutSessionLast(rows: seq<Row>, host: Host, name: string, adhoc: seq<string>)
    requires AdHocLast(rows, adhoc)
    ensures AdHocLast(WithoutSession(rows, host, name), adhoc)
  {
    FilteredLast(rows, (r: Row) => !(IsSessionOf(r, host) && r.name == name), adhoc);
  }

  lemma AfterSectioned(s: State, e: Runs.Event)
    requires Sectioned(s) && InSections(e, s.current)
    ensures Sectioned(Runs.After(s, e)) && Runs.After(s, e).current == s.current
  {
    hide AdHocLast, NotAdHoc, Matching, Resolved, WithoutSession, OthersReplaced;
    match e
    case Key(_) =>
    case Answered(a) => ResolvedLast(s.rows, a, s.adhoc);
    case Removed(host, name) => WithoutSessionLast(s.rows, host, name, s.adhoc);
    case Replaced(others, names) => OthersReplacedLast(s.rows, s.current, others, names);
  }

  lemma VisibleLast(s: State)
    requires Sectioned(s)
    ensures AdHocLast(s.Visible(), s.adhoc)
  {
    var lower, filter := s.lower, s.filter;
    FilteredLast(s.rows, (r: Row) => Contains(lower(r.caption), lower(filter)), s.adhoc);
  }

  // --- the roster ---

  /** The list `Assemble` makes of some configuration and some stored hosts. */
  ghost predicate Assembled(roster: seq<RosterHost>) {
    exists n: nat, configured, adhoc :: IsRoster(roster, n, configured, adhoc)
  }

  predicate ConfiguredFirst(roster: seq<RosterHost>) {
    forall i, j :: 0 <= i < j < |roster| && roster[i].source == AdHoc ==> roster[j].source == AdHoc
  }

  lemma AssembledSections(roster: seq<RosterHost>)
    requires Assembled(roster)
    ensures DistinctHosts(roster) && ConfiguredFirst(roster)
  {
    var n: nat, configured, adhoc :| IsRoster(roster, n, configured, adhoc);
    RosterDistinct(roster, n, configured, adhoc);
  }

  lemma {:induction false} OthersFirst(roster: seq<RosterHost>, attached: Option<Host>)
    requires ConfiguredFirst(roster)
    ensures ConfiguredFirst(Others(roster, attached))
  {
    if roster != [] {
      var first, rest := roster[0], Others(roster[1..], attached);
      assert forall i :: 0 <= i < |roster| - 1 ==> roster[1..][i] == roster[i + 1];
      OthersFirst(roster[1..], attached);
      forall h | h in rest && first.source == AdHoc
        ensures h.source == AdHoc
      {
        FilterMember(roster[1..], (x: RosterHost) => IsOther(x, attached), h);
      }
      assert Others(roster, attached) == if IsOther(first, attached) then [first] + rest else rest;
      assert forall i :: 0 <= i < |rest| ==> rest[i] in rest;
    }
  }

  lemma RemoteAnchorsLast(hosts: seq<RosterHost>)
    requires DistinctHosts(hosts) && ConfiguredFirst(hosts)
    ensures AdHocLast(RemoteAnchors(hosts), AdHocNames(hosts))
  {
    RemoteAnchorsAt(hosts);
    var rows, names := RemoteAnchors(hosts), AdHocNames(hosts);
    forall i | 0 <= i < |rows|
      ensures IsAdHoc(rows[i], names) <==> hosts[i].source == AdHoc
    {
      AdHocNamesAre(hosts, hosts[i].host);
    }
  }

  /** The rows built from an assembled roster are in sections, and the attached daemon is not among
      the ad-hoc names, even if it is an ad-hoc host. */
  lemma RosterRowsLast(roster: seq<RosterHost>, attached: Option<Host>)
    requires Assembled(roster)
    ensures AdHocLast(RosterRowsOf(roster, attached).rows, RosterRowsOf(roster, attached).adhoc)
    ensures NotAdHoc(attached, RosterRowsOf(roster, attached).adhoc)
  {
    var others := Others(roster, attached);
    var names := AdHocNames(others);
    AssembledSections(roster);
    OthersFirst(roster, attached);
    OthersDistinct(roster, attached);
    RemoteAnchorsLast(others);
    if attached.Some? && attached.value.Remote? {
      AdHocNamesAre(others, attached.value.name);
      assert forall i :: 0 <= i < |others| ==> others[i] in others;
    }
    hide Others, AdHocLast, RemoteAnchors, AdHocNames;
    if attached != Some(Local) {
      ConcatLast([AnchorRow(Local, Pending)], RemoteAnchors(others), names);
    } else {
      assert [] + RemoteAnchors(others) == RemoteAnchors(others);
    }
  }

  lemma PickerRowsLast(entries: seq<SessionEntry>, current: Host, roster: seq<RosterHost>)
    requires Assembled(roster)
    ensures AdHocLast(PickerRowsOf(entries, current, roster), RosterRowsOf(roster, Some(current)).adhoc)
  {
    var built := RosterRowsOf(roster, Some(current));
    RosterRowsLast(roster, Some(current));
    hide RosterRowsOf, AdHocLast;
    var own := [AnchorRow(current, Live)] + SessionRows(entries, current);
    forall r | r in own
      ensures r.host == current
    {
      assert forall i :: 0 <= i < |SessionRows(entries, current)| ==> SessionRows(entries, current)[i].host == current;
    }
    ConcatLast(own, built.rows, built.adhoc);
  }

  // --- the client's loop ---

  /** The rosters rows are built from were assembled from the files. */
  ghost predicate FromFiles(e: Event) {
    match e
    case OpenPicker(_, _, roster) => Assembled(roster)
    case Stdin(_, roster, _) => Assembled(roster)
    case _ => true
  }

  predicate SectionedPicker(s: Loop) {
    s.picker.Some? ==> Sectioned(s.picker.value.0) && s.picker.value.0.current == Some(s.daemon)
  }

  lemma {:induction false} PressedSectioned(p: State, keys: seq<byte>)
    requires Sectioned(p)
    ensures Sectioned(Pressed(p, keys).0) && Pressed(p, keys).0.current == p.current
    decreases |keys|
  {
    hide HandleKey, Sectioned;
    if keys != [] {
      AfterKey(p, keys[0]);
      AfterSectioned(p, Runs.Key(keys[0]));
      PressedSectioned(HandleKey(p, keys[0]).0, keys[1..]);
    }
  }

  lemma ChosenSectioned(s: Loop, p: State, session: string, o: Outcome, roster: seq<RosterHost>, reply: KillReply)
    requires Sectioned(p) && p.current == Some(s.daemon) && Assembled(roster) && s.exit == None
    ensures SectionedPicker(Chosen(s, p, session, o, roster, reply))
  {
    hide Sectioned, Runs.After, RosterRowsOf, Assembled;
    match o
    case Forget(_) =>
      RosterRowsLast(roster, Some(s.daemon));
      AfterSectioned(p, Runs.Replaced(RosterRowsOf(roster, Some(s.daemon)).rows, AdHocOf(roster, s.daemon)));
    case Kill(host, name) => AfterSectioned(p, Runs.Removed(host, name));
    case _ =>
  }

  lemma OpenedSectioned(s: Loop, entries: seq<SessionEntry>, session: string, roster: seq<RosterHost>)
    requires Assembled(roster)
    ensures SectionedPicker(Opened(s, entries, session, roster))
  {
    RosterRowsLast(roster, Some(s.daemon));
    PickerRowsLast(entries, s.daemon, roster);
    hide RosterRowsOf, PickerRowsOf, AdHocLast, NotAdHoc, CurrentIndex, Assembled;
  }

  lemma NextSectioned(s: Loop, e: Event)
    requires SectionedPicker(s) && FromFiles(e)
    ensures SectionedPicker(Next(s, e)) && Next(s, e).daemon == s.daemon
  {
    hide Sectioned, Runs.After, PickerRowsOf, RosterRowsOf, Forwarded, Pressed, KeysIn, CurrentIndex, Assembled;
    match e
    case OpenPicker(entries, session, roster) => OpenedSectioned(s, entries, session, roster);
    case Stdin(chunk, roster, reply) =>
      if s.exit == None && s.picker.Some? {
        var (p, o) := Pressed(s.picker.value.0, KeysIn(chunk));
        PressedSectioned(s.picker.value.0, KeysIn(chunk));
        if o.Some? {
          ChosenSectioned(s, p, s.picker.value.1, o.value, roster, reply);
          hide Chosen;
        }
      }
    case Status(host, status) =>
      if s.picker.Some? {
        AfterSectioned(s.picker.value.0, Runs.Answered(ResolveStatus(host, status)));
      }
    case _ =>
  }

  lemma {:induction false} RunSectioned(s: Loop, events: seq<Event>)
    requires SectionedPicker(s) && forall i :: 0 <= i < |events| ==> FromFiles(events[i])
    ensures SectionedPicker(Run(s, events))
  {
    hide Next, SectionedPicker;
    if events != [] {
      RunSectioned(s, events[..|events| - 1]);
      NextSectioned(Run(s, events[..|events| - 1]), events[|events| - 1]);
    }
  }

  // --- the divider ---

  /** A divider above row `k` has all rows that are not ad-hoc above it and all ad-hoc ones below. */
  predicate Separates(rows: seq<Row>, adhoc: seq<string>, k: nat) {
    forall i :: 0 <= i < |rows| ==> (IsAdHoc(rows[i], adhoc) <==> i >= k)
  }

  /** In every state the client's loop reaches, under any filter: the divider separates the ad-hoc
      rows from the others if and only if the first visible row is not ad-hoc, which is when any
      visible row is not; and it is missing exactly if no row below the first is ad-hoc. */
  lemma {:induction false} DividerSeparatesIff(daemon: Host, lower: string -> string, size: Screen, events: seq<Event>)
    requires forall i :: 0 <= i < |events| ==> FromFiles(events[i])
    requires Run(Init(daemon, lower, size), events).picker.Some?
    ensures var p := Run(Init(daemon, lower, size), events).picker.value.0;
            var rows := p.Visible();
            var at := LaterAdHoc(rows, p.adhoc, false);
            && NoHeader(LinesFrom(rows, p.adhoc, p.cursor, NOTHING_YET)) == Divided(rows, p.adhoc, p.cursor, at)
            && (at.Some? ==> (Separates(rows, p.adhoc, at.value) <==> !IsAdHoc(rows[0], p.adhoc)))
            && (at.Some? ==> (IsAdHoc(rows[0], p.adhoc) <==> forall r :: r in rows ==> IsAdHoc(r, p.adhoc)))
            && (at.None? <==> forall i :: 1 <= i < |rows| ==> !IsAdHoc(rows[i], p.adhoc))
  {
    RunSectioned(Init(daemon, lower, size), events);
    var p := Run(Init(daemon, lower, size), events).picker.value.0;
    hide Run;
    VisibleLast(p);
    DividerPlacement(p);
    hide Matching, LinesFrom, Divided, RowLine;
    var rows := p.Visible();
    assert forall i :: 0 <= i < |rows| ==> rows[i] in rows;
  }

  // --- a list where the divider stands inside the ad-hoc rows ---

  function Same(text: string): string { text }

  const MAIN := SessionEntry("main", "main \U{2014} 1 win, 1 panes, 1 clients")
  const BOX_WORK := SessionEntry("box-work", "box" + "-work \U{2014} 1 win, 2 panes, 0 clients")
  const BOX := RosterHost("box", None, AdHoc)
  const TYPED: seq<byte> := [SLASH, 0x62, 0x6f, 0x78]  // "/box"

  /** The picker opens on the local daemon, the ad-hoc host answers with one session, and the user
      filters for that host. */
  const FILTERED_DOWN: seq<Event> :=
    [OpenPicker([MAIN], "main", [BOX]), Status(Remote("box"), LiveHost([BOX_WORK])), Stdin(TYPED, [BOX], Unexpected)]

  function BoxAnchor(status: RowStatus): Row { AnchorRow(Remote("box"), status) }

  function BoxSession(): Row { Row("box-work", BOX_WORK.caption, Remote("box"), SessionRow, Live) }

  function Opening(): seq<Row> { [AnchorRow(Local, Live), Row("main", MAIN.caption, Local, SessionRow, Live)] }

  lemma BoxAssembled()
    ensures Assembled([BOX])
  {
    var roster := [BOX];
    assert Hosts(roster) == ["box"];
    assert Hosts(roster)[..0] == [] && Hosts(roster)[0..] == ["box"];
    assert IsRoster(roster, 0, [], ["box"]);
  }

  lemma BoxOpens()
    ensures PickerRowsOf([MAIN], Local, [BOX]) == Opening() + [BoxAnchor(Pending)]
    ensures AdHocOf([BOX], Local) == ["box"]
  {
    assert [MAIN][1..] == [] && [BOX][1..] == [];
    var attached := Some(Local);
    FilterAll([BOX], (h: RosterHost) => IsOther(h, attached));
    assert Others([BOX], attached) == [BOX];
    assert AdHocNames([BOX]) == ["box"];
    assert RemoteAnchors([BOX]) == [BoxAnchor(Pending)];
    assert SessionRows([MAIN], Local) == [Row("main", MAIN.caption, Local, SessionRow, Live)];
  }

  lemma BoxKept()
    ensures WithoutSessionsOf(Opening() + [BoxAnchor(Pending)], Remote("box")) == Opening() + [BoxAnchor(Pending)]
  {
    var box := Remote("box");
    FilterAll(Opening() + [BoxAnchor(Pending)], (r: Row) => !IsSessionOf(r, box));
  }

  lemma BoxFound()
    ensures AnchorIndex(Opening() + [BoxAnchor(Pending)], Remote("box")) == Some(2)
  {
    hide AnchorIndex;
    var rows, box := Opening() + [BoxAnchor(Pending)], Remote("box");
    assert !IsAnchor(rows[0], box) && !IsAnchor(rows[1], box) && IsAnchor(rows[2], box);
    assert |rows| == 3;
  }

  lemma BoxAnswers()
    ensures Resolved(Opening() + [BoxAnchor(Pending)], Remote("box"), Live, [BoxSession()]) ==
            Opening() + [BoxAnchor(Live), BoxSession()]
  {
    BoxKept();
    BoxFound();
    hide AnchorIndex, WithoutSessionsOf;
    var rows := Opening() + [BoxAnchor(Pending)];
    assert rows[..2] == Opening() && rows[3..] == [];
    assert BoxAnchor(Pending).(status := Live) == BoxAnchor(Live);
  }

  lemma {:induction false} FirstLetterMissing(text: string, part: string)
    requires part != "" && part[0] !in text
    ensures !Contains(text, part)
  {
    if text != "" {
      FirstLetterMissing(text[1..], part);
    }
  }

  lemma MatchingBack(front: seq<Row>, shown: seq<Row>, lower: string -> string, filter: string)
    requires forall r :: r in front ==> !Contains(lower(r.caption), lower(filter))
    requires forall r :: r in shown ==> Contains(lower(r.caption), lower(filter))
    ensures Matching(front + shown, lower, filter) == shown
  {
    var keep := (r: Row) => Contains(lower(r.caption), lower(filter));
    hide Contains;
    FilterNone(front, keep);
    FilterAll(shown, keep);
    FilterAppend(front, shown, keep);
    assert [] + shown == shown;
  }

  lemma NoB()
    ensures forall i :: 0 <= i < |MAIN.caption| ==> MAIN.caption[i] != 'b'
    ensures forall i :: 0 <= i < |"local"| ==> "local"[i] != 'b'
  {
  }

  lemma BeginsWithBox(text: string)
    requires |text| >= 3 && text[0] == 'b' && text[1] == 'o' && text[2] == 'x'
    ensures Contains(text, "box")
  {
    assert "box" <= text;
  }

  lemma OpeningHidden()
    ensures forall r :: r in Opening() ==> !Contains(Same(r.caption), Same("box"))
  {
    NoB();
    hide Contains;
    FirstLetterMissing(Opening()[0].caption, "box");
    FirstLetterMissing(Opening()[1].caption, "box");
  }

  lemma BoxAnchorShown()
    ensures Contains(Same(BoxAnchor(Live).caption), Same("box"))
  {
    hide Contains;
    BeginsWithBox(BoxAnchor(Live).caption);
  }

  lemma BoxSessionShown()
    ensures Contains(Same(BoxSession().caption), Same("box"))
  {
    hide Contains;
    var rest := "-work \U{2014} 1 win, 2 panes, 0 clients";
    assert ("box" + rest)[..3] == "box";
    BeginsWithBox("box" + rest);
  }

  lemma BoxFiltered()
    ensures Matching(Opening() + [BoxAnchor(Live), BoxSession()], Same, "box") == [BoxAnchor(Live), BoxSession()]
  {
    OpeningHidden();
    BoxAnchorShown();
    BoxSessionShown();
    hide Opening, BoxAnchor, BoxSession, Contains;
    MatchingBack(Opening(), [BoxAnchor(Live), BoxSession()], Same, "box");
  }

  lemma {:induction false} PlainKeys(bytes: seq<byte>)
    requires ESC !in bytes
    ensures KeysIn(bytes) == bytes
  {
    if bytes != [] {
      PlainKeys(bytes[1..]);
    }
  }

  lemma FilterKey(p: State)
    requires p.mode == Navigate
    ensures HandleKey(p, SLASH) == (p.(mode := Filtering), None)
  {
    hide Matching;
  }

  lemma FilterLetter(p: State, b: byte)
    requires p.mode == Filtering && IsPrintable(b)
    ensures HandleKey(p, b) == (p.(filter := p.filter + [b as char], cursor := 0), None)
  {
    hide Matching;
  }

  lemma BoxTyped(p: State)
    requires p.mode == Navigate && p.filter == ""
    ensures Pressed(p, KeysIn(TYPED)) == (p.(mode := Filtering, filter := "box", cursor := 0), None)
  {
    hide Matching, HandleKey, Pressed;
    PlainKeys(TYPED);
    var b, o, x: byte := 0x62, 0x6f, 0x78;
    var p1 := p.(mode := Filtering);
    var p2 := p1.(filter := "b", cursor := 0);
    var p3 := p2.(filter := "bo");
    FilterKey(p);
    FilterLetter(p1, b);
    FilterLetter(p2, o);
    FilterLetter(p3, x);
    assert "" + [b as char] == "b" && "b" + [o as char] == "bo" && "bo" + [x as char] == "box";
    var p4 := p3.(filter := "box");
    assert [x] + [] == [x] && [o] + [x] == [o, x] && [b] + [o, x] == [b, o, x] && [SLASH] + [b, o, x] == TYPED;
    PressedNothing(p4);
    PressedCons(p3, x, []);
    assert Pressed(p3, [x]) == (p4, None);
    PressedCons(p2, o, [x]);
    assert Pressed(p2, [o, x]) == (p4, None);
    PressedCons(p1, b, [o, x]);
    assert Pressed(p1, [b, o, x]) == (p4, None);
    PressedCons(p, SLASH, [b, o, x]);
    assert Pressed(p, TYPED) == (p4, None);
  }

  lemma BoxIsAdHoc()
    ensures BoxAnchor(Live).host == Remote("box") == BoxSession().host
    ensures IsAdHoc(BoxAnchor(Live), ["box"]) && IsAdHoc(BoxSession(), ["box"])
  {
  }

  lemma BoxStatus()
    ensures ResolveStatus(Remote("box"), LiveHost([BOX_WORK])) == Answer(Remote("box"), Live, [BoxSession()])
  {
    assert [BOX_WORK][1..] == [];
    assert SessionRows([BOX_WORK], Remote("box")) == [BoxSession()];
  }

  lemma RunThree(s: Loop, events: seq<Event>)
    requires |events| == 3
    ensures Run(s, events) == Next(Next(Next(s, events[0]), events[1]), events[2])
  {
    hide Next;
    var two := events[..2];
    assert two[..1] == events[..1] && events[..1][..0] == [];
    assert Run(s, []) == s;
    assert Run(s, events[..1]) == Next(s, events[0]);
    assert Run(s, two) == Next(Run(s, events[..1]), events[1]);
  }

  /** In that reachable state the ad-hoc host stands above the divider and its session below. */
  lemma DividerInsideAdHocReached()
    ensures forall i :: 0 <= i < |FILTERED_DOWN| ==> FromFiles(FILTERED_DOWN[i])
    ensures var end := Run(Init(Local, Same, Screen(24, 80)), FILTERED_DOWN);
            && end.picker.Some?
            && var p := end.picker.value.0;
            && p.Visible() == [BoxAnchor(Live), BoxSession()]
            && IsAdHoc(BoxAnchor(Live), p.adhoc) && IsAdHoc(BoxSession(), p.adhoc)
            && NoHeader(LinesFrom(p.Visible(), p.adhoc, p.cursor, NOTHING_YET)) ==
               [RowLine(BoxAnchor(Live), p.adhoc, true), DIVIDER, RowLine(BoxSession(), p.adhoc, false)]
  {
    BoxAssembled();
    hide PickerRowsOf, RosterRowsOf, Resolved, Matching, Pressed, KeysIn, CurrentIndex, AnchorRow, Assembled, Forwarded;
    BoxOpens();
    BoxAnswers();
    BoxFiltered();
    var s0 := Init(Local, Same, Screen(24, 80));
    var s1 := Next(s0, FILTERED_DOWN[0]);
    var s2 := Next(s1, FILTERED_DOWN[1]);
    BoxStatus();
    assert s2.picker.value.0.rows == Opening() + [BoxAnchor(Live), BoxSession()];
    BoxTyped(s2.picker.value.0);
    var s3 := Next(s2, FILTERED_DOWN[2]);
    RunThree(s0, FILTERED_DOWN);
    var p := s3.picker.value.0;
    assert p.adhoc == ["box"] && p.lower == Same && p.filter == "box";
    BoxIsAdHoc();
    DividerInsideAdHoc(p, BoxAnchor(Live), BoxSession());
  }
}
