/** Assembling the picker's row list from the roster and the sessions of the current daemon. */
module RowAssembly {
  import opened Prelude
  import opened Roster
  import opened PickerRows
  import opened Streaming

  function HostName(h: Host): string { match h case Local => "local" case Remote(name) => name }

  function AnchorRow(h: Host, status: RowStatus): Row {
    Row(HostName(h), HostName(h), h, HostRow, status)
  }

  datatype RosterRows = RosterRows(
    rows: seq<Row>, adhoc: seq<string>, remoteHosts: seq<(string, Option<string>)>, queryLocal: bool)

  predicate IsOther(h: RosterHost, attached: Option<Host>) { attached != Some(Remote(h.host)) }

  function Others(roster: seq<RosterHost>, attached: Option<Host>): seq<RosterHost> {
    Filter(roster, (h: RosterHost) => IsOther(h, attached))
  }

  function RemoteAnchors(hosts: seq<RosterHost>): seq<Row> {
    if hosts == [] then [] else [AnchorRow(Remote(hosts[0].host), Pending)] + RemoteAnchors(hosts[1..])
  }

  function AdHocNames(hosts: seq<RosterHost>): seq<string> {
    if hosts == [] then []
    else (if hosts[0].source == AdHoc then [hosts[0].host] else []) + AdHocNames(hosts[1..])
  }

  function Queries(hosts: seq<RosterHost>): seq<(string, Option<string>)> {
    if hosts == [] then [] else [(hosts[0].host, hosts[0].bin)] + Queries(hosts[1..])
  }

  /** Pending anchors for every daemon but the attached one: the local one first, then the roster. */
  function RosterRowsOf(roster: seq<RosterHost>, attached: Option<Host>): RosterRows {
    var queryLocal := attached != Some(Local);
    var others := Others(roster, attached);
    RosterRows((if queryLocal then [AnchorRow(Local, Pending)] else []) + RemoteAnchors(others),
               AdHocNames(others), Queries(others), queryLocal)
  }

  lemma {:induction false} SnocLists(hosts: seq<RosterHost>, h: RosterHost)
    ensures RemoteAnchors(hosts + [h]) == RemoteAnchors(hosts) + [AnchorRow(Remote(h.host), Pending)]
    ensures AdHocNames(hosts + [h]) == AdHocNames(hosts) + (if h.source == AdHoc then [h.host] else [])
    ensures Queries(hosts + [h]) == Queries(hosts) + [(h.host, h.bin)]
  {
    if hosts == [] {
      assert (hosts + [h])[1..] == [];
    } else {
      var rest, first := hosts[1..], hosts[0];
      assert (hosts + [h])[1..] == rest + [h];
      SnocLists(rest, h);
      ConcatAssociative([AnchorRow(Remote(first.host), Pending)], RemoteAnchors(rest), [AnchorRow(Remote(h.host), Pending)]);
      ConcatAssociative(if first.source == AdHoc then [first.host] else [], AdHocNames(rest),
                        if h.source == AdHoc then [h.host] else []);
      ConcatAssociative([(first.host, first.bin)], Queries(rest), [(h.host, h.bin)]);
    }
  }

  lemma {:induction false} OthersSnoc(roster: seq<RosterHost>, i: nat, attached: Option<Host>)
    requires i < |roster|
    ensures var others, h := Others(roster[..i], attached), roster[i];
            var more := Others(roster[..i + 1], attached);
            if IsOther(h, attached) then
              && more == others + [h]
              && RemoteAnchors(more) == RemoteAnchors(others) + [AnchorRow(Remote(h.host), Pending)]
              && AdHocNames(more) == AdHocNames(others) + (if h.source == AdHoc then [h.host] else [])
              && Queries(more) == Queries(others) + [(h.host, h.bin)]
            else more == others
  {
    var p := (h: RosterHost) => IsOther(h, attached);
    assert roster[..i + 1] == roster[..i] + [roster[i]];
    FilterAppend(roster[..i], [roster[i]], p);
    var others := Others(roster[..i], attached);
    if IsOther(roster[i], attached) {
      SnocLists(others, roster[i]);
    } else {
      assert others + [] == others;
    }
  }

  method BuildRosterRows(roster: seq<RosterHost>, attached: Option<Host>) returns (r: RosterRows)
    ensures r == RosterRowsOf(roster, attached)
  {
    var queryLocal := attached != Some(Local);
    var rows: seq<Row> := [];
    if queryLocal {
      rows := rows + [AnchorRow(Local, Pending)];
    }
    ghost var local := rows;
    var remoteHosts: seq<(string, Option<string>)>, adhoc: seq<string> := [], [];
    for i := 0 to |roster|
      invariant rows == local + RemoteAnchors(Others(roster[..i], attached))
      invariant adhoc == AdHocNames(Others(roster[..i], attached))
      invariant remoteHosts == Queries(Others(roster[..i], attached))
    {
      var h := roster[i];
      OthersSnoc(roster, i, attached);
      if attached == Some(Remote(h.host)) {
        continue;
      }
      if h.source == AdHoc {
        adhoc := adhoc + [h.host];
      }
      rows := rows + [AnchorRow(Remote(h.host), Pending)];
      remoteHosts := remoteHosts + [(h.host, h.bin)];
    }
    assert roster[..|roster|] == roster;
    r := RosterRows(rows, adhoc, remoteHosts, queryLocal);
  }

  datatype SessionEntry = SessionEntry(name: string, caption: string)

  function SessionRows(entries: seq<SessionEntry>, host: Host): (rows: seq<Row>)
    ensures AllSessionsOf(rows, host) && |rows| == |entries|
    ensures forall i :: 0 <= i < |rows| ==> rows[i] == Row(entries[i].name, entries[i].caption, host, SessionRow, Live)
  {
    if entries == [] then []
    else [Row(entries[0].name, entries[0].caption, host, SessionRow, Live)] + SessionRows(entries[1..], host)
  }

  datatype HostStatus =
    | LiveHost(entries: seq<SessionEntry>) | EmptyHost | UnreachableHost | NeedsAuthHost
    | VersionMismatchHost(version: nat)

  /** What a query answer means for the list: its rows are the sessions of the host that answered, in
      its order, and there are some only if it is live. */
  function ResolveStatus(host: Host, hs: HostStatus): (r: Answer)
    ensures Tagged(r) && r.host == host
    ensures r.status == Live <==> hs.LiveHost?
    ensures r.status == Empty <==> hs.EmptyHost?
    ensures r.status == Unreachable <==> hs.UnreachableHost?
    ensures r.status == NeedsAuth <==> hs.NeedsAuthHost?
    ensures forall v :: r.status == VersionMismatch(v) <==> hs == VersionMismatchHost(v)
    ensures |r.sessions| == if hs.LiveHost? then |hs.entries| else 0
    ensures forall i :: 0 <= i < |r.sessions| ==>
              r.sessions[i] == Row(hs.entries[i].name, hs.entries[i].caption, host, SessionRow, Live)
  {
    match hs
    case LiveHost(entries) => Answer(host, Live, SessionRows(entries, host))
    case EmptyHost => Answer(host, Empty, [])
    case UnreachableHost => Answer(host, Unreachable, [])
    case NeedsAuthHost => Answer(host, NeedsAuth, [])
    case VersionMismatchHost(v) => Answer(host, VersionMismatch(v), [])
  }

  /** The list the picker opens with: the current daemon with its sessions, then the others. */
  function PickerRowsOf(entries: seq<SessionEntry>, current: Host, roster: seq<RosterHost>): seq<Row> {
    [AnchorRow(current, Live)] + SessionRows(entries, current) + RosterRowsOf(roster, Some(current)).rows
  }

  lemma {:induction false} SessionRowsSnoc(entries: seq<SessionEntry>, e: SessionEntry, host: Host)
    ensures SessionRows(entries + [e], host) ==
            SessionRows(entries, host) + [Row(e.name, e.caption, host, SessionRow, Live)]
  {
    if entries == [] {
      assert (entries + [e])[1..] == [];
    } else {
      assert (entries + [e])[1..] == entries[1..] + [e];
      SessionRowsSnoc(entries[1..], e, host);
    }
  }

  method BuildPickerRows(entries: seq<SessionEntry>, current: Host, roster: seq<RosterHost>) returns (r: RosterRows)
    ensures r == RosterRowsOf(roster, Some(current)).(rows := PickerRowsOf(entries, current, roster))
  {
    var rows := [AnchorRow(current, Live)];
    for i := 0 to |entries|
      invariant rows == [AnchorRow(current, Live)] + SessionRows(entries[..i], current)
    {
      assert entries[..i + 1] == entries[..i] + [entries[i]];
      SessionRowsSnoc(entries[..i], entries[i], current);
      rows := rows + [Row(entries[i].name, entries[i].caption, current, SessionRow, Live)];
    }
    assert entries[..|entries|] == entries;
    var others := BuildRosterRows(roster, Some(current));
    r := others.(rows := rows + others.rows);
  }

  predicate DistinctHosts(roster: seq<RosterHost>) {
    forall i, j :: 0 <= i < j < |roster| ==> roster[i].host != roster[j].host
  }

  lemma {:induction false} OthersDistinct(roster: seq<RosterHost>, attached: Option<Host>)
    requires DistinctHosts(roster)
    ensures DistinctHosts(Others(roster, attached))
    ensures forall h :: h in Others(roster, attached) ==> h in roster && IsOther(h, attached)
  {
    if roster != [] {
      var first, rest := roster[0], roster[1..];
      var others := Others(rest, attached);
      OthersDistinct(rest, attached);
      assert forall k :: 0 <= k < |rest| ==> rest[k] == roster[k + 1];
      assert forall h :: h in rest ==> h.host != first.host;
      assert Others(roster, attached) == (if IsOther(first, attached) then [first] else []) + others;
      assert forall k :: 0 <= k < |others| ==> others[k] in others;
    }
  }

  lemma {:induction false} RemoteAnchorsGrouped(hosts: seq<RosterHost>, group: Option<Host>)
    requires DistinctHosts(hosts)
    ensures GroupedFrom(RemoteAnchors(hosts), group)
    ensures var hs := Anchors(RemoteAnchors(hosts));
            |hs| == |hosts| && forall i :: 0 <= i < |hs| ==> hs[i] == Remote(hosts[i].host)
  {
    if hosts != [] {
      var first, rest := AnchorRow(Remote(hosts[0].host), Pending), RemoteAnchors(hosts[1..]);
      RemoteAnchorsGrouped(hosts[1..], Some(first.host));
      assert ([first] + rest)[1..] == rest;
    }
  }

  lemma RemoteAnchorsFresh(roster: seq<RosterHost>, attached: Option<Host>)
    requires DistinctHosts(roster)
    ensures var hs := Anchors(RemoteAnchors(Others(roster, attached)));
            Distinct(hs) && forall h :: h in hs ==> Some(h) != attached && h != Local
  {
    var others := Others(roster, attached);
    OthersDistinct(roster, attached);
    RemoteAnchorsGrouped(others, None);
    hide Others, RemoteAnchors, Anchors, GroupedFrom;
    var hs := Anchors(RemoteAnchors(others));
    assert forall i :: 0 <= i < |hs| ==> hs[i] == Remote(others[i].host) && others[i] in others;
  }

  /** Freshly built rows are grouped and never mention the attached daemon. */
  lemma RosterRowsFresh(roster: seq<RosterHost>, attached: Option<Host>)
    requires DistinctHosts(roster)
    ensures Fresh(RosterRowsOf(roster, attached).rows, attached)
  {
    var others := Others(roster, attached);
    OthersDistinct(roster, attached);
    RemoteAnchorsGrouped(others, None);
    var remote := RemoteAnchors(others);
    RemoteAnchorsFresh(roster, attached);
    RemoteAnchorsGrouped(others, Some(Local));
    hide Others, RemoteAnchors, Distinct;
    if attached != Some(Local) {
      var local := AnchorRow(Local, Pending);
      AnchorsCons(local, remote);
      GroupedFromCons(local, remote, None);
      hide Anchors, GroupedFrom;
    } else {
      assert [] + remote == remote;
    }
  }

  /** The list the picker opens with is grouped. */
  lemma PickerRowsGrouped(entries: seq<SessionEntry>, current: Host, roster: seq<RosterHost>)
    requires DistinctHosts(roster)
    ensures Grouped(PickerRowsOf(entries, current, roster))
  {
    var anchor, sessions := AnchorRow(current, Live), SessionRows(entries, current);
    var others := RosterRowsOf(roster, Some(current)).rows;
    RosterRowsFresh(roster, Some(current));
    SessionsHaveNoAnchors(sessions, current);
    GroupedConcat(sessions, others, Some(current));
    AnchorsAppend(sessions, others);
    AnchorsCons(anchor, sessions + others);
    var rows := [anchor] + (sessions + others);
    assert rows[1..] == sessions + others;
    assert [] + Anchors(others) == Anchors(others);
    assert PickerRowsOf(entries, current, roster) == rows;
  }

  lemma {:induction false} AdHocNamesAre(hosts: seq<RosterHost>, name: string)
    ensures name in AdHocNames(hosts) <==> exists i :: 0 <= i < |hosts| && hosts[i].source == AdHoc && hosts[i].host == name
  {
    if hosts != [] {
      AdHocNamesAre(hosts[1..], name);
      assert forall i :: 1 <= i < |hosts| ==> hosts[i] == hosts[1..][i - 1];
    }
  }

  lemma {:induction false} RemoteAnchorsAt(hosts: seq<RosterHost>)
    ensures |RemoteAnchors(hosts)| == |hosts|
    ensures forall i :: 0 <= i < |hosts| ==>
              RemoteAnchors(hosts)[i] == Row(hosts[i].host, hosts[i].host, Remote(hosts[i].host), HostRow, Pending)
  {
    if hosts != [] {
      RemoteAnchorsAt(hosts[1..]);
    }
  }

  lemma {:induction false} QueriesAt(hosts: seq<RosterHost>)
    ensures |Queries(hosts)| == |hosts|
    ensures forall i :: 0 <= i < |hosts| ==> Queries(hosts)[i] == (hosts[i].host, hosts[i].bin)
  {
    if hosts != [] {
      QueriesAt(hosts[1..]);
    }
  }

  lemma {:induction false} OthersKeep(roster: seq<RosterHost>, attached: Option<Host>, name: string)
    ensures var others := Others(roster, attached);
            (exists i :: 0 <= i < |others| && others[i].source == AdHoc && others[i].host == name) <==>
            (exists i :: 0 <= i < |roster| && roster[i].source == AdHoc && roster[i].host == name && Some(Remote(name)) != attached)
  {
    var others := Others(roster, attached);
    forall h: RosterHost ensures h in others <==> h in roster && IsOther(h, attached) {
      FilterMember(roster, (x: RosterHost) => IsOther(x, attached), h);
    }
    hide Others;
    assert forall i :: 0 <= i < |others| ==> others[i] in others && others[i] in roster;
    assert forall i :: 0 <= i < |roster| ==> roster[i] in roster;
  }

  /** Every daemon but the attached one gets a pending anchor under its own name and is queried: the
      local one, first, exactly when another is attached; then the roster's others in their order.
      The ad-hoc names are those of the ad-hoc ones among them. */
  lemma {:induction false} RosterRowsCover(roster: seq<RosterHost>, attached: Option<Host>, name: string)
    ensures var built := RosterRowsOf(roster, attached);
            var others := Filter(roster, (h: RosterHost) => Some(Remote(h.host)) != attached);
            var n := if attached == Some(Local) then 0 else 1;
            && |built.rows| == n + |others| && |built.remoteHosts| == |others|
            && (n == 1 ==> built.rows[0] == Row("local", "local", Local, HostRow, Pending))
            && (built.queryLocal <==> n == 1)
            && (forall i :: 0 <= i < |others| ==>
                 && built.rows[n + i] == Row(others[i].host, others[i].host, Remote(others[i].host), HostRow, Pending)
                 && built.remoteHosts[i] == (others[i].host, others[i].bin))
            && (name in built.adhoc <==>
                exists i :: 0 <= i < |roster| && roster[i].source == AdHoc && roster[i].host == name && Some(Remote(name)) != attached)
  {
    var others := Others(roster, attached);
    FilterSame(roster, (h: RosterHost) => IsOther(h, attached), (h: RosterHost) => Some(Remote(h.host)) != attached);
    RemoteAnchorsAt(others);
    QueriesAt(others);
    AdHocNamesAre(others, name);
    OthersKeep(roster, attached, name);
  }
}
