/** The session picker's row list: host anchors, each followed by that host's sessions, edited
    while query results stream in. */
module PickerRows {
  import opened Prelude

  datatype Host = Local | Remote(name: string)

  datatype RowKind = SessionRow | HostRow

  datatype RowStatus = Live | Empty | Unreachable | NeedsAuth | Pending | VersionMismatch(version: nat)

  datatype Row = Row(name: string, caption: string, host: Host, kind: RowKind, status: RowStatus)

  predicate IsAnchor(r: Row, host: Host) { r.kind == HostRow && r.host == host }

  predicate IsSessionOf(r: Row, host: Host) { r.kind == SessionRow && r.host == host }

  /** Every row is a session of `host`. */
  predicate AllSessionsOf(rows: seq<Row>, host: Host) {
    forall i :: 0 <= i < |rows| ==> IsSessionOf(rows[i], host)
  }

  // --- editing ---

  function AnchorIndex(rows: seq<Row>, host: Host): (r: Option<nat>)
    ensures r.Some? ==> r.value < |rows| && IsAnchor(rows[r.value], host)
    ensures forall i :: 0 <= i < (if r.Some? then r.value else |rows|) ==> !IsAnchor(rows[i], host)
  {
    if rows == [] then None
    else if IsAnchor(rows[0], host) then Some(0)
    else
      match AnchorIndex(rows[1..], host)
      case Some(i) =>
        assert rows[1 + i] == rows[1..][i];
        assert forall k :: 1 <= k < 1 + i ==> rows[k] == rows[1..][k - 1];
        Some(1 + i)
      case None =>
        assert forall k :: 1 <= k < |rows| ==> rows[k] == rows[1..][k - 1];
        None
  }

  function WithoutSessionsOf(rows: seq<Row>, host: Host): seq<Row> {
    Filter(rows, (r: Row) => !IsSessionOf(r, host))
  }

  /** Puts `sessions` right behind the host's (first) anchor and sets the anchor's status. */
  function Splice(rows: seq<Row>, host: Host, status: RowStatus, sessions: seq<Row>): seq<Row> {
    match AnchorIndex(rows, host)
    case Some(i) => rows[..i] + ([rows[i].(status := status)] + sessions) + rows[i + 1..]
    case None => rows
  }

  /** One query result folded in. */
  function Resolved(rows: seq<Row>, host: Host, status: RowStatus, sessions: seq<Row>): seq<Row> {
    Splice(WithoutSessionsOf(rows, host), host, status, sessions)
  }

  function WithoutSession(rows: seq<Row>, host: Host, name: string): seq<Row> {
    Filter(rows, (r: Row) => !(IsSessionOf(r, host) && r.name == name))
  }

  function OfDaemon(rows: seq<Row>, current: Option<Host>): seq<Row> {
    Filter(rows, (r: Row) => Some(r.host) == current)
  }

  function OthersReplaced(rows: seq<Row>, current: Option<Host>, others: seq<Row>): seq<Row> {
    OfDaemon(rows, current) + others
  }

  // --- grouping ---

  /** The hosts of the anchors, in order. */
  function Anchors(rows: seq<Row>): seq<Host> {
    if rows == [] then []
    else (if rows[0].kind == HostRow then [rows[0].host] else []) + Anchors(rows[1..])
  }

  predicate Distinct(hosts: seq<Host>) {
    forall i, j :: 0 <= i < j < |hosts| ==> hosts[i] != hosts[j]
  }

  /** Reading on behind the anchor of `group` (if any), sessions belong to the last anchor read. */
  predicate GroupedFrom(rows: seq<Row>, group: Option<Host>) {
    rows == [] ||
    (if rows[0].kind == HostRow then GroupedFrom(rows[1..], Some(rows[0].host))
     else Some(rows[0].host) == group && GroupedFrom(rows[1..], group))
  }

  predicate Grouped(rows: seq<Row>) {
    Distinct(Anchors(rows)) && GroupedFrom(rows, None)
  }

  /** `rows[j]` is the anchor of session row `i`, and only that host's sessions lie between. */
  predicate AnchoredAt(rows: seq<Row>, i: nat, j: nat) {
    && j < i < |rows| && IsAnchor(rows[j], rows[i].host)
    && forall k :: j < k < i ==> IsSessionOf(rows[k], rows[i].host)
  }

  lemma {:induction false} GroupedFromMeaning(rows: seq<Row>, group: Option<Host>, i: nat)
    requires GroupedFrom(rows, group) && i < |rows| && rows[i].kind == SessionRow
    ensures (exists j :: 0 <= j < i && AnchoredAt(rows, i, j))
         || (Some(rows[i].host) == group && forall k :: 0 <= k < i ==> IsSessionOf(rows[k], rows[i].host))
  {
    if i > 0 {
      var next := if rows[0].kind == HostRow then Some(rows[0].host) else group;
      GroupedFromMeaning(rows[1..], next, i - 1);
      var tail, at := rows[1..], i - 1;
      if j :| 0 <= j < at && AnchoredAt(tail, at, j) {
        assert forall k :: j < k < i - 1 ==> rows[1..][k] == rows[k + 1];
        assert AnchoredAt(rows, i, j + 1);
      } else {
        assert forall k :: 0 <= k < i - 1 ==> rows[1..][k] == rows[k + 1];
        assert rows[0].kind == HostRow ==> AnchoredAt(rows, i, 0);
      }
    }
  }

  lemma {:induction false} AnchorAt(rows: seq<Row>, i: nat)
    requires i < |rows| && rows[i].kind == HostRow
    ensures rows[i].host in Anchors(rows)
  {
    if i > 0 {
      AnchorAt(rows[1..], i - 1);
    }
  }

  lemma DistinctConcat(a: seq<Host>, b: seq<Host>)
    ensures Distinct(a + b) <==> Distinct(a) && Distinct(b) && forall h :: h in a ==> h !in b
  {
    var all := a + b;
    assert forall i :: 0 <= i < |a| ==> all[i] == a[i];
    assert forall i :: 0 <= i < |b| ==> all[|a| + i] == b[i];
    if Distinct(all) {
      forall h | h in a
        ensures h !in b
      {
        var i :| 0 <= i < |a| && a[i] == h;
        assert forall j :: 0 <= j < |b| ==> b[j] == all[|a| + j] && all[|a| + j] != all[i];
      }
    } else if Distinct(a) && Distinct(b) {
      var i, j :| 0 <= i < j < |all| && all[i] == all[j];
      assert i < |a| <= j;
      assert a[i] in a && b[j - |a|] in b;
    }
  }

  lemma {:induction false} AnchorsCons(r: Row, rest: seq<Row>)
    ensures Anchors([r] + rest) == (if r.kind == HostRow then [r.host] else []) + Anchors(rest)
    ensures Distinct(Anchors([r] + rest)) <==>
            Distinct(Anchors(rest)) && (r.kind == HostRow ==> r.host !in Anchors(rest))
  {
    assert ([r] + rest)[1..] == rest;
    DistinctConcat([r.host], Anchors(rest));
    assert [] + Anchors(rest) == Anchors(rest);
  }

  lemma {:induction false} DistinctAnchors(rows: seq<Row>)
    requires Distinct(Anchors(rows))
    ensures forall i, j :: 0 <= i < j < |rows| && rows[i].kind == HostRow && rows[j].kind == HostRow ==>
              rows[i].host != rows[j].host
  {
    if rows != [] {
      assert rows == [rows[0]] + rows[1..];
      AnchorsCons(rows[0], rows[1..]);
      DistinctAnchors(rows[1..]);
      forall j | 1 <= j < |rows| && rows[j].kind == HostRow
        ensures rows[j].host in Anchors(rows[1..])
      {
        AnchorAt(rows[1..], j - 1);
      }
    }
  }

  /** In a grouped list each host has at most one anchor, and each session lies in the unbroken
      run of its host's sessions that starts right behind that host's anchor. */
  lemma {:induction false} GroupedMeaning(rows: seq<Row>)
    requires Grouped(rows)
    ensures forall i :: 0 <= i < |rows| && rows[i].kind == SessionRow ==>
              exists j :: 0 <= j < i && AnchoredAt(rows, i, j)
    ensures forall i, j :: 0 <= i < j < |rows| && rows[i].kind == HostRow && rows[j].kind == HostRow ==>
              rows[i].host != rows[j].host
  {
    forall i | 0 <= i < |rows| && rows[i].kind == SessionRow
      ensures exists j :: 0 <= j < i && AnchoredAt(rows, i, j)
    {
      GroupedFromMeaning(rows, None, i);
    }
    DistinctAnchors(rows);
  }

  // --- grouping is kept ---

  lemma {:induction false} AnchorsAppend(a: seq<Row>, b: seq<Row>)
    ensures Anchors(a + b) == Anchors(a) + Anchors(b)
  {
    if a == [] {
      assert a + b == b;
      assert [] + Anchors(b) == Anchors(b);
    } else {
      var head := if a[0].kind == HostRow then [a[0].host] else [];
      assert (a + b)[1..] == a[1..] + b;
      AnchorsAppend(a[1..], b);
      ConcatAssociative(head, Anchors(a[1..]), Anchors(b));
    }
  }

  lemma {:induction false} SessionsHaveNoAnchors(sessions: seq<Row>, host: Host)
    requires AllSessionsOf(sessions, host)
    ensures Anchors(sessions) == []
    ensures GroupedFrom(sessions, Some(host))
  {
    if sessions != [] {
      SessionsHaveNoAnchors(sessions[1..], host);
    }
  }

  lemma {:induction false} DropSessionsGrouped(rows: seq<Row>, keep: Row -> bool, group: Option<Host>)
    requires GroupedFrom(rows, group) && forall r :: r in rows && r.kind == HostRow ==> keep(r)
    ensures GroupedFrom(Filter(rows, keep), group)
    ensures Anchors(Filter(rows, keep)) == Anchors(rows)
  {
    if rows != [] {
      var r, rest := rows[0], rows[1..];
      DropSessionsGrouped(rest, keep, if r.kind == HostRow then Some(r.host) else group);
      if keep(r) {
        assert ([r] + Filter(rest, keep))[1..] == Filter(rest, keep);
      } else {
        assert [] + Filter(rest, keep) == Filter(rest, keep);
      }
    }
  }

  lemma WithoutSessionGrouped(rows: seq<Row>, host: Host, name: string)
    requires Grouped(rows)
    ensures Grouped(WithoutSession(rows, host, name))
    ensures Anchors(WithoutSession(rows, host, name)) == Anchors(rows)
  {
    DropSessionsGrouped(rows, (r: Row) => !(IsSessionOf(r, host) && r.name == name), None);
  }

  /** Keeping one daemon's rows keeps its whole group, anchor first. */
  lemma {:induction false} OfDaemonGrouped(rows: seq<Row>, current: Option<Host>, group: Option<Host>, group': Option<Host>)
    requires GroupedFrom(rows, group)
    requires group.Some? && group == current ==> group' == group
    ensures GroupedFrom(OfDaemon(rows, current), group')
  {
    if rows != [] {
      var r, rest := rows[0], rows[1..];
      var kept := OfDaemon(rest, current);
      var next := if r.kind == HostRow then Some(r.host) else group;
      OfDaemonGrouped(rest, current, next, if r.kind == HostRow && Some(r.host) == current then next else group');
      if Some(r.host) == current {
        assert ([r] + kept)[1..] == kept;
      } else {
        assert [] + kept == kept;
      }
    }
  }

  lemma NoneDistinct()
    ensures Distinct([])
  {
  }

  lemma {:induction false} OfDaemonAnchors(rows: seq<Row>, current: Option<Host>)
    requires Distinct(Anchors(rows))
    ensures Distinct(Anchors(OfDaemon(rows, current)))
    ensures forall h :: h in Anchors(OfDaemon(rows, current)) ==> Some(h) == current && h in Anchors(rows)
  {
    hide Distinct;
    if rows == [] {
      NoneDistinct();
    } else {
      var r, rest := rows[0], rows[1..];
      var kept := OfDaemon(rest, current);
      assert rows == [r] + rest;
      AnchorsCons(r, rest);
      AnchorsCons(r, kept);
      OfDaemonAnchors(rest, current);
      if Some(r.host) != current {
        assert [] + kept == kept;
      }
    }
  }

  lemma {:induction false} GroupedConcat(a: seq<Row>, b: seq<Row>, group: Option<Host>)
    requires GroupedFrom(a, group) && GroupedFrom(b, None)
    ensures GroupedFrom(a + b, group)
  {
    if a == [] {
      assert a + b == b;
      assert b != [] ==> b[0].kind == HostRow;
    } else {
      assert (a + b)[1..] == a[1..] + b;
      GroupedConcat(a[1..], b, if a[0].kind == HostRow then Some(a[0].host) else group);
    }
  }

  /** Rows assembled for the daemons other than `current`. */
  predicate Fresh(others: seq<Row>, current: Option<Host>) {
    Grouped(others) && forall h :: h in Anchors(others) ==> Some(h) != current
  }

  lemma OthersReplacedGrouped(rows: seq<Row>, current: Option<Host>, others: seq<Row>)
    requires Grouped(rows) && Fresh(others, current)
    ensures Grouped(OthersReplaced(rows, current, others))
  {
    OfDaemonGrouped(rows, current, None, None);
    OfDaemonAnchors(rows, current);
    GroupedConcat(OfDaemon(rows, current), others, None);
    AnchorsAppend(OfDaemon(rows, current), others);
    DistinctConcat(Anchors(OfDaemon(rows, current)), Anchors(others));
  }

  /** Removing a session takes its rows and no other; replacing the other daemons' rows keeps the
      attached daemon's, first and in place. */
  lemma {:induction false} EditsMeaning(rows: seq<Row>, host: Host, name: string, current: Option<Host>, others: seq<Row>, r: Row)
    ensures r in WithoutSession(rows, host, name) <==>
            r in rows && !(r.kind == SessionRow && r.host == host && r.name == name)
    ensures r in OthersReplaced(rows, current, others) <==> (r in rows && Some(r.host) == current) || r in others
    ensures Filter(rows, (x: Row) => Some(x.host) == current) <= OthersReplaced(rows, current, others)
  {
    FilterMember(rows, (x: Row) => !(IsSessionOf(x, host) && x.name == name), r);
    FilterMember(rows, (x: Row) => Some(x.host) == current, r);
  }
}
