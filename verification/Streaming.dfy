/** Query results streaming into the picker's row list: folding them in one by one, in whatever
    order they arrive, places every host's sessions as a single pass over the list would. */
module Streaming {
  import opened Prelude
  import opened PickerRows

  // --- placing every host's sessions in one pass ---

  type Results = map<Host, (RowStatus, seq<Row>)>

  /** What stands in for one row: an anchor that has a result takes its status and is followed
      by its sessions; an old session of a host with a result goes; other rows stay. */
  function Placed(r: Row, results: Results): seq<Row> {
    if r.host !in results then [r]
    else if r.kind == SessionRow then []
    else [r.(status := results[r.host].0)] + results[r.host].1
  }

  /** All results at once. */
  function OnePass(rows: seq<Row>, results: Results): seq<Row> {
    if rows == [] then [] else Placed(rows[0], results) + OnePass(rows[1..], results)
  }

  /** Every result brings only sessions of its own host. */
  ghost predicate WellTagged(results: Results) {
    forall h :: h in results ==> AllSessionsOf(results[h].1, h)
  }

  lemma {:induction false} OnePassAppend(a: seq<Row>, b: seq<Row>, results: Results)
    ensures OnePass(a + b, results) == OnePass(a, results) + OnePass(b, results)
  {
    if a == [] {
      assert a + b == b;
    } else {
      assert (a + b)[1..] == a[1..] + b;
      OnePassAppend(a[1..], b, results);
    }
  }

  /** Sessions of one host under the results of one host: all dropped, or all untouched. */
  lemma {:induction false} OnePassSessions(sessions: seq<Row>, host: Host, results: Results)
    requires AllSessionsOf(sessions, host)
    ensures OnePass(sessions, results) == if host in results then [] else sessions
  {
    if sessions != [] {
      OnePassSessions(sessions[1..], host, results);
      assert sessions == [sessions[0]] + sessions[1..];
    }
  }

  /** Results with no anchor in the list only remove sessions. */
  lemma {:induction false} OnePassNoAnchor(rows: seq<Row>, host: Host, result: (RowStatus, seq<Row>))
    requires host !in Anchors(rows)
    ensures OnePass(rows, map[host := result]) == WithoutSessionsOf(rows, host)
  {
    if rows != [] {
      assert rows[0].kind == HostRow ==> rows[0].host == Anchors(rows)[0];
      OnePassNoAnchor(rows[1..], host, result);
    }
  }

  lemma {:induction false} AnchorIndexCons(r: Row, rest: seq<Row>, host: Host)
    ensures AnchorIndex([r] + rest, host) ==
            if IsAnchor(r, host) then Some(0)
            else match AnchorIndex(rest, host) case Some(i) => Some(1 + i) case None => None
  {
    assert ([r] + rest)[1..] == rest;
  }

  lemma CutFirst(r: Row, rest: seq<Row>, middle: seq<Row>)
    ensures ([r] + rest)[..0] + middle + ([r] + rest)[1..] == middle + rest
  {
    assert ([r] + rest)[1..] == rest && ([r] + rest)[..0] + middle == middle;
  }

  lemma ShiftCut(r: Row, rest: seq<Row>, i: nat, middle: seq<Row>)
    requires i < |rest|
    ensures ([r] + rest)[1 + i] == rest[i]
    ensures ([r] + rest)[..1 + i] + middle + ([r] + rest)[1 + i + 1..] == [r] + (rest[..i] + middle + rest[i + 1..])
  {
    var rows := [r] + rest;
    assert rows[..1 + i] == [r] + rest[..i] && rows[1 + i + 1..] == rest[i + 1..];
  }

  lemma {:induction false} SpliceCons(r: Row, rest: seq<Row>, host: Host, status: RowStatus, sessions: seq<Row>)
    ensures Splice([r] + rest, host, status, sessions) ==
            if IsAnchor(r, host) then [r.(status := status)] + sessions + rest
            else [r] + Splice(rest, host, status, sessions)
  {
    AnchorIndexCons(r, rest, host);
    hide AnchorIndex, IsAnchor;
    if IsAnchor(r, host) {
      CutFirst(r, rest, [r.(status := status)] + sessions);
    } else if AnchorIndex(rest, host).Some? {
      var i := AnchorIndex(rest, host).value;
      ShiftCut(r, rest, i, [rest[i].(status := status)] + sessions);
    }
  }

  lemma SpliceNothing(host: Host, status: RowStatus, sessions: seq<Row>)
    ensures Splice([], host, status, sessions) == []
  {
  }

  /** Folding in one result is the one-pass placement of that result. */
  lemma {:induction false} ResolvedIsOnePass(rows: seq<Row>, host: Host, status: RowStatus, sessions: seq<Row>)
    requires Distinct(Anchors(rows))
    ensures Resolved(rows, host, status, sessions) == OnePass(rows, map[host := (status, sessions)])
  {
    hide Splice, Distinct;
    if rows == [] {
      SpliceNothing(host, status, sessions);
    } else {
      var r, rest := rows[0], rows[1..];
      var kept := WithoutSessionsOf(rest, host);
      assert rows == [r] + rest;
      AnchorsCons(r, rest);
      SpliceCons(r, kept, host, status, sessions);
      if IsAnchor(r, host) {
        OnePassNoAnchor(rest, host, (status, sessions));
      } else {
        ResolvedIsOnePass(rest, host, status, sessions);
        if IsSessionOf(r, host) {
          assert [] + kept == kept;
        }
      }
    }
  }

  lemma {:induction false} PlacedCompose(r: Row, results: Results, host: Host, result: (RowStatus, seq<Row>))
    requires WellTagged(results)
    ensures OnePass(Placed(r, results), map[host := result]) == Placed(r, results[host := result])
  {
    var later: Results := map[host := result];
    if r.host in results && r.kind == HostRow {
      var (status, sessions) := results[r.host];
      OnePassAppend([r.(status := status)], sessions, later);
      OnePassSessions(sessions, r.host, later);
    }
  }

  /** Later results override earlier ones for the same host and leave the others alone. */
  lemma {:induction false} OnePassCompose(rows: seq<Row>, results: Results, host: Host, result: (RowStatus, seq<Row>))
    requires WellTagged(results)
    ensures OnePass(OnePass(rows, results), map[host := result]) == OnePass(rows, results[host := result])
  {
    if rows != [] {
      OnePassCompose(rows[1..], results, host, result);
      OnePassAppend(Placed(rows[0], results), OnePass(rows[1..], results), map[host := result]);
      PlacedCompose(rows[0], results, host, result);
    }
  }

  lemma {:induction false} PlacedAnchors(r: Row, results: Results)
    requires WellTagged(results)
    ensures Anchors(Placed(r, results)) == if r.kind == HostRow then [r.host] else []
  {
    if r.host in results && r.kind == HostRow {
      var (status, sessions) := results[r.host];
      SessionsHaveNoAnchors(sessions, r.host);
      AnchorsAppend([r.(status := status)], sessions);
    }
  }

  lemma {:induction false} OnePassAnchors(rows: seq<Row>, results: Results)
    requires WellTagged(results)
    ensures Anchors(OnePass(rows, results)) == Anchors(rows)
  {
    if rows != [] {
      OnePassAnchors(rows[1..], results);
      PlacedAnchors(rows[0], results);
      AnchorsAppend(Placed(rows[0], results), OnePass(rows[1..], results));
    }
  }

  // --- streaming ---

  datatype Answer = Answer(host: Host, status: RowStatus, sessions: seq<Row>)

  predicate Tagged(result: Answer) { AllSessionsOf(result.sessions, result.host) }

  /** The results folded in one after another, as they arrive. */
  function FoldResults(rows: seq<Row>, results: seq<Answer>): seq<Row> {
    if results == [] then rows
    else
      var last := results[|results| - 1];
      Resolved(FoldResults(rows, results[..|results| - 1]), last.host, last.status, last.sessions)
  }

  /** The last result of each host. */
  function Latest(results: seq<Answer>): Results {
    if results == [] then map[]
    else
      var last := results[|results| - 1];
      Latest(results[..|results| - 1])[last.host := (last.status, last.sessions)]
  }

  lemma {:induction false} OnePassNothing(rows: seq<Row>)
    ensures OnePass(rows, map[]) == rows
  {
    if rows != [] {
      OnePassNothing(rows[1..]);
      assert rows == [rows[0]] + rows[1..];
    }
  }

  lemma {:induction false} LatestIsTagged(results: seq<Answer>)
    requires forall i :: 0 <= i < |results| ==> Tagged(results[i])
    ensures WellTagged(Latest(results))
  {
    if results != [] {
      LatestIsTagged(results[..|results| - 1]);
      assert Tagged(results[|results| - 1]);
    }
  }

  /** Streaming is one-pass placement: whatever the order of arrival, and however often a host
      answers, the list is the one that places each host's latest sessions behind its anchor. */
  lemma {:induction false} StreamingIsOnePass(rows: seq<Row>, results: seq<Answer>)
    requires Distinct(Anchors(rows))
    requires forall i :: 0 <= i < |results| ==> Tagged(results[i])
    ensures FoldResults(rows, results) == OnePass(rows, Latest(results))
  {
    if results == [] {
      OnePassNothing(rows);
    } else {
      var front, last := results[..|results| - 1], results[|results| - 1];
      StreamingIsOnePass(rows, front);
      LatestIsTagged(front);
      OnePassAnchors(rows, Latest(front));
      ResolvedIsOnePass(FoldResults(rows, front), last.host, last.status, last.sessions);
      OnePassCompose(rows, Latest(front), last.host, (last.status, last.sessions));
    }
  }

  /** One result per host. */
  predicate OncePerHost(results: seq<Answer>) {
    forall i, j :: 0 <= i < j < |results| ==> results[i].host != results[j].host
  }

  lemma {:induction false} LatestOfOnce(results: seq<Answer>, host: Host)
    requires OncePerHost(results)
    ensures host in Latest(results) <==> exists i :: 0 <= i < |results| && results[i].host == host
    ensures forall i :: 0 <= i < |results| && results[i].host == host ==>
              Latest(results)[host] == (results[i].status, results[i].sessions)
  {
    if results != [] {
      var front := results[..|results| - 1];
      LatestOfOnce(front, host);
      assert forall i :: 0 <= i < |front| ==> front[i] == results[i];
    }
  }

  /** Any order in which one answer per host arrives yields the same list. */
  lemma {:induction false} ArrivalOrderIndependence(rows: seq<Row>, a: seq<Answer>, b: seq<Answer>)
    requires Distinct(Anchors(rows))
    requires multiset(a) == multiset(b) && OncePerHost(a) && OncePerHost(b)
    requires forall r :: r in a ==> Tagged(r)
    ensures FoldResults(rows, a) == FoldResults(rows, b)
  {
    forall r: Answer
      ensures r in a <==> r in b
    {
      assert r in multiset(a) <==> r in multiset(b);
    }
    forall h: Host
      ensures h in Latest(a) <==> h in Latest(b)
      ensures h in Latest(a) ==> Latest(a)[h] == Latest(b)[h]
    {
      LatestOfOnce(a, h);
      LatestOfOnce(b, h);
      if i :| 0 <= i < |a| && a[i].host == h {
        assert a[i] in b;
      }
      if i :| 0 <= i < |b| && b[i].host == h {
        assert b[i] in a;
      }
    }
    assert Latest(a) == Latest(b);
    StreamingIsOnePass(rows, a);
    assert forall i :: 0 <= i < |b| ==> b[i] in a;
    StreamingIsOnePass(rows, b);
  }

  // --- grouping is kept ---

  lemma {:induction false} GroupedAppend(a: seq<Row>, b: seq<Row>, host: Host)
    requires AllSessionsOf(a, host) && GroupedFrom(b, Some(host))
    ensures GroupedFrom(a + b, Some(host))
  {
    if a == [] {
      assert a + b == b;
    } else {
      assert (a + b)[1..] == a[1..] + b;
      GroupedAppend(a[1..], b, host);
    }
  }

  lemma {:induction false} GroupedFromCons(r: Row, rest: seq<Row>, group: Option<Host>)
    ensures GroupedFrom([r] + rest, group) ==
            if r.kind == HostRow then GroupedFrom(rest, Some(r.host))
            else Some(r.host) == group && GroupedFrom(rest, group)
  {
    assert ([r] + rest)[1..] == rest;
  }

  lemma {:induction false} PlacedGrouped(r: Row, rest: seq<Row>, results: Results, group: Option<Host>)
    requires WellTagged(results) && (r.kind == HostRow || Some(r.host) == group)
    requires GroupedFrom(rest, if r.kind == HostRow then Some(r.host) else group)
    ensures GroupedFrom(Placed(r, results) + rest, group)
  {
    hide GroupedFrom;
    if r.host !in results {
      GroupedFromCons(r, rest, group);
    } else if r.kind == SessionRow {
      assert [] + rest == rest;
    } else {
      var (status, sessions) := results[r.host];
      GroupedAppend(sessions, rest, r.host);
      GroupedFromCons(r.(status := status), sessions + rest, group);
      assert Placed(r, results) + rest == [r.(status := status)] + (sessions + rest);
    }
  }

  lemma {:induction false} OnePassGrouped(rows: seq<Row>, results: Results, group: Option<Host>)
    requires GroupedFrom(rows, group) && WellTagged(results)
    ensures GroupedFrom(OnePass(rows, results), group)
  {
    hide WellTagged;
    if rows != [] {
      OnePassGrouped(rows[1..], results, if rows[0].kind == HostRow then Some(rows[0].host) else group);
      PlacedGrouped(rows[0], OnePass(rows[1..], results), results, group);
    }
  }

  /** A query result, whether or not its host is listed, keeps the list grouped. */
  lemma ResolvedGrouped(rows: seq<Row>, result: Answer)
    requires Grouped(rows) && Tagged(result)
    ensures Grouped(Resolved(rows, result.host, result.status, result.sessions))
    ensures Anchors(Resolved(rows, result.host, result.status, result.sessions)) == Anchors(rows)
  {
    var results: Results := map[result.host := (result.status, result.sessions)];
    ResolvedIsOnePass(rows, result.host, result.status, result.sessions);
    OnePassGrouped(rows, results, None);
    OnePassAnchors(rows, results);
  }
}
