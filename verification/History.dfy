/** The history palette's corpus: every session's finished commands, nearest first, capped. */
module History {
  import opened Prelude
  import opened StableSort

  datatype Block = Block(
    window: nat, windowIndex: nat, pane: nat, promptLine: nat,
    command: string, exit: Option<int>, duration: Option<nat>, haystack: string)

  datatype SessionHistory = SessionHistory(name: string, blocks: seq<Block>)

  datatype Entry = Entry(session: string, block: Block)

  const HISTORY_ENTRY_CAP := 2000

  /** 0 for the current pane, 1 for the rest of the current session, 2 for other sessions. */
  function Rank(e: Entry, session: string, pane: Option<nat>): nat {
    if e.session == session && Some(e.block.pane) == pane then 0
    else if e.session == session then 1
    else 2
  }

  function EntriesOf(name: string, blocks: seq<Block>): seq<Entry> {
    if blocks == [] then [] else EntriesOf(name, blocks[..|blocks| - 1]) + [Entry(name, blocks[|blocks| - 1])]
  }

  /** Every block of every session, in snapshot order. */
  function AllEntries(snaps: seq<SessionHistory>): seq<Entry> {
    if snaps == [] then []
    else AllEntries(snaps[..|snaps| - 1]) + EntriesOf(snaps[|snaps| - 1].name, snaps[|snaps| - 1].blocks)
  }

  function OfRank(entries: seq<Entry>, session: string, pane: Option<nat>, rank: nat): seq<Entry> {
    Filter(entries, (e: Entry) => Rank(e, session, pane) == rank)
  }

  function ByRank(entries: seq<Entry>, session: string, pane: Option<nat>): seq<Entry> {
    OfRank(entries, session, pane, 0) + OfRank(entries, session, pane, 1) + OfRank(entries, session, pane, 2)
  }

  /** Nearest first: the entries of the current pane, then the others of the current session, then
      those of all other sessions, each part in snapshot order. */
  function Nearest(entries: seq<Entry>, session: string, pane: Option<nat>): seq<Entry> {
    Filter(entries, (e: Entry) => e.session == session && Some(e.block.pane) == pane)
    + Filter(entries, (e: Entry) => e.session == session && Some(e.block.pane) != pane)
    + Filter(entries, (e: Entry) => e.session != session)
  }

  function Capped(entries: seq<Entry>): seq<Entry> {
    if |entries| > HISTORY_ENTRY_CAP then entries[..HISTORY_ENTRY_CAP] else entries
  }

  type Ranked = (nat, Entry)

  function NotAfter(): (Ranked, Ranked) -> bool { (a: Ranked, b: Ranked) => a.0 <= b.0 }

  function Ranks(entries: seq<Entry>, session: string, pane: Option<nat>): seq<Ranked> {
    if entries == [] then []
    else [(Rank(entries[0], session, pane), entries[0])] + Ranks(entries[1..], session, pane)
  }

  function Strip(ranked: seq<Ranked>): seq<Entry> {
    if ranked == [] then [] else [ranked[0].1] + Strip(ranked[1..])
  }

  // --- a list sorted by rank ---

  lemma {:induction false} StripAppend(a: seq<Ranked>, b: seq<Ranked>)
    ensures Strip(a + b) == Strip(a) + Strip(b)
  {
    if a == [] {
      assert a + b == b;
    } else {
      assert (a + b)[1..] == a[1..] + b;
      StripAppend(a[1..], b);
    }
  }

  lemma {:induction false} StripTake(ranked: seq<Ranked>, n: nat)
    requires n <= |ranked|
    ensures |Strip(ranked)| == |ranked| && Strip(ranked[..n]) == Strip(ranked)[..n]
  {
    if n == 0 {
      assert ranked[..0] == [];
      if ranked != [] {
        StripTake(ranked[1..], 0);
      }
    } else {
      assert ranked[..n][1..] == ranked[1..][..n - 1];
      StripTake(ranked[1..], n - 1);
    }
  }

  function WithRank(ranked: seq<Ranked>, rank: nat): seq<Ranked> { Filter(ranked, (r: Ranked) => r.0 == rank) }

  lemma {:induction false} WithRankCons(r: Ranked, rest: seq<Ranked>, rank: nat)
    ensures WithRank([r] + rest, rank) == (if r.0 == rank then [r] else []) + WithRank(rest, rank)
  {
    assert ([r] + rest)[1..] == rest;
  }

  lemma HeadIsLeast(s: seq<Ranked>)
    requires s != [] && Ordered(s, NotAfter())
    ensures forall x :: x in s[1..] ==> s[0].0 <= x.0
  {
    forall x | x in s[1..]
      ensures s[0].0 <= x.0
    {
      var i :| 0 <= i < |s[1..]| && s[1..][i] == x;
      assert NotAfter()(s[0], s[i + 1]);
    }
  }

  lemma SplitHead(r: Ranked, a: seq<Ranked>, b: seq<Ranked>, c: seq<Ranked>)
    ensures [r] + (a + (b + c)) == ([r] + a) + (([] + b) + ([] + c))
    ensures [r] + ([] + (b + c)) == ([] + []) + (([r] + b) + ([] + c))
    ensures [r] + ([] + ([] + c)) == ([] + []) + (([] + []) + ([r] + c))
  {
  }

  /** A list sorted by rank is its rank-0 part, then its rank-1 part, then its rank-2 part. */
  lemma {:induction false} SortedSplits(s: seq<Ranked>)
    requires Ordered(s, NotAfter()) && forall r :: r in s ==> r.0 <= 2
    ensures s == WithRank(s, 0) + (WithRank(s, 1) + WithRank(s, 2))
  {
    if s != [] {
      var r, rest := s[0], s[1..];
      HeadIsLeast(s);
      assert Ordered(rest, NotAfter());
      SortedSplits(rest);
      assert s == [r] + rest;
      if r.0 > 0 {
        FilterNone(rest, (x: Ranked) => x.0 == 0);
      }
      if r.0 > 1 {
        FilterNone(rest, (x: Ranked) => x.0 == 1);
      }
      hide Ordered, WithRank, NotAfter;
      WithRankCons(r, rest, 0);
      WithRankCons(r, rest, 1);
      WithRankCons(r, rest, 2);
      SplitHead(r, WithRank(rest, 0), WithRank(rest, 1), WithRank(rest, 2));
    }
  }

  lemma {:induction false} StripWithRank(entries: seq<Entry>, session: string, pane: Option<nat>, rank: nat)
    ensures Strip(WithRank(Ranks(entries, session, pane), rank)) == OfRank(entries, session, pane, rank)
  {
    if entries != [] {
      var e := entries[0];
      var r: Ranked := (Rank(e, session, pane), e);
      var rest := Ranks(entries[1..], session, pane);
      StripWithRank(entries[1..], session, pane, rank);
      WithRankCons(r, rest, rank);
      StripAppend(if r.0 == rank then [r] else [], WithRank(rest, rank));
      assert Strip([]) == [] && Strip([r]) == [e] by {
        assert [r][1..] == [];
      }
    }
  }

  lemma {:induction false} RanksBounded(entries: seq<Entry>, session: string, pane: Option<nat>)
    ensures |Ranks(entries, session, pane)| == |entries|
    ensures forall r :: r in Ranks(entries, session, pane) ==> r.0 <= 2
  {
    if entries != [] {
      RanksBounded(entries[1..], session, pane);
    }
  }

  lemma SortKeepsRank(ranked: seq<Ranked>, rank: nat)
    ensures WithRank(SortBy(ranked, NotAfter()), rank) == WithRank(ranked, rank)
  {
    SortStable(ranked, NotAfter(), (r: Ranked) => r.0 == rank);
  }

  /** Sorting stably by rank lists the ranks one after another, each in snapshot order. */
  lemma SortedByRank(entries: seq<Entry>, session: string, pane: Option<nat>)
    ensures Strip(SortBy(Ranks(entries, session, pane), NotAfter())) == ByRank(entries, session, pane)
    ensures |SortBy(Ranks(entries, session, pane), NotAfter())| == |entries|
  {
    var ranked := Ranks(entries, session, pane);
    var sorted := SortBy(ranked, NotAfter());
    RanksBounded(entries, session, pane);
    SortMultiset(ranked, NotAfter());
    SortOrdered(ranked, NotAfter());
    forall r | r in sorted
      ensures r.0 <= 2
    {
      assert r in multiset(sorted);
    }
    SortedSplits(sorted);
    SortKeepsRank(ranked, 0);
    SortKeepsRank(ranked, 1);
    SortKeepsRank(ranked, 2);
    StripAppend(WithRank(sorted, 0), WithRank(sorted, 1) + WithRank(sorted, 2));
    StripAppend(WithRank(sorted, 1), WithRank(sorted, 2));
    StripWithRank(entries, session, pane, 0);
    StripWithRank(entries, session, pane, 1);
    StripWithRank(entries, session, pane, 2);
    ConcatAssociative(OfRank(entries, session, pane, 0), OfRank(entries, session, pane, 1), OfRank(entries, session, pane, 2));
  }

  // --- building ---

  lemma {:induction false} RanksAppend(a: seq<Entry>, b: seq<Entry>, session: string, pane: Option<nat>)
    ensures Ranks(a + b, session, pane) == Ranks(a, session, pane) + Ranks(b, session, pane)
  {
    if a == [] {
      assert a + b == b;
    } else {
      assert (a + b)[1..] == a[1..] + b;
      RanksAppend(a[1..], b, session, pane);
    }
  }

  lemma NoRanks(session: string, pane: Option<nat>)
    ensures Ranks([], session, pane) == []
  {
  }

  lemma OneMoreBlock(done: seq<Entry>, st: SessionHistory, j: nat, session: string, pane: Option<nat>)
    requires j < |st.blocks|
    ensures var e := Entry(st.name, st.blocks[j]);
            Ranks(done + EntriesOf(st.name, st.blocks[..j + 1]), session, pane) ==
            Ranks(done + EntriesOf(st.name, st.blocks[..j]), session, pane) + [(Rank(e, session, pane), e)]
  {
    var e := Entry(st.name, st.blocks[j]);
    assert st.blocks[..j + 1][..j] == st.blocks[..j];
    ConcatAssociative(done, EntriesOf(st.name, st.blocks[..j]), [e]);
    RanksAppend(done + EntriesOf(st.name, st.blocks[..j]), [e], session, pane);
    assert [e][1..] == [];
  }

  lemma RanksCover(entries: seq<Entry>, session: string, pane: Option<nat>, e: Entry)
    ensures multiset(OfRank(entries, session, pane, 0))[e] + multiset(OfRank(entries, session, pane, 1))[e]
            + multiset(OfRank(entries, session, pane, 2))[e] == multiset(entries)[e]
  {
    FilterOccurrences(entries, (x: Entry) => Rank(x, session, pane) == 0, e);
    FilterOccurrences(entries, (x: Entry) => Rank(x, session, pane) == 1, e);
    FilterOccurrences(entries, (x: Entry) => Rank(x, session, pane) == 2, e);
  }

  lemma ByRankPermutes(entries: seq<Entry>, session: string, pane: Option<nat>)
    ensures multiset(ByRank(entries, session, pane)) == multiset(entries)
    ensures |ByRank(entries, session, pane)| == |entries|
  {
    var a, b, c := OfRank(entries, session, pane, 0), OfRank(entries, session, pane, 1), OfRank(entries, session, pane, 2);
    hide OfRank;
    assert multiset(a + b + c) == multiset(a) + multiset(b) + multiset(c);
    forall e: Entry
      ensures multiset(a + b + c)[e] == multiset(entries)[e]
    {
      RanksCover(entries, session, pane, e);
    }
    assert multiset(a + b + c) == multiset(entries);
    assert |multiset(a + b + c)| == |a + b + c|;
  }

  lemma ByRankIsNearest(entries: seq<Entry>, session: string, pane: Option<nat>)
    ensures ByRank(entries, session, pane) == Nearest(entries, session, pane)
  {
    FilterSame(entries, (e: Entry) => Rank(e, session, pane) == 0,
               (e: Entry) => e.session == session && Some(e.block.pane) == pane);
    FilterSame(entries, (e: Entry) => Rank(e, session, pane) == 1,
               (e: Entry) => e.session == session && Some(e.block.pane) != pane);
    FilterSame(entries, (e: Entry) => Rank(e, session, pane) == 2, (e: Entry) => e.session != session);
  }

  method BuildHistoryEntries(snaps: seq<SessionHistory>, session: string, pane: Option<nat>) returns (r: seq<Entry>)
    ensures r <= Nearest(AllEntries(snaps), session, pane)
    ensures |r| == if |AllEntries(snaps)| < 2000 then |AllEntries(snaps)| else 2000
  {
    hide Ranks, SortBy, ByRank, Ordered, Nearest;
    var ranked: seq<Ranked> := [];
    NoRanks(session, pane);
    for i := 0 to |snaps|
      invariant ranked == Ranks(AllEntries(snaps[..i]), session, pane)
    {
      var st := snaps[i];
      var inCurrentSession := st.name == session;
      ghost var done := AllEntries(snaps[..i]);
      assert done + [] == done;
      for j := 0 to |st.blocks|
        invariant ranked == Ranks(done + EntriesOf(st.name, st.blocks[..j]), session, pane)
      {
        var b := st.blocks[j];
        var rank := if inCurrentSession && Some(b.pane) == pane then 0 else if inCurrentSession then 1 else 2;
        var e := Entry(st.name, b);
        OneMoreBlock(done, st, j, session, pane);
        ranked := ranked + [(rank, e)];
      }
      assert st.blocks[..|st.blocks|] == st.blocks;
      assert snaps[..i + 1][..i] == snaps[..i];
    }
    assert snaps[..|snaps|] == snaps;
    ghost var all := AllEntries(snaps);
    SortedByRank(all, session, pane);
    ranked := SortBy(ranked, NotAfter());
    ghost var sorted := ranked;
    if |ranked| > HISTORY_ENTRY_CAP {
      StripTake(sorted, HISTORY_ENTRY_CAP);
      ranked := ranked[..HISTORY_ENTRY_CAP];
    }
    StripTake(sorted, 0);
    r := Strip(ranked);
    assert r == Capped(ByRank(all, session, pane));
    ByRankIsNearest(all, session, pane);
    ByRankPermutes(all, session, pane);
  }

  // --- what it means ---

  lemma {:induction false} OfRankRanks(entries: seq<Entry>, session: string, pane: Option<nat>, rank: nat)
    ensures forall e :: e in OfRank(entries, session, pane, rank) ==> Rank(e, session, pane) == rank
  {
    forall e | e in OfRank(entries, session, pane, rank)
      ensures Rank(e, session, pane) == rank
    {
      FilterMember(entries, (x: Entry) => Rank(x, session, pane) == rank, e);
    }
  }

  lemma ByRankOrdered(entries: seq<Entry>, session: string, pane: Option<nat>)
    ensures var all := ByRank(entries, session, pane);
            forall i, j :: 0 <= i < j < |all| ==> Rank(all[i], session, pane) <= Rank(all[j], session, pane)
  {
    OfRankRanks(entries, session, pane, 0);
    OfRankRanks(entries, session, pane, 1);
    OfRankRanks(entries, session, pane, 2);
    var a, b, c := OfRank(entries, session, pane, 0), OfRank(entries, session, pane, 1), OfRank(entries, session, pane, 2);
    var all := ByRank(entries, session, pane);
    forall i | 0 <= i < |all|
      ensures Rank(all[i], session, pane) == if i < |a| then 0 else if i < |a| + |b| then 1 else 2
    {
      if i < |a| {
        assert all[i] in a;
      } else if i < |a| + |b| {
        assert all[i] == b[i - |a|] && all[i] in b;
      } else {
        assert all[i] == c[i - |a| - |b|] && all[i] in c;
      }
    }
  }

  lemma {:induction false} EntriesInOrder(name: string, blocks: seq<Block>)
    ensures |EntriesOf(name, blocks)| == |blocks|
    ensures forall i :: 0 <= i < |blocks| ==> EntriesOf(name, blocks)[i] == Entry(name, blocks[i])
  {
    if blocks != [] {
      EntriesInOrder(name, blocks[..|blocks| - 1]);
    }
  }

  /** A session's entries are its blocks in order under its name, behind those of the sessions before. */
  lemma {:induction false} SnapshotOrder(snaps: seq<SessionHistory>, st: SessionHistory) returns (added: seq<Entry>)
    ensures AllEntries([]) == [] && AllEntries(snaps + [st]) == AllEntries(snaps) + added
    ensures |added| == |st.blocks|
    ensures forall i :: 0 <= i < |added| ==> added[i] == Entry(st.name, st.blocks[i])
  {
    assert (snaps + [st])[..|snaps|] == snaps;
    added := EntriesOf(st.name, st.blocks);
    EntriesInOrder(st.name, st.blocks);
  }

  lemma CapParts(entries: seq<Entry>) returns (dropped: seq<Entry>)
    ensures Capped(entries) + dropped == entries
    ensures multiset(Capped(entries)) + multiset(dropped) == multiset(entries)
    ensures |Capped(entries)| == if |entries| < 2000 then |entries| else 2000
  {
    var kept := Capped(entries);
    dropped := entries[|kept|..];
    assert entries == kept + dropped;
  }

  lemma NearestOrders(entries: seq<Entry>, session: string, pane: Option<nat>)
    ensures var all := Nearest(entries, session, pane);
            && multiset(all) == multiset(entries) && |all| == |entries|
            && forall i, j :: 0 <= i < j < |all| ==> Rank(all[i], session, pane) <= Rank(all[j], session, pane)
  {
    ByRankPermutes(entries, session, pane);
    ByRankOrdered(entries, session, pane);
    ByRankIsNearest(entries, session, pane);
    hide ByRank, Nearest, Rank;
  }

  lemma KeptOutranksDropped(kept: seq<Entry>, dropped: seq<Entry>, session: string, pane: Option<nat>)
    requires var all := kept + dropped;
             forall i, j :: 0 <= i < j < |all| ==> Rank(all[i], session, pane) <= Rank(all[j], session, pane)
    ensures forall k, d :: k in kept && d in dropped && d.session == session ==>
              k.session == session && (Some(d.block.pane) == pane ==> Some(k.block.pane) == pane)
  {
    forall k, d | k in kept && d in dropped && d.session == session
      ensures k.session == session && (Some(d.block.pane) == pane ==> Some(k.block.pane) == pane)
    {
      var i :| 0 <= i < |kept| && kept[i] == k;
      var j :| 0 <= j < |dropped| && dropped[j] == d;
      var all := kept + dropped;
      assert all[i] == k && all[|kept| + j] == d;
      assert Rank(all[i], session, pane) <= Rank(all[|kept| + j], session, pane);
    }
  }

  /** The cap drops the farthest entries only: what is kept and what is dropped make up all entries;
      if an entry of the current pane is dropped, only such are kept, and if one of the current
      session is, only its entries are kept. */
  lemma {:induction false} CapKeepsNearest(snaps: seq<SessionHistory>, session: string, pane: Option<nat>) returns (dropped: seq<Entry>)
    ensures var all, kept := AllEntries(snaps), Capped(Nearest(AllEntries(snaps), session, pane));
            && multiset(kept) + multiset(dropped) == multiset(all)
            && |kept| == (if |all| < 2000 then |all| else 2000)
            && forall k, d :: k in kept && d in dropped && d.session == session ==>
                 k.session == session && (Some(d.block.pane) == pane ==> Some(k.block.pane) == pane)
  {
    hide Nearest, Rank, AllEntries;
    var all := AllEntries(snaps);
    NearestOrders(all, session, pane);
    dropped := CapParts(Nearest(all, session, pane));
    hide Capped;
    KeptOutranksDropped(Capped(Nearest(all, session, pane)), dropped, session, pane);
  }
}
