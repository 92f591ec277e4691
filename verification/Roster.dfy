/** The session picker's roster: configured remotes, then ad-hoc hosts that are not configured. */
module Roster {
  import opened Prelude
  import opened StableSort

  datatype Source = Configured | AdHoc

  datatype ConfigRemote = ConfigRemote(host: string, bin: Option<string>)

  datatype RosterHost = RosterHost(host: string, bin: Option<string>, source: Source)

  /** Lexicographic order on strings, as derived for remote names. */
  predicate Leq(a: string, b: string) {
    a == [] || (b != [] && (a[0] < b[0] || (a[0] == b[0] && Leq(a[1..], b[1..]))))
  }

  predicate Less(a: string, b: string) { Leq(a, b) && a != b }

  lemma {:induction false} LeqTotal(a: string, b: string)
    ensures Leq(a, b) || Leq(b, a)
    ensures Leq(a, b) && Leq(b, a) ==> a == b
  {
    if a != [] && b != [] {
      LeqTotal(a[1..], b[1..]);
      if a[0] == b[0] && a[1..] == b[1..] {
        assert a == [a[0]] + a[1..] == b;
      }
    }
  }

  lemma {:induction false} LeqTransitive(a: string, b: string, c: string)
    requires Leq(a, b) && Leq(b, c)
    ensures Leq(a, c)
  {
    if a != [] && a[0] == b[0] == c[0] {
      LeqTransitive(a[1..], b[1..], c[1..]);
    }
  }

  /** One string is a prefix of the other, or they part at some place and the first is smaller there. */
  lemma {:induction false} LeqMeaning(a: string, b: string)
    ensures Leq(a, b) <==> a <= b || exists i :: 0 <= i < |a| && i < |b| && a[..i] == b[..i] && a[i] < b[i]
  {
    if a != [] && b != [] && a[0] == b[0] {
      var (x, y) := (a[1..], b[1..]);
      LeqMeaning(x, y);
      assert a == [a[0]] + x && b == [b[0]] + y;
      if i :| 0 <= i < |x| && i < |y| && x[..i] == y[..i] && x[i] < y[i] {
        assert a[..i + 1] == [a[0]] + x[..i] == [b[0]] + y[..i] == b[..i + 1];
      }
      if i :| 0 <= i < |a| && i < |b| && a[..i] == b[..i] && a[i] < b[i] {
        assert x[..i - 1] == a[..i][1..] && y[..i - 1] == b[..i][1..];
      }
    } else if a != [] && b != [] {
      assert a[..0] == b[..0];
      assert forall i :: 0 < i <= |a| && i <= |b| ==> a[..i][0] != b[..i][0];
    }
  }

  predicate RemoteLeq(a: ConfigRemote, b: ConfigRemote) { Leq(a.host, b.host) }

  predicate HasHost(r: ConfigRemote, host: string) { r.host == host }

  lemma {:induction false} LeqPreorder()
    ensures TotalPreorder(Leq)
    ensures TotalPreorder(RemoteLeq)
  {
    forall a, b ensures Leq(a, b) || Leq(b, a) { LeqTotal(a, b); }
    forall a, b, c | Leq(a, b) && Leq(b, c) ensures Leq(a, c) { LeqTransitive(a, b, c); }
    forall a, b ensures RemoteLeq(a, b) || RemoteLeq(b, a) { LeqTotal(a.host, b.host); }
    forall a, b, c | RemoteLeq(a, b) && RemoteLeq(b, c) ensures RemoteLeq(a, c) { LeqTransitive(a.host, b.host, c.host); }
  }

  /** Drops every element whose host repeats its predecessor's, keeping the first of a run. */
  function DedupRemotes(s: seq<ConfigRemote>): seq<ConfigRemote>
    decreases |s|
  {
    if |s| < 2 then s
    else if s[0].host == s[1].host then DedupRemotes([s[0]] + s[2..])
    else [s[0]] + DedupRemotes(s[1..])
  }

  function DedupNames(s: seq<string>): seq<string>
    decreases |s|
  {
    if |s| < 2 then s
    else if s[0] == s[1] then DedupNames(s[1..])
    else [s[0]] + DedupNames(s[1..])
  }

  /** The configured path for `host`: that of the first declaration naming it. */
  function ConfigBinFor(remotes: seq<ConfigRemote>, host: string): Option<string> {
    if remotes == [] then None
    else if remotes[0].host == host then remotes[0].bin
    else ConfigBinFor(remotes[1..], host)
  }

  predicate Declares(remotes: seq<ConfigRemote>, host: string) {
    exists i :: 0 <= i < |remotes| && remotes[i].host == host
  }

  predicate Increasing(names: seq<string>) {
    forall i, j :: 0 <= i < j < |names| ==> Less(names[i], names[j])
  }

  function RemoteHosts(remotes: seq<ConfigRemote>): (names: seq<string>)
    ensures |names| == |remotes| && forall i :: 0 <= i < |names| ==> names[i] == remotes[i].host
  {
    seq(|remotes|, i requires 0 <= i < |remotes| => remotes[i].host)
  }

  function Hosts(r: seq<RosterHost>): (names: seq<string>)
    ensures |names| == |r| && forall i :: 0 <= i < |names| ==> names[i] == r[i].host
  {
    seq(|r|, i requires 0 <= i < |r| => r[i].host)
  }

  /** The roster for these inputs, whatever order and repetitions they come in: its first `n`
      entries are the configured hosts, the others the ad-hoc ones. */
  ghost predicate IsRoster(r: seq<RosterHost>, n: nat, configured: seq<ConfigRemote>, adhoc: seq<string>) {
    && n <= |r|
    && Increasing(Hosts(r)[..n]) && Increasing(Hosts(r)[n..])
    && (forall h :: h in Hosts(r)[..n] <==> Declares(configured, h))
    && (forall h :: h in Hosts(r)[n..] <==> h in adhoc && !Declares(configured, h))
    && (forall i :: 0 <= i < n ==> r[i].source == Configured && r[i].bin == ConfigBinFor(configured, r[i].host))
    && (forall i :: n <= i < |r| ==> r[i].source == AdHoc && r[i].bin == None)
  }

  // --- what sorting and deduplicating do ---

  lemma {:induction false} BinOfFirst(s: seq<ConfigRemote>, host: string)
    ensures Declares(s, host) <==> Filter(s, (r: ConfigRemote) => HasHost(r, host)) != []
    ensures ConfigBinFor(s, host) ==
            var found := Filter(s, (r: ConfigRemote) => HasHost(r, host));
            if found == [] then None else found[0].bin
  {
    if s != [] {
      BinOfFirst(s[1..], host);
      if Declares(s, host) && s[0].host != host {
        var i :| 0 <= i < |s| && s[i].host == host;
        assert s[1..][i - 1].host == host;
      }
      if Declares(s[1..], host) {
        var i :| 0 <= i < |s[1..]| && s[1..][i].host == host;
        assert s[i + 1].host == host;
      }
    }
  }

  /** The path is that of the host's first declaration; an undeclared host has none. */
  lemma {:induction false} BinMeaning(s: seq<ConfigRemote>, host: string, i: nat)
    requires i <= |s| && forall j :: 0 <= j < i ==> s[j].host != host
    requires i < |s| ==> s[i].host == host
    ensures ConfigBinFor(s, host) == if i < |s| then s[i].bin else None
  {
    if i > 0 {
      BinMeaning(s[1..], host, i - 1);
    }
  }

  /** Sorting changes neither which hosts are declared nor which declaration is first. */
  lemma SortKeepsLookup(s: seq<ConfigRemote>, host: string)
    ensures Declares(SortBy(s, RemoteLeq), host) <==> Declares(s, host)
    ensures ConfigBinFor(SortBy(s, RemoteLeq), host) == ConfigBinFor(s, host)
  {
    LeqPreorder();
    BinOfFirst(s, host);
    BinOfFirst(SortBy(s, RemoteLeq), host);
    SortStable(s, RemoteLeq, (r: ConfigRemote) => HasHost(r, host));
  }

  lemma DeclaresCons(s: seq<ConfigRemote>, host: string)
    requires s != []
    ensures Declares(s, host) <==> s[0].host == host || Declares(s[1..], host)
  {
    if i :| 0 <= i < |s| && s[i].host == host && i > 0 {
      assert s[1..][i - 1].host == host;
    }
    if i :| 0 <= i < |s[1..]| && s[1..][i].host == host {
      assert s[i + 1].host == host;
    }
  }

  lemma {:induction false} DedupKeepsLookup(s: seq<ConfigRemote>, host: string)
    ensures Declares(DedupRemotes(s), host) <==> Declares(s, host)
    ensures ConfigBinFor(DedupRemotes(s), host) == ConfigBinFor(s, host)
    decreases |s|
  {
    if |s| >= 2 {
      DeclaresCons(s, host);
      if s[0].host == s[1].host {
        var t := [s[0]] + s[2..];
        DedupKeepsLookup(t, host);
        DeclaresCons(t, host);
        DeclaresCons(s[1..], host);
        assert t[1..] == s[2..] == s[1..][1..];
      } else {
        DedupKeepsLookup(s[1..], host);
        var d := DedupRemotes(s);
        DeclaresCons(d, host);
        assert d[1..] == DedupRemotes(s[1..]);
      }
    }
  }

  lemma {:induction false} DedupRemotesIncreasing(s: seq<ConfigRemote>)
    requires Ordered(s, RemoteLeq)
    ensures Increasing(RemoteHosts(DedupRemotes(s)))
    ensures s != [] ==> DedupRemotes(s) != [] && DedupRemotes(s)[0] == s[0]
    decreases |s|
  {
    if |s| >= 2 {
      if s[0].host == s[1].host {
        DedupRemotesIncreasing([s[0]] + s[2..]);
      } else {
        DedupRemotesIncreasing(s[1..]);
        var d := DedupRemotes(s[1..]);
        forall j | 0 <= j < |d|
          ensures Less(s[0].host, d[j].host)
        {
          LeqTotal(s[0].host, s[1].host);
          if j > 0 {
            assert Less(RemoteHosts(d)[0], RemoteHosts(d)[j]);
            LeqTransitive(s[0].host, s[1].host, d[j].host);
            LeqTotal(s[1].host, d[j].host);
          }
        }
        assert RemoteHosts(DedupRemotes(s)) == [s[0].host] + RemoteHosts(d);
      }
    }
  }

  lemma {:induction false} DedupNamesIncreasing(s: seq<string>)
    requires Ordered(s, Leq)
    ensures Increasing(DedupNames(s))
    ensures forall h :: h in DedupNames(s) <==> h in s
    ensures s != [] ==> DedupNames(s) != [] && DedupNames(s)[0] == s[0]
    decreases |s|
  {
    if |s| >= 2 {
      DedupNamesIncreasing(s[1..]);
      assert s == [s[0]] + s[1..];
      if s[0] != s[1] {
        var d := DedupNames(s[1..]);
        forall j | 0 <= j < |d|
          ensures Less(s[0], d[j])
        {
          LeqTotal(s[0], s[1]);
          if j > 0 {
            assert Less(d[0], d[j]);
            LeqTransitive(s[0], s[1], d[j]);
            LeqTotal(s[1], d[j]);
          }
        }
      }
    }
  }

  // --- assembling ---

  lemma {:induction false} OwnBin(cfg: seq<ConfigRemote>, i: nat)
    requires i < |cfg| && Increasing(RemoteHosts(cfg))
    ensures ConfigBinFor(cfg, cfg[i].host) == cfg[i].bin
  {
    if i > 0 {
      assert Less(RemoteHosts(cfg)[0], RemoteHosts(cfg)[i]);
      assert RemoteHosts(cfg[1..]) == RemoteHosts(cfg)[1..];
      OwnBin(cfg[1..], i - 1);
    }
  }

  lemma ConfiguredPart(configured: seq<ConfigRemote>) returns (cfg: seq<ConfigRemote>)
    ensures cfg == DedupRemotes(SortBy(configured, RemoteLeq))
    ensures Increasing(RemoteHosts(cfg))
    ensures forall h :: Declares(cfg, h) <==> Declares(configured, h)
    ensures forall i :: 0 <= i < |cfg| ==> cfg[i].bin == ConfigBinFor(configured, cfg[i].host)
  {
    var sorted := SortBy(configured, RemoteLeq);
    cfg := DedupRemotes(sorted);
    LeqPreorder();
    SortOrdered(configured, RemoteLeq);
    DedupRemotesIncreasing(sorted);
    forall h: string
      ensures Declares(cfg, h) <==> Declares(configured, h)
      ensures ConfigBinFor(cfg, h) == ConfigBinFor(configured, h)
    {
      SortKeepsLookup(configured, h);
      DedupKeepsLookup(sorted, h);
    }
    forall i | 0 <= i < |cfg|
      ensures cfg[i].bin == ConfigBinFor(configured, cfg[i].host)
    {
      OwnBin(cfg, i);
    }
  }

  lemma AdHocPart(names: seq<string>) returns (ad: seq<string>)
    ensures ad == DedupNames(SortBy(names, Leq))
    ensures Increasing(ad) && forall h :: h in ad <==> h in names
  {
    var sorted := SortBy(names, Leq);
    ad := DedupNames(sorted);
    LeqPreorder();
    SortOrdered(names, Leq);
    SortMultiset(names, Leq);
    DedupNamesIncreasing(sorted);
    forall h: string
      ensures h in sorted <==> h in names
    {
      assert h in multiset(sorted) <==> h in multiset(names);
    }
  }

  function ConfiguredEntries(cfg: seq<ConfigRemote>): (r: seq<RosterHost>)
    ensures |r| == |cfg|
    ensures forall i :: 0 <= i < |r| ==> r[i] == RosterHost(cfg[i].host, cfg[i].bin, Configured)
  {
    seq(|cfg|, i requires 0 <= i < |cfg| => RosterHost(cfg[i].host, cfg[i].bin, Configured))
  }

  function AdHocEntries(ad: seq<string>): (r: seq<RosterHost>)
    ensures |r| == |ad|
    ensures forall i :: 0 <= i < |r| ==> r[i] == RosterHost(ad[i], None, AdHoc)
  {
    seq(|ad|, i requires 0 <= i < |ad| => RosterHost(ad[i], None, AdHoc))
  }

  method Assemble(configured: seq<ConfigRemote>, adhoc: seq<string>) returns (r: seq<RosterHost>)
    ensures exists n: nat :: IsRoster(r, n, configured, adhoc)
  {
    hide SortBy, DedupRemotes, DedupNames, Filter, Leq, ConfigBinFor;
    var cfg := SortBy(configured, RemoteLeq);
    cfg := DedupRemotes(cfg);
    ghost var c := ConfiguredPart(configured);
    var notConfigured := (h: string) => !Declares(cfg, h);
    var ad := Filter(adhoc, notConfigured);
    ghost var a := AdHocPart(ad);
    forall h: string
      ensures h in ad <==> h in adhoc && !Declares(configured, h)
    {
      FilterMember(adhoc, notConfigured, h);
    }
    ad := SortBy(ad, Leq);
    ad := DedupNames(ad);
    r := ConfiguredEntries(cfg) + AdHocEntries(ad);
    ghost var n := |cfg|;
    assert Hosts(r)[..n] == RemoteHosts(cfg);
    assert Hosts(r)[n..] == ad;
    assert forall h :: h in RemoteHosts(cfg) <==> Declares(cfg, h);
    assert IsRoster(r, n, configured, adhoc);
  }

  // --- the specification determines the roster ---

  lemma {:induction false} IncreasingUnique(a: seq<string>, b: seq<string>)
    requires Increasing(a) && Increasing(b) && forall h :: h in a <==> h in b
    ensures a == b
  {
    hide Leq;
    assert a != [] ==> a[0] in a && a[0] in b;
    assert b != [] ==> b[0] in b && b[0] in a;
    if a != [] && b != [] {
      var i :| 0 <= i < |b| && b[i] == a[0];
      var j :| 0 <= j < |a| && a[j] == b[0];
      LeqTotal(a[0], b[0]);
      assert a[0] == b[0];
      forall h: string
        ensures h in a[1..] <==> h in b[1..]
      {
        assert h in a <==> h == a[0] || h in a[1..] by { assert a == [a[0]] + a[1..]; }
        assert h in b <==> h == b[0] || h in b[1..] by { assert b == [b[0]] + b[1..]; }
        assert a[0] !in a[1..] && b[0] !in b[1..];
      }
      IncreasingUnique(a[1..], b[1..]);
      assert a == [a[0]] + a[1..] && b == [b[0]] + b[1..];
    }
  }

  /** Order and repetitions in the inputs do not matter beyond which declaration of a host is
      first: two rosters for the same declarations and names are the same list. */
  lemma RosterUnique(r: seq<RosterHost>, n: nat, s: seq<RosterHost>, m: nat, configured: seq<ConfigRemote>, adhoc: seq<string>)
    requires IsRoster(r, n, configured, adhoc) && IsRoster(s, m, configured, adhoc)
    ensures r == s && n == m
  {
    IncreasingUnique(Hosts(r)[..n], Hosts(s)[..m]);
    IncreasingUnique(Hosts(r)[n..], Hosts(s)[m..]);
    assert n == |Hosts(r)[..n]| == |Hosts(s)[..m]| == m;
    assert |Hosts(r)[n..]| == |Hosts(s)[m..]|;
    forall i | 0 <= i < |r|
      ensures r[i] == s[i]
    {
      if i < n {
        assert Hosts(r)[..n][i] == Hosts(s)[..m][i];
      } else {
        assert Hosts(r)[n..][i - n] == Hosts(s)[m..][i - m];
      }
    }
  }

  /** No host is listed twice. */
  lemma RosterDistinct(r: seq<RosterHost>, n: nat, configured: seq<ConfigRemote>, adhoc: seq<string>)
    requires IsRoster(r, n, configured, adhoc)
    ensures forall i, j :: 0 <= i < j < |r| ==> r[i].host != r[j].host
  {
    forall i, j | 0 <= i < j < |r|
      ensures r[i].host != r[j].host
    {
      if j < n {
        assert Less(Hosts(r)[..n][i], Hosts(r)[..n][j]);
      } else if i >= n {
        assert Less(Hosts(r)[n..][i - n], Hosts(r)[n..][j - n]);
      } else {
        assert Hosts(r)[..n][i] == r[i].host && Hosts(r)[n..][j - n] == r[j].host;
        assert r[i].host in Hosts(r)[..n] && r[j].host in Hosts(r)[n..];
      }
    }
  }

  // --- the stored list of ad-hoc hosts ---

  function Added(adhoc: seq<string>, configured: seq<ConfigRemote>, host: string): seq<string> {
    if Declares(configured, host) || host in adhoc then adhoc else adhoc + [host]
  }

  function Forgotten(adhoc: seq<string>, host: string): seq<string> {
    Filter(adhoc, (h: string) => h != host)
  }

  class RosterFile {
    const configured: seq<ConfigRemote>
    var adhoc: seq<string>

    constructor (configured: seq<ConfigRemote>, adhoc: seq<string>)
      ensures this.configured == configured && this.adhoc == adhoc
    {
      this.configured, this.adhoc := configured, adhoc;
    }

    method AddAdhoc(host: string)
      modifies this
      ensures adhoc == Added(old(adhoc), configured, host)
      ensures host in adhoc || Declares(configured, host)
      ensures adhoc != old(adhoc) ==> adhoc == old(adhoc) + [host] && host !in old(adhoc) && !Declares(configured, host)
    {
      if Declares(configured, host) { return; }
      var cur := adhoc;
      if host in cur { return; }
      cur := cur + [host];
      adhoc := cur;
    }

    method ForgetAdhoc(host: string)
      modifies this
      ensures adhoc == Forgotten(old(adhoc), host)
      ensures forall h :: h in adhoc <==> h in old(adhoc) && h != host
    {
      var cur := Filter(adhoc, (h: string) => h != host);
      forall h ensures h in cur <==> h in adhoc && h != host {
        FilterMember(adhoc, (x: string) => x != host, h);
      }
      adhoc := cur;
    }
  }

  /** Whatever was stored: after adding a host the roster lists it; after forgetting it the roster
      lists it exactly when the configuration declares it; no other host is affected; and
      forgetting a host that was not stored before undoes adding it. */
  lemma AddForget(adhoc: seq<string>, configured: seq<ConfigRemote>, host: string, r: seq<RosterHost>, n: nat)
    requires IsRoster(r, n, configured, Added(adhoc, configured, host))
         || IsRoster(r, n, configured, Forgotten(adhoc, host))
    ensures IsRoster(r, n, configured, Added(adhoc, configured, host)) ==> host in Hosts(r)
    ensures IsRoster(r, n, configured, Forgotten(adhoc, host)) ==> (host in Hosts(r) <==> Declares(configured, host))
    ensures forall h :: h != host ==> (h in Hosts(r) <==> h in adhoc || Declares(configured, h))
    ensures host !in adhoc ==> Forgotten(Added(adhoc, configured, host), host) == adhoc
  {
    var other := (h: string) => h != host;
    forall h: string
      ensures h in Forgotten(adhoc, host) <==> h in adhoc && h != host
    {
      FilterMember(adhoc, other, h);
    }
    assert Hosts(r) == Hosts(r)[..n] + Hosts(r)[n..];
    if host !in adhoc {
      FilterAll(adhoc, other);
      FilterAppend(adhoc, [host], other);
    }
  }
}
