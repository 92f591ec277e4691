/** What a `session` node describes, said of its entries and children alone: a node decodes to a
    template if and only if it describes it. */
module SessionMeaning {
  import opened Prelude
  import opened Kdl
  import opened Templates
  import opened SessionDecoder

  // --- entries ---

  /** The last entry named `key` has this value. */
  predicate LastIs(es: seq<Entry>, key: string, v: Value) {
    exists i :: 0 <= i < |es| && es[i] == Entry(Some(key), v) && forall j :: i < j < |es| ==> es[j].name != Some(key)
  }

  predicate Absent(es: seq<Entry>, key: string) {
    forall i :: 0 <= i < |es| ==> es[i].name != Some(key)
  }

  /** The first entry without a name has this value. */
  predicate FirstArgument(es: seq<Entry>, v: Value) {
    exists i :: 0 <= i < |es| && es[i] == Entry(None, v) && forall j :: 0 <= j < i ==> es[j].name.Some?
  }

  predicate OnlyKeys(es: seq<Entry>, allowed: seq<string>) {
    forall i :: 0 <= i < |es| && es[i].name.Some? ==> es[i].name.value in allowed
  }

  predicate GivesText(es: seq<Entry>, key: string, text: Option<string>) {
    if text.Some? then LastIs(es, key, Str(text.value)) else Absent(es, key)
  }

  /** Active exactly if the last `active` entry is true; any such entry must be a boolean. */
  predicate GivesActive(es: seq<Entry>, active: bool) {
    LastIs(es, "active", Bool(active)) || (!active && Absent(es, "active"))
  }

  /** The last `ratio` entry is this weight; without one the weight is 1. */
  predicate GivesWeight(es: seq<Entry>, weight: Weight) {
    LastIs(es, "ratio", Integer(weight)) || (weight == 1 && Absent(es, "ratio"))
  }

  // --- nodes ---

  predicate DescribesPair(n: Node, pair: (string, string)) {
    n.name == pair.0 && FirstArgument(n.entries, Str(pair.1))
  }

  predicate DescribesPairs(ns: seq<Node>, env: Env) {
    |env| == |ns| && forall i :: 0 <= i < |ns| ==> DescribesPair(ns[i], env[i])
  }

  predicate EnvAt(ns: seq<Node>, i: nat, env: Env) {
    && i < |ns| && ns[i].name == "env"
    && (forall j :: 0 <= j < |ns| && j != i ==> ns[j].name != "env")
    && OnlyKeys(ns[i].entries, []) && DescribesPairs(ns[i].children, env)
  }

  /** No `env` block and no pairs, or exactly one, without properties, listing them. */
  predicate DescribesEnv(ns: seq<Node>, env: Env) {
    || (env == [] && forall i :: 0 <= i < |ns| ==> ns[i].name != "env")
    || exists i :: 0 <= i < |ns| && EnvAt(ns, i, env)
  }

  predicate DescribesPane(n: Node, underSplit: bool, p: PaneTemplate) {
    && OnlyKeys(n.entries, if underSplit then ["command", "cwd", "name", "active", "ratio"] else ["command", "cwd", "name", "active"])
    && (forall i :: 0 <= i < |n.children| ==> n.children[i].name == "env")
    && GivesText(n.entries, "command", p.command)
    && GivesText(n.entries, "cwd", p.cwd)
    && GivesText(n.entries, "name", p.name)
    && GivesActive(n.entries, p.active)
    && DescribesEnv(n.children, p.env)
  }

  predicate DescribesLayout(n: Node, underSplit: bool, node: PaneNode)
    decreases node, 0
  {
    match node
    case Leaf(p) => n.name == "pane" && DescribesPane(n, underSplit, p)
    case Split(dir, cs) =>
      && n.name == "split"
      && FirstArgument(n.entries, Str(if dir == Vertical then "vertical" else "horizontal"))
      && OnlyKeys(n.entries, if underSplit then ["ratio"] else [])
      && |cs| >= 2 && DescribesChildren(n.children, cs)
  }

  predicate DescribesChildren(ns: seq<Node>, cs: seq<SplitChild>)
    decreases cs, 1
  {
    |ns| == |cs| &&
    (cs == [] ||
     (assert cs[0].node < cs[0];
      && GivesWeight(ns[0].entries, cs[0].weight)
      && DescribesLayout(ns[0], true, cs[0].node)
      && DescribesChildren(ns[1..], cs[1..])))
  }

  function Leaves(node: PaneNode): seq<PaneTemplate>
    decreases node, 0
  {
    match node
    case Leaf(p) => [p]
    case Split(_, cs) => LeavesOf(cs)
  }

  /** The leaves of a layout from left to right. */
  function LeavesOf(cs: seq<SplitChild>): seq<PaneTemplate>
    decreases cs, 1
  {
    if cs == [] then []
    else
      assert cs[0].node < cs[0];
      Leaves(cs[0].node) + LeavesOf(cs[1..])
  }

  /** Child `i` is the one that is not an environment, and describes the layout. */
  predicate LayoutAt(ns: seq<Node>, i: nat, layout: PaneNode) {
    && i < |ns| && ns[i].name != "env" && DescribesLayout(ns[i], false, layout)
    && forall j :: 0 <= j < |ns| && j != i ==> ns[j].name == "env"
  }

  predicate DescribesWindow(n: Node, w: WindowTemplate) {
    && n.name == "window"
    && FirstArgument(n.entries, Str(w.name))
    && OnlyKeys(n.entries, ["cwd", "active"])
    && GivesText(n.entries, "cwd", w.cwd)
    && GivesActive(n.entries, w.active)
    && DescribesEnv(n.children, w.env)
    && (exists i :: 0 <= i < |n.children| && LayoutAt(n.children, i, w.layout))
    && forall i, j :: 0 <= i < j < |Leaves(w.layout)| ==> !(Leaves(w.layout)[i].active && Leaves(w.layout)[j].active)
  }

  /** One after another, the window nodes describe the windows; environments stand between. */
  predicate DescribesWindows(ns: seq<Node>, ws: seq<WindowTemplate>) {
    if ns == [] then ws == []
    else if ns[0].name == "env" then DescribesWindows(ns[1..], ws)
    else ws != [] && DescribesWindow(ns[0], ws[0]) && DescribesWindows(ns[1..], ws[1..])
  }

  predicate DescribesSession(n: Node, s: SessionTemplate) {
    && FirstArgument(n.entries, Str(s.name))
    && OnlyKeys(n.entries, ["cwd"])
    && GivesText(n.entries, "cwd", s.cwd)
    && DescribesEnv(n.children, s.env)
    && DescribesWindows(n.children, s.windows)
    && s.windows != []
    && forall i, j :: 0 <= i < j < |s.windows| ==> !(s.windows[i].active && s.windows[j].active)
  }

  // --- the lookups mean this ---

  lemma {:induction false} PropertyMeaning(es: seq<Entry>, key: string, v: Value)
    ensures Property(es, key) == Some(v) <==> LastIs(es, key, v)
    ensures Property(es, key) == None <==> Absent(es, key)
  {
    if es != [] {
      var front, last := es[..|es| - 1], es[|es| - 1];
      PropertyMeaning(front, key, v);
      assert forall i :: 0 <= i < |front| ==> front[i] == es[i];
      if last.name != Some(key) && LastIs(front, key, v) {
        var i :| 0 <= i < |front| && front[i] == Entry(Some(key), v) && forall j :: i < j < |front| ==> front[j].name != Some(key);
        assert es[i] == Entry(Some(key), v);
      }
      if last.name == Some(key) {
        assert es[|es| - 1] == Entry(Some(key), last.value);
      }
    }
  }

  lemma FirstArgumentCons(es: seq<Entry>, v: Value)
    requires es != []
    ensures FirstArgument(es, v) <==> es[0] == Entry(None, v) || (es[0].name.Some? && FirstArgument(es[1..], v))
  {
    var rest := es[1..];
    assert forall i :: 0 <= i < |rest| ==> rest[i] == es[i + 1];
    if es[0].name.Some? {
      if i :| 0 <= i < |rest| && rest[i] == Entry(None, v) && forall j :: 0 <= j < i ==> rest[j].name.Some? {
        assert es[i + 1] == Entry(None, v) && forall j :: 1 <= j < i + 1 ==> es[j] == rest[j - 1];
      }
      if i :| 0 <= i < |es| && es[i] == Entry(None, v) && forall j :: 0 <= j < i ==> es[j].name.Some? {
        assert rest[i - 1] == Entry(None, v);
      }
    }
  }

  lemma {:induction false} ArgumentMeaning(es: seq<Entry>, v: Value)
    ensures Argument(es) == Some(v) <==> FirstArgument(es, v)
  {
    if es != [] {
      FirstArgumentCons(es, v);
      hide FirstArgument;
      if es[0].name.None? {
        assert es[0] == Entry(None, es[0].value);
      } else {
        ArgumentMeaning(es[1..], v);
      }
    }
  }

  lemma {:induction false} OnlyPropertiesMeaning(es: seq<Entry>, allowed: seq<string>, node: string)
    ensures OnlyProperties(es, allowed, node).Ok? <==> OnlyKeys(es, allowed)
  {
    if es != [] {
      OnlyPropertiesMeaning(es[1..], allowed, node);
      assert forall i :: 0 <= i < |es| - 1 ==> es[1..][i] == es[i + 1];
    }
  }

  lemma {:induction false} OnlyChildrenMeaning(ns: seq<Node>, allowed: seq<string>, node: string)
    ensures OnlyChildren(ns, allowed, node).Ok? <==> forall i :: 0 <= i < |ns| ==> ns[i].name in allowed
  {
    if ns != [] {
      OnlyChildrenMeaning(ns[1..], allowed, node);
      assert forall i :: 0 <= i < |ns| - 1 ==> ns[1..][i] == ns[i + 1];
    }
  }

  lemma TextMeaning(n: Node, key: string, text: Option<string>)
    ensures StringProperty(n, key) == Ok(text) <==> GivesText(n.entries, key, text)
  {
    hide LastIs, Absent, Property;
    PropertyMeaning(n.entries, key, Str(if text.Some? then text.value else ""));
  }

  lemma ActiveMeaning(n: Node, active: bool)
    ensures (BoolProperty(n, "active").Ok? && (BoolProperty(n, "active").value == Some(true)) == active)
            <==> GivesActive(n.entries, active)
  {
    hide LastIs, Absent, Property;
    PropertyMeaning(n.entries, "active", Bool(true));
    PropertyMeaning(n.entries, "active", Bool(false));
  }

  lemma WeightMeaning(n: Node, weight: Weight)
    ensures RatioOf(n) == Ok(weight) <==> GivesWeight(n.entries, weight)
  {
    hide LastIs, Absent, Property;
    PropertyMeaning(n.entries, "ratio", Integer(weight));
  }

  lemma ArgumentTextMeaning(n: Node, what: string, text: string)
    ensures StringArgument(n, what) == Ok(text) <==> FirstArgument(n.entries, Str(text))
  {
    hide FirstArgument, Argument;
    ArgumentMeaning(n.entries, Str(text));
  }

  // --- so do the nodes ---

  lemma PairsCons(ns: seq<Node>, env: Env)
    requires ns != [] && env != []
    ensures DescribesPairs(ns, env) <==> DescribesPair(ns[0], env[0]) && DescribesPairs(ns[1..], env[1..])
  {
    hide DescribesPair;
    if DescribesPair(ns[0], env[0]) && DescribesPairs(ns[1..], env[1..]) {
      forall i | 0 <= i < |ns|
        ensures DescribesPair(ns[i], env[i])
      {
        if i > 0 {
          assert DescribesPair(ns[1..][i - 1], env[1..][i - 1]);
        }
      }
    }
    if DescribesPairs(ns, env) {
      forall i | 0 <= i < |ns| - 1
        ensures DescribesPair(ns[1..][i], env[1..][i])
      {
        assert DescribesPair(ns[i + 1], env[i + 1]);
      }
    }
  }

  lemma {:induction false} PairsMeaning(ns: seq<Node>, env: Env)
    ensures EnvPairs(ns) == Ok(env) <==> DescribesPairs(ns, env)
  {
    hide FirstArgument, StringArgument;
    if ns != [] {
      if env != [] {
        ArgumentTextMeaning(ns[0], ns[0].name, env[0].1);
        PairsMeaning(ns[1..], env[1..]);
        PairsCons(ns, env);
        assert env == [env[0]] + env[1..];
        if EnvPairs(ns).Ok? {
          assert EnvPairs(ns).value[1..] == EnvPairs(ns[1..]).value;
        }
      }
    }
  }

  lemma {:induction false} FilterOne<T>(s: seq<T>, p: T -> bool, i: nat)
    requires i < |s| && p(s[i]) && forall j :: 0 <= j < |s| && j != i ==> !p(s[j])
    ensures Filter(s, p) == [s[i]]
  {
    var rest := s[1..];
    assert forall j :: 0 <= j < |rest| ==> rest[j] == s[j + 1];
    if i == 0 {
      FilterNone(rest, p);
    } else {
      FilterOne(rest, p, i - 1);
    }
  }

  lemma {:induction false} FilterOneAt<T>(s: seq<T>, p: T -> bool) returns (i: nat)
    requires |Filter(s, p)| == 1
    ensures i < |s| && p(s[i]) && Filter(s, p) == [s[i]]
    ensures forall j :: 0 <= j < |s| && j != i ==> !p(s[j])
  {
    var rest := s[1..];
    assert forall j :: 0 <= j < |rest| ==> rest[j] == s[j + 1] && rest[j] in rest;
    if p(s[0]) {
      i := 0;
      forall j | 0 <= j < |rest|
        ensures !p(rest[j])
      {
        FilterMember(rest, p, rest[j]);
      }
    } else {
      var k := FilterOneAt(rest, p);
      i := k + 1;
    }
  }

  lemma {:induction false} AtMostOne<T>(s: seq<T>, p: T -> bool)
    ensures |Filter(s, p)| <= 1 <==> forall i, j :: 0 <= i < j < |s| ==> !(p(s[i]) && p(s[j]))
  {
    if s != [] {
      var rest := s[1..];
      AtMostOne(rest, p);
      assert forall j :: 0 <= j < |rest| ==> rest[j] == s[j + 1] && rest[j] in rest;
      if Filter(rest, p) == [] {
        forall j | 0 <= j < |rest|
          ensures !p(rest[j])
        {
          FilterMember(rest, p, rest[j]);
        }
      } else {
        var x := Filter(rest, p)[0];
        FilterMember(rest, p, x);
        assert x in rest && p(x);
      }
    }
  }

  lemma {:induction false} NoneNamed(ns: seq<Node>, name: string)
    ensures ChildrenNamed(ns, name) == [] <==> forall i :: 0 <= i < |ns| ==> ns[i].name != name
  {
    var p := (n: Node) => Named(n, name);
    if ChildrenNamed(ns, name) == [] {
      forall i | 0 <= i < |ns|
        ensures ns[i].name != name
      {
        FilterMember(ns, p, ns[i]);
      }
    } else {
      FilterMember(ns, p, ChildrenNamed(ns, name)[0]);
    }
  }

  lemma EnvMeaning(n: Node, env: Env)
    ensures EnvOf(n) == Ok(env) <==> DescribesEnv(n.children, env)
  {
    hide DescribesPairs, OnlyKeys, OnlyProperties, EnvPairs;
    var ns, blocks, p := n.children, ChildrenNamed(n.children, "env"), (c: Node) => Named(c, "env");
    NoneNamed(ns, "env");
    if |blocks| == 1 {
      var i := FilterOneAt(ns, p);
      OnlyPropertiesMeaning(ns[i].entries, [], "env");
      PairsMeaning(ns[i].children, env);
      assert EnvOf(n) == Ok(env) <==> EnvAt(ns, i, env);
      if DescribesEnv(ns, env) {
        var j :| 0 <= j < |ns| && EnvAt(ns, j, env);
        assert j == i;
      }
    } else if j :| 0 <= j < |ns| && EnvAt(ns, j, env) {
      FilterOne(ns, p, j);
    }
  }

  lemma PaneMeaning(n: Node, underSplit: bool, p: PaneTemplate)
    ensures PaneOf(n, underSplit) == Ok(p) <==> DescribesPane(n, underSplit, p)
  {
    hide GivesText, GivesActive, DescribesEnv, OnlyKeys, OnlyProperties, OnlyChildren, EnvOf, StringProperty, BoolProperty;
    OnlyPropertiesMeaning(n.entries, PaneProperties(underSplit), n.name);
    assert PaneProperties(underSplit) ==
           if underSplit then ["command", "cwd", "name", "active", "ratio"] else ["command", "cwd", "name", "active"];
    OnlyChildrenMeaning(n.children, ["env"], n.name);
    assert forall x :: x in ["env"] <==> x == "env";
    TextMeaning(n, "command", p.command);
    TextMeaning(n, "cwd", p.cwd);
    TextMeaning(n, "name", p.name);
    ActiveMeaning(n, p.active);
    EnvMeaning(n, p.env);
    hide PaneProperties;
  }

  lemma DirectionMeaning(n: Node, dir: Direction)
    ensures DirectionOf(n) == Ok(dir) <==> FirstArgument(n.entries, Str(if dir == Vertical then "vertical" else "horizontal"))
  {
    hide FirstArgument, StringArgument;
    ArgumentTextMeaning(n, "split direction", if dir == Vertical then "vertical" else "horizontal");
  }

  /** Each child of a split gives its own weight, 1 if it has no `ratio`, and its own layout. */
  lemma {:induction false} ChildrenMeaning(ns: seq<Node>, cs: seq<SplitChild>)
    ensures ChildrenOf(ns) == Ok(cs) <==> DescribesChildren(ns, cs)
    decreases ns, 0
  {
    hide RatioOf, GivesWeight, LayoutOf, DescribesLayout;
    if ns != [] && cs != [] {
      WeightMeaning(ns[0], cs[0].weight);
      LayoutMeaning(ns[0], true, cs[0].node);
      ChildrenMeaning(ns[1..], cs[1..]);
      assert cs == [cs[0]] + cs[1..] && cs[0] == SplitChild(cs[0].weight, cs[0].node);
      if ChildrenOf(ns).Ok? {
        assert ChildrenOf(ns).value[1..] == ChildrenOf(ns[1..]).value;
      }
    }
  }

  /** A layout node decodes to a layout exactly if it describes it; `ratio` is allowed and read only
      directly under a split. */
  lemma {:induction false} LayoutMeaning(n: Node, underSplit: bool, node: PaneNode)
    ensures LayoutOf(n, underSplit) == Ok(node) <==> DescribesLayout(n, underSplit, node)
    decreases n, 1
  {
    hide PaneOf, DescribesPane, DirectionOf, FirstArgument, OnlyKeys, OnlyProperties, ChildrenOf, DescribesChildren;
    match node
    case Leaf(p) => PaneMeaning(n, underSplit, p);
    case Split(dir, cs) =>
      DirectionMeaning(n, dir);
      OnlyPropertiesMeaning(n.entries, SplitProperties(underSplit), n.name);
      ChildrenMeaning(n.children, cs);
  }

  /** The same, child by child. */
  lemma {:induction false} SplitWeights(ns: seq<Node>, cs: seq<SplitChild>)
    requires ChildrenOf(ns) == Ok(cs)
    ensures |cs| == |ns|
    ensures forall i :: 0 <= i < |ns| ==> GivesWeight(ns[i].entries, cs[i].weight) && DescribesLayout(ns[i], true, cs[i].node)
  {
    hide GivesWeight, DescribesLayout;
    if ns != [] {
      ChildrenMeaning(ns, cs);
      ChildrenMeaning(ns[1..], cs[1..]);
      SplitWeights(ns[1..], cs[1..]);
      assert forall i :: 1 <= i < |ns| ==> ns[i] == ns[1..][i - 1] && cs[i] == cs[1..][i - 1];
    }
  }

  lemma {:induction false} ActiveLeavesOf(cs: seq<SplitChild>)
    ensures CountActiveLeavesIn(cs) == |Filter(LeavesOf(cs), (p: PaneTemplate) => p.active)|
    decreases cs, 1
  {
    if cs != [] {
      assert cs[0].node < cs[0];
      ActiveLeavesMeaning(cs[0].node);
      ActiveLeavesOf(cs[1..]);
      FilterAppend(Leaves(cs[0].node), LeavesOf(cs[1..]), (p: PaneTemplate) => p.active);
    }
  }

  lemma {:induction false} ActiveLeavesMeaning(node: PaneNode)
    ensures CountActiveLeaves(node) == |Filter(Leaves(node), (p: PaneTemplate) => p.active)|
    decreases node, 0
  {
    match node
    case Leaf(p) => assert [p][1..] == [];
    case Split(_, cs) => ActiveLeavesOf(cs);
  }

  lemma {:induction false} LayoutsMeaning(ns: seq<Node>, layout: PaneNode)
    ensures (|ChildrenNotNamed(ns, "env")| == 1 && LayoutOf(ChildrenNotNamed(ns, "env")[0], false) == Ok(layout))
            <==> exists i :: 0 <= i < |ns| && LayoutAt(ns, i, layout)
  {
    hide LayoutOf, DescribesLayout;
    var p := (n: Node) => !Named(n, "env");
    if |ChildrenNotNamed(ns, "env")| == 1 {
      var i := FilterOneAt(ns, p);
      LayoutMeaning(ns[i], false, layout);
      assert LayoutOf(ns[i], false) == Ok(layout) <==> LayoutAt(ns, i, layout);
      if j :| 0 <= j < |ns| && LayoutAt(ns, j, layout) {
        assert j == i;
      }
    } else if j :| 0 <= j < |ns| && LayoutAt(ns, j, layout) {
      FilterOne(ns, p, j);
    }
  }

  lemma WindowMeaning(n: Node, w: WindowTemplate)
    requires n.name == "window"
    ensures WindowOf(n) == Ok(w) <==> DescribesWindow(n, w)
  {
    hide GivesText, GivesActive, DescribesEnv, OnlyKeys, OnlyProperties, EnvOf, StringProperty, BoolProperty, StringArgument,
         FirstArgument, LayoutOf, LayoutAt, ChildrenNotNamed, CountActiveLeaves, Leaves;
    ArgumentTextMeaning(n, "window name", w.name);
    OnlyPropertiesMeaning(n.entries, ["cwd", "active"], n.name);
    TextMeaning(n, "cwd", w.cwd);
    ActiveMeaning(n, w.active);
    EnvMeaning(n, w.env);
    LayoutsMeaning(n.children, w.layout);
    ActiveLeavesMeaning(w.layout);
    AtMostOne(Leaves(w.layout), (p: PaneTemplate) => p.active);
  }

  lemma NotAWindow(n: Node)
    requires n.name != "window"
    ensures forall w :: !DescribesWindow(n, w)
  {
  }

  lemma {:induction false} WindowsMeaning(ns: seq<Node>, ws: seq<WindowTemplate>)
    ensures WindowsOf(ns) == Ok(ws) <==> DescribesWindows(ns, ws)
    ensures WindowsOf(ns).Ok? ==> forall i :: 0 <= i < |ns| ==> ns[i].name in ["window", "env"]
  {
    hide WindowOf, DescribesWindow;
    if ns != [] {
      if ns[0].name == "env" {
        WindowsMeaning(ns[1..], ws);
      } else if ns[0].name == "window" {
        WindowsMeaning(ns[1..], if ws == [] then [] else ws[1..]);
        if ws != [] {
          WindowMeaning(ns[0], ws[0]);
          assert ws == [ws[0]] + ws[1..];
          if WindowsOf(ns).Ok? {
            assert WindowsOf(ns).value[1..] == WindowsOf(ns[1..]).value;
          }
        }
      } else {
        NotAWindow(ns[0]);
      }
      assert forall i :: 1 <= i < |ns| ==> ns[i] == ns[1..][i - 1];
    }
  }

  lemma {:induction false} ActiveWindowsMeaning(ws: seq<WindowTemplate>)
    ensures CountActiveWindows(ws) == |Filter(ws, (w: WindowTemplate) => w.active)|
  {
    if ws != [] {
      ActiveWindowsMeaning(ws[1..]);
    }
  }

  /** A `session` node decodes to a template if and only if it describes it. */
  lemma SessionMeaningIff(n: Node, s: SessionTemplate)
    ensures SessionOf(n) == Ok(s) <==> DescribesSession(n, s)
  {
    hide GivesText, DescribesEnv, OnlyKeys, OnlyProperties, OnlyChildren, EnvOf, StringProperty, StringArgument,
         FirstArgument, WindowsOf, DescribesWindows, CountActiveWindows;
    ArgumentTextMeaning(n, "session name", s.name);
    OnlyPropertiesMeaning(n.entries, ["cwd"], n.name);
    OnlyChildrenMeaning(n.children, ["window", "env"], n.name);
    TextMeaning(n, "cwd", s.cwd);
    EnvMeaning(n, s.env);
    WindowsMeaning(n.children, s.windows);
    ActiveWindowsMeaning(s.windows);
    AtMostOne(s.windows, (w: WindowTemplate) => w.active);
  }
}
