/** The inverse of the session decoder: prints a template back as a document node, and proves
    that decoding what was printed returns exactly the template, at any nesting depth. */
module SessionPrinter {
  import opened Prelude
  import opened Kdl
  import opened Templates
  import opened SessionDecoder

  // --- printing ---

  function PrintStr(key: string, value: Option<string>): seq<Entry> {
    if value.None? then [] else [Entry(Some(key), Str(value.value))]
  }

  function PrintActive(active: bool): seq<Entry> {
    if active then [Entry(Some("active"), Bool(true))] else []
  }

  function PrintRatio(weight: Option<Weight>): seq<Entry> {
    if weight.None? then [] else [Entry(Some("ratio"), Integer(weight.value))]
  }

  function PrintPairs(env: Env): seq<Node> {
    if env == [] then []
    else [Node(env[0].0, [Entry(None, Str(env[0].1))], [])] + PrintPairs(env[1..])
  }

  function PrintEnv(env: Env): seq<Node> {
    if env == [] then [] else [Node("env", [], PrintPairs(env))]
  }

  function PrintPane(p: PaneTemplate, weight: Option<Weight>): Node {
    Node("pane",
         PrintStr("command", p.command) + PrintStr("cwd", p.cwd) + PrintStr("name", p.name)
         + PrintActive(p.active) + PrintRatio(weight),
         PrintEnv(p.env))
  }

  function DirectionName(dir: Direction): string {
    match dir case Vertical => "vertical" case Horizontal => "horizontal"
  }

  function PrintLayout(node: PaneNode, weight: Option<Weight>): Node
    decreases node, 0
  {
    match node
    case Leaf(p) => PrintPane(p, weight)
    case Split(dir, children) =>
      Node("split", [Entry(None, Str(DirectionName(dir)))] + PrintRatio(weight), PrintChildren(children))
  }

  function PrintChildren(children: seq<SplitChild>): seq<Node>
    decreases children, 1
  {
    if children == [] then []
    else
      assert children[0].node < children[0];
      [PrintLayout(children[0].node, Some(children[0].weight))] + PrintChildren(children[1..])
  }

  function PrintWindow(w: WindowTemplate): Node {
    Node("window",
         [Entry(None, Str(w.name))] + PrintStr("cwd", w.cwd) + PrintActive(w.active),
         PrintEnv(w.env) + [PrintLayout(w.layout, None)])
  }

  function PrintWindows(ws: seq<WindowTemplate>): seq<Node> {
    if ws == [] then [] else [PrintWindow(ws[0])] + PrintWindows(ws[1..])
  }

  function PrintSession(s: SessionTemplate): Node {
    Node("session",
         [Entry(None, Str(s.name))] + PrintStr("cwd", s.cwd),
         PrintEnv(s.env) + PrintWindows(s.windows))
  }

  // --- round trip ---

  lemma {:induction false} PairsRoundTrip(env: Env)
    ensures EnvPairs(PrintPairs(env)) == Ok(env)
  {
    if env != [] {
      PairsRoundTrip(env[1..]);
      var node := Node(env[0].0, [Entry(None, Str(env[0].1))], []);
      assert PrintPairs(env)[0] == node && PrintPairs(env)[1..] == PrintPairs(env[1..]);
      assert [(env[0].0, env[0].1)] + env[1..] == env;
    }
  }

  /** The `env` block comes back, whatever other nodes stand after it. */
  lemma EnvRoundTrip(n: Node, env: Env, others: seq<Node>)
    requires n.children == PrintEnv(env) + others
    requires forall o :: o in others ==> o.name != "env"
    ensures EnvOf(n) == Ok(env)
    ensures ChildrenNotNamed(n.children, "env") == others
  {
    PairsRoundTrip(env);
    var isEnv, notEnv := (n: Node) => Named(n, "env"), (n: Node) => !Named(n, "env");
    FilterAppend(PrintEnv(env), others, isEnv);
    FilterAppend(PrintEnv(env), others, notEnv);
    FilterNone(others, isEnv);
    FilterAll(others, notEnv);
    FilterAll(PrintEnv(env), isEnv);
    FilterNone(PrintEnv(env), notEnv);
  }

  /** What the property lookups see in one printed property. */
  lemma PrintedProperty(key: string, value: Option<string>, active: bool, weight: Option<Weight>, k: string)
    ensures Property(PrintStr(key, value), k) == if k == key && value.Some? then Some(Str(value.value)) else None
    ensures Property(PrintActive(active), k) == if k == "active" && active then Some(Bool(true)) else None
    ensures Property(PrintRatio(weight), k) == if k == "ratio" && weight.Some? then Some(Integer(weight.value)) else None
  {
  }

  lemma PaneProperty(p: PaneTemplate, weight: Option<Weight>, k: string)
    ensures Property(PrintPane(p, weight).entries, k) ==
            if k == "ratio" && weight.Some? then Some(Integer(weight.value))
            else if k == "active" && p.active then Some(Bool(true))
            else if k == "name" && p.name.Some? then Some(Str(p.name.value))
            else if k == "cwd" && p.cwd.Some? then Some(Str(p.cwd.value))
            else if k == "command" && p.command.Some? then Some(Str(p.command.value))
            else None
  {
    var a, b, c := PrintStr("command", p.command), PrintStr("cwd", p.cwd), PrintStr("name", p.name);
    var d, e := PrintActive(p.active), PrintRatio(weight);
    PropertyAppend(a + b + c + d, e, k);
    PropertyAppend(a + b + c, d, k);
    PropertyAppend(a + b, c, k);
    PropertyAppend(a, b, k);
    PrintedProperty("command", p.command, p.active, weight, k);
    PrintedProperty("cwd", p.cwd, p.active, weight, k);
    PrintedProperty("name", p.name, p.active, weight, k);
  }

  lemma PaneAllowed(p: PaneTemplate, weight: Option<Weight>)
    ensures OnlyProperties(PrintPane(p, weight).entries, PaneProperties(weight.Some?), "pane") == Ok(())
  {
    var a, b, c := PrintStr("command", p.command), PrintStr("cwd", p.cwd), PrintStr("name", p.name);
    var d, e := PrintActive(p.active), PrintRatio(weight);
    var allowed := PaneProperties(weight.Some?);
    OnlyPropertiesAppend(a, b, allowed, "pane");
    OnlyPropertiesAppend(a + b, c, allowed, "pane");
    OnlyPropertiesAppend(a + b + c, d, allowed, "pane");
    OnlyPropertiesAppend(a + b + c + d, e, allowed, "pane");
  }

  lemma PaneEntries(p: PaneTemplate, weight: Option<Weight>)
    ensures var n := PrintPane(p, weight);
            && StringProperty(n, "command") == Ok(p.command)
            && StringProperty(n, "cwd") == Ok(p.cwd)
            && StringProperty(n, "name") == Ok(p.name)
            && BoolProperty(n, "active") == Ok(if p.active then Some(true) else None)
  {
    PaneProperty(p, weight, "command");
    PaneProperty(p, weight, "cwd");
    PaneProperty(p, weight, "name");
    PaneProperty(p, weight, "active");
  }

  lemma {:induction false} AllowedChildren(ns: seq<Node>, allowed: seq<string>, node: string)
    requires forall n :: n in ns ==> n.name in allowed
    ensures OnlyChildren(ns, allowed, node) == Ok(())
  {
    if ns != [] {
      AllowedChildren(ns[1..], allowed, node);
    }
  }

  lemma PaneRoundTrip(p: PaneTemplate, weight: Option<Weight>)
    ensures PaneOf(PrintPane(p, weight), weight.Some?) == Ok(p)
    ensures Property(PrintPane(p, weight).entries, "ratio")
         == if weight.None? then None else Some(Integer(weight.value))
  {
    var n := PrintPane(p, weight);
    PaneAllowed(p, weight);
    PaneEntries(p, weight);
    PaneProperty(p, weight, "ratio");
    assert PrintEnv(p.env) == PrintEnv(p.env) + [];
    EnvRoundTrip(n, p.env, []);
    AllowedChildren(n.children, ["env"], "pane");
  }

  lemma SplitEntries(dir: Direction, weight: Option<Weight>)
    ensures var es := [Entry(None, Str(DirectionName(dir)))] + PrintRatio(weight);
            && Argument(es) == Some(Str(DirectionName(dir)))
            && OnlyProperties(es, SplitProperties(weight.Some?), "split") == Ok(())
            && Property(es, "ratio") == if weight.None? then None else Some(Integer(weight.value))
  {
    var direction := Entry(None, Str(DirectionName(dir)));
    ArgumentFirst(direction, PrintRatio(weight));
    PropertyAppend([direction], PrintRatio(weight), "ratio");
    OnlyPropertiesAppend([direction], PrintRatio(weight), SplitProperties(weight.Some?), "split");
  }

  lemma {:induction false} ChildrenOfCons(n: Node, rest: seq<Node>, c: SplitChild, cs: seq<SplitChild>)
    requires RatioOf(n) == Ok(c.weight) && LayoutOf(n, true) == Ok(c.node)
    requires ChildrenOf(rest) == Ok(cs)
    ensures ChildrenOf([n] + rest) == Ok([c] + cs)
  {
    var ns := [n] + rest;
    assert ns[0] == n && ns[1..] == rest;
  }

  lemma DirectionRoundTrip(n: Node, dir: Direction)
    requires Argument(n.entries) == Some(Str(DirectionName(dir)))
    ensures DirectionOf(n) == Ok(dir)
  {
  }

  lemma {:induction false} LayoutRoundTrip(node: PaneNode, weight: Option<Weight>)
    requires ValidLayout(node)
    ensures LayoutOf(PrintLayout(node, weight), weight.Some?) == Ok(node)
    ensures Property(PrintLayout(node, weight).entries, "ratio")
         == if weight.None? then None else Some(Integer(weight.value))
    ensures PrintLayout(node, weight).name != "env"
    decreases node, 0
  {
    match node
    case Leaf(p) => PaneRoundTrip(p, weight);
    case Split(dir, children) =>
      ChildrenRoundTrip(children);
      SplitEntries(dir, weight);
      DirectionRoundTrip(PrintLayout(node, weight), dir);
      hide DirectionOf, DirectionName, PrintRatio, PrintChildren, ChildrenOf, Argument, Property, OnlyProperties,
           SplitProperties, PrintPane;
  }

  lemma {:induction false} ChildrenRoundTrip(children: seq<SplitChild>)
    requires ValidChildren(children)
    ensures ChildrenOf(PrintChildren(children)) == Ok(children)
    decreases children, 1
  {
    if children != [] {
      var c, rest := children[0], children[1..];
      assert c.node < c;
      LayoutRoundTrip(c.node, Some(c.weight));
      ChildrenRoundTrip(rest);
      ChildrenOfCons(PrintLayout(c.node, Some(c.weight)), PrintChildren(rest), c, rest);
      assert [c] + rest == children;
    }
  }

  lemma WindowEntries(w: WindowTemplate)
    ensures Argument(PrintWindow(w).entries) == Some(Str(w.name))
    ensures OnlyProperties(PrintWindow(w).entries, ["cwd", "active"], "window") == Ok(())
    ensures StringProperty(PrintWindow(w), "cwd") == Ok(w.cwd)
    ensures BoolProperty(PrintWindow(w), "active") == Ok(if w.active then Some(true) else None)
  {
    var a, b, c := [Entry(None, Str(w.name))], PrintStr("cwd", w.cwd), PrintActive(w.active);
    assert a + b + c == a + (b + c);
    ArgumentFirst(a[0], b + c);
    PropertyAppend(a + b, c, "cwd");
    PropertyAppend(a, b, "cwd");
    PropertyAppend(a + b, c, "active");
    PropertyAppend(a, b, "active");
    OnlyPropertiesAppend(a, b, ["cwd", "active"], "window");
    OnlyPropertiesAppend(a + b, c, ["cwd", "active"], "window");
  }

  lemma WindowRoundTrip(w: WindowTemplate)
    requires ValidWindow(w)
    ensures WindowOf(PrintWindow(w)) == Ok(w)
  {
    WindowEntries(w);
    LayoutRoundTrip(w.layout, None);
    EnvRoundTrip(PrintWindow(w), w.env, [PrintLayout(w.layout, None)]);
  }

  lemma {:induction false} WindowsRoundTrip(ws: seq<WindowTemplate>)
    requires forall i :: 0 <= i < |ws| ==> ValidWindow(ws[i])
    ensures WindowsOf(PrintWindows(ws)) == Ok(ws)
    ensures forall n :: n in PrintWindows(ws) ==> n.name == "window"
  {
    if ws != [] {
      WindowRoundTrip(ws[0]);
      WindowsRoundTrip(ws[1..]);
      var first, rest := PrintWindow(ws[0]), PrintWindows(ws[1..]);
      assert first.name == "window";
      assert ([first] + rest)[0] == first && ([first] + rest)[1..] == rest;
      assert [ws[0]] + ws[1..] == ws;
    }
  }

  lemma SessionEntries(s: SessionTemplate)
    ensures Argument(PrintSession(s).entries) == Some(Str(s.name))
    ensures OnlyProperties(PrintSession(s).entries, ["cwd"], "session") == Ok(())
    ensures StringProperty(PrintSession(s), "cwd") == Ok(s.cwd)
  {
    var a, b := [Entry(None, Str(s.name))], PrintStr("cwd", s.cwd);
    ArgumentFirst(a[0], b);
    PropertyAppend(a, b, "cwd");
    OnlyPropertiesAppend(a, b, ["cwd"], "session");
  }

  lemma SessionWindows(s: SessionTemplate)
    requires forall i :: 0 <= i < |s.windows| ==> ValidWindow(s.windows[i])
    ensures WindowsOf(PrintSession(s).children) == Ok(s.windows)
    ensures OnlyChildren(PrintSession(s).children, ["window", "env"], "session") == Ok(())
    ensures EnvOf(PrintSession(s)) == Ok(s.env)
  {
    var n, ws := PrintSession(s), PrintWindows(s.windows);
    WindowsRoundTrip(s.windows);
    EnvRoundTrip(n, s.env, ws);
    AllowedChildren(n.children, ["window", "env"], "session");
    if s.env == [] {
      assert n.children == ws;
    } else {
      assert n.children[0].name == "env" && n.children[1..] == ws;
    }
  }

  /** Decoding a printed session returns exactly the session: any nesting of splits, any weights,
      environments and active flags. */
  lemma {:induction false} SessionRoundTrip(s: SessionTemplate)
    requires ValidSession(s)
    ensures SessionOf(PrintSession(s)) == Ok(s)
  {
    SessionEntries(s);
    SessionWindows(s);
  }

  /** The templates the decoder can produce are exactly the valid ones. */
  lemma DecodableIffValid(s: SessionTemplate)
    ensures (exists n: Node :: SessionOf(n) == Ok(s)) <==> ValidSession(s)
  {
    if n: Node :| SessionOf(n) == Ok(s) {
      SessionOfIsValid(n);
    }
    if ValidSession(s) {
      SessionRoundTrip(s);
    }
  }
}
