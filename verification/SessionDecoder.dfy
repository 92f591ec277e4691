/** Decoding a `session` node into a template. `SessionOf`, `WindowOf`, `LayoutOf`, `PaneOf` and
    `EnvOf` say what each node means, order of checks included; the `Decode...` methods are the
    decoder itself, which pushes into vectors as it walks, and are proved to compute them. */
module SessionDecoder {
  import opened Prelude
  import opened Kdl
  import opened Templates

  // --- meaning of each node ---

  function EnvPairs(entries: seq<Node>): Result<Env, Error> {
    if entries == [] then Ok([])
    else
      var value :- StringArgument(entries[0], entries[0].name);
      var rest :- EnvPairs(entries[1..]);
      Ok([(entries[0].name, value)] + rest)
  }

  /** The optional `env` block among the children of `n`. */
  function EnvOf(n: Node): Result<Env, Error> {
    var blocks := ChildrenNamed(n.children, "env");
    if |blocks| > 1 then Err(ManyEnvBlocks)
    else if blocks == [] then Ok([])
    else
      var _ :- OnlyProperties(blocks[0].entries, [], "env");
      EnvPairs(blocks[0].children)
  }

  function PaneProperties(allowRatio: bool): seq<string> {
    ["command", "cwd", "name", "active"] + (if allowRatio then ["ratio"] else [])
  }

  function PaneOf(n: Node, allowRatio: bool): Result<PaneTemplate, Error> {
    var _ :- OnlyProperties(n.entries, PaneProperties(allowRatio), n.name);
    var _ :- OnlyChildren(n.children, ["env"], n.name);
    var command :- StringProperty(n, "command");
    var cwd :- StringProperty(n, "cwd");
    var name :- StringProperty(n, "name");
    var active :- BoolProperty(n, "active");
    var env :- EnvOf(n);
    Ok(PaneTemplate(command, cwd, name, active == Some(true), env))
  }

  /** The weight a split reads off its direct child: an unsigned 32-bit `ratio=`, default 1. */
  function RatioOf(n: Node): Result<Weight, Error> {
    match Property(n.entries, "ratio")
    case None => Ok(1)
    case Some(Integer(i)) =>
      if i < 0 || i >= 0x1_0000_0000 then Err(RatioOutOfRange)
      else if i == 0 then Err(RatioZero)
      else Ok(i)
    case _ => Err(RatioNotInteger)
  }

  function DirectionOf(n: Node): Result<Direction, Error> {
    var dir :- StringArgument(n, "split direction");
    if dir == "vertical" then Ok(Vertical)
    else if dir == "horizontal" then Ok(Horizontal)
    else Err(BadDirection(dir))
  }

  function SplitProperties(allowRatio: bool): seq<string> {
    if allowRatio then ["ratio"] else []
  }

  /** A layout node. `allowRatio` is true only for a direct child of a split. */
  function LayoutOf(n: Node, allowRatio: bool): Result<PaneNode, Error>
    decreases n, 1
  {
    if n.name == "pane" then
      var pane :- PaneOf(n, allowRatio);
      Ok(Leaf(pane))
    else if n.name == "split" then
      var dir :- DirectionOf(n);
      var _ :- OnlyProperties(n.entries, SplitProperties(allowRatio), n.name);
      var children :- ChildrenOf(n.children);
      if |children| < 2 then Err(TooFewChildren) else Ok(Split(dir, children))
    else Err(NotALayout(n.name))
  }

  function ChildrenOf(ns: seq<Node>): Result<seq<SplitChild>, Error>
    decreases ns, 0
  {
    if ns == [] then Ok([])
    else
      var weight :- RatioOf(ns[0]);
      var node :- LayoutOf(ns[0], true);
      var rest :- ChildrenOf(ns[1..]);
      Ok([SplitChild(weight, node)] + rest)
  }

  function WindowOf(n: Node): Result<WindowTemplate, Error> {
    var name :- StringArgument(n, "window name");
    var _ :- OnlyProperties(n.entries, ["cwd", "active"], n.name);
    var cwd :- StringProperty(n, "cwd");
    var active :- BoolProperty(n, "active");
    var env :- EnvOf(n);
    var layouts := ChildrenNotNamed(n.children, "env");
    if layouts == [] then Err(NoLayout(name))
    else if |layouts| > 1 then Err(ManyLayouts(name))
    else
      var layout :- LayoutOf(layouts[0], false);
      if CountActiveLeaves(layout) > 1 then Err(ManyActivePanes(name))
      else Ok(WindowTemplate(name, cwd, active == Some(true), env, layout))
  }

  function WindowsOf(ns: seq<Node>): Result<seq<WindowTemplate>, Error> {
    if ns == [] then Ok([])
    else if ns[0].name == "window" then
      var w :- WindowOf(ns[0]);
      var rest :- WindowsOf(ns[1..]);
      Ok([w] + rest)
    else if ns[0].name == "env" then WindowsOf(ns[1..])
    else Err(UnknownChild(ns[0].name, "session"))
  }

  function SessionOf(n: Node): Result<SessionTemplate, Error> {
    var name :- StringArgument(n, "session name");
    var _ :- OnlyProperties(n.entries, ["cwd"], n.name);
    var _ :- OnlyChildren(n.children, ["window", "env"], n.name);
    var cwd :- StringProperty(n, "cwd");
    var env :- EnvOf(n);
    var windows :- WindowsOf(n.children);
    if windows == [] then Err(NoWindows(name))
    else if CountActiveWindows(windows) > 1 then Err(ManyActiveWindows(name))
    else Ok(SessionTemplate(name, cwd, env, windows))
  }

  // --- the decoder ---

  /** `prefix` decoded so far, `rest` still to come: an error in the rest is the answer. */
  function Then<T>(prefix: seq<T>, rest: Result<seq<T>, Error>): Result<seq<T>, Error> {
    match rest
    case Ok(ts) => Ok(prefix + ts)
    case Err(e) => Err(e)
  }

  lemma ThenNil<T>(all: seq<Node>, rest: Result<seq<T>, Error>)
    ensures all[0..] == all && Then([], rest) == rest
  {
    if rest.Ok? {
      assert [] + rest.value == rest.value;
    }
  }

  lemma ThenSnoc<T>(prefix: seq<T>, x: T, rest: Result<seq<T>, Error>)
    ensures Then(prefix + [x], rest) == Then(prefix, Then([x], rest))
  {
    if rest.Ok? {
      assert prefix + [x] + rest.value == prefix + ([x] + rest.value);
    }
  }

  lemma ThenEnd<T>(prefix: seq<T>)
    ensures Then(prefix, Ok([])) == Ok(prefix)
  {
    assert prefix + [] == prefix;
  }

  method DecodeEnvChild(n: Node) returns (r: Result<Env, Error>)
    ensures r == EnvOf(n)
  {
    var blocks := ChildrenNamed(n.children, "env");
    if |blocks| > 1 { return Err(ManyEnvBlocks); }
    if blocks == [] { return Ok([]); }
    var block := blocks[0];
    var checked := OnlyProperties(block.entries, [], "env");
    if checked.Err? { return Err(checked.error); }
    var out: Env := [];
    ThenNil(block.children, EnvPairs(block.children));
    for i := 0 to |block.children|
      invariant EnvPairs(block.children) == Then(out, EnvPairs(block.children[i..]))
    {
      var entry := block.children[i];
      assert block.children[i..][1..] == block.children[i + 1..];
      var value := StringArgument(entry, entry.name);
      if value.Err? { return Err(value.error); }
      ThenSnoc(out, (entry.name, value.value), EnvPairs(block.children[i + 1..]));
      out := out + [(entry.name, value.value)];
    }
    ThenEnd(out);
    r := Ok(out);
  }

  method DecodePane(n: Node, allowRatio: bool) returns (r: Result<PaneTemplate, Error>)
    ensures r == PaneOf(n, allowRatio)
  {
    var properties := OnlyProperties(n.entries, PaneProperties(allowRatio), n.name);
    if properties.Err? { return Err(properties.error); }
    var children := OnlyChildren(n.children, ["env"], n.name);
    if children.Err? { return Err(children.error); }
    var command := StringProperty(n, "command");
    if command.Err? { return Err(command.error); }
    var cwd := StringProperty(n, "cwd");
    if cwd.Err? { return Err(cwd.error); }
    var name := StringProperty(n, "name");
    if name.Err? { return Err(name.error); }
    var active := BoolProperty(n, "active");
    if active.Err? { return Err(active.error); }
    var env := DecodeEnvChild(n);
    if env.Err? { return Err(env.error); }
    r := Ok(PaneTemplate(command.value, cwd.value, name.value, active.value == Some(true), env.value));
  }

  method DecodeLayoutNode(n: Node, allowRatio: bool) returns (r: Result<PaneNode, Error>)
    ensures r == LayoutOf(n, allowRatio)
    decreases n, 1
  {
    if n.name == "pane" {
      var pane := DecodePane(n, allowRatio);
      if pane.Err? { return Err(pane.error); }
      r := Ok(Leaf(pane.value));
    } else if n.name == "split" {
      r := DecodeSplit(n, allowRatio);
    } else {
      r := Err(NotALayout(n.name));
    }
  }

  method DecodeSplit(n: Node, allowRatio: bool) returns (r: Result<PaneNode, Error>)
    requires n.name == "split"
    ensures r == LayoutOf(n, allowRatio)
    decreases n, 0
  {
    var dir := DirectionOf(n);
    if dir.Err? { return Err(dir.error); }
    var properties := OnlyProperties(n.entries, SplitProperties(allowRatio), n.name);
    if properties.Err? { return Err(properties.error); }
    var children: seq<SplitChild> := [];
    ThenNil(n.children, ChildrenOf(n.children));
    for i := 0 to |n.children|
      invariant ChildrenOf(n.children) == Then(children, ChildrenOf(n.children[i..]))
    {
      assert n.children[i..][1..] == n.children[i + 1..];
      var weight := RatioOf(n.children[i]);
      if weight.Err? { return Err(weight.error); }
      var node := DecodeLayoutNode(n.children[i], true);
      if node.Err? { return Err(node.error); }
      ThenSnoc(children, SplitChild(weight.value, node.value), ChildrenOf(n.children[i + 1..]));
      children := children + [SplitChild(weight.value, node.value)];
    }
    ThenEnd(children);
    if |children| < 2 { return Err(TooFewChildren); }
    r := Ok(Split(dir.value, children));
  }

  method DecodeWindow(n: Node) returns (r: Result<WindowTemplate, Error>)
    ensures r == WindowOf(n)
  {
    var name := StringArgument(n, "window name");
    if name.Err? { return Err(name.error); }
    var properties := OnlyProperties(n.entries, ["cwd", "active"], n.name);
    if properties.Err? { return Err(properties.error); }
    var cwd := StringProperty(n, "cwd");
    if cwd.Err? { return Err(cwd.error); }
    var active := BoolProperty(n, "active");
    if active.Err? { return Err(active.error); }
    var env := DecodeEnvChild(n);
    if env.Err? { return Err(env.error); }
    var layouts := ChildrenNotNamed(n.children, "env");
    if layouts == [] { return Err(NoLayout(name.value)); }
    if |layouts| > 1 { return Err(ManyLayouts(name.value)); }
    var layout := DecodeLayoutNode(layouts[0], false);
    if layout.Err? { return Err(layout.error); }
    if CountActiveLeaves(layout.value) > 1 { return Err(ManyActivePanes(name.value)); }
    r := Ok(WindowTemplate(name.value, cwd.value, active.value == Some(true), env.value, layout.value));
  }

  method DecodeSession(n: Node) returns (r: Result<SessionTemplate, Error>)
    ensures r == SessionOf(n)
  {
    var name := StringArgument(n, "session name");
    if name.Err? { return Err(name.error); }
    var properties := OnlyProperties(n.entries, ["cwd"], n.name);
    if properties.Err? { return Err(properties.error); }
    var nodes := OnlyChildren(n.children, ["window", "env"], n.name);
    if nodes.Err? { return Err(nodes.error); }
    var cwd := StringProperty(n, "cwd");
    if cwd.Err? { return Err(cwd.error); }
    var env := DecodeEnvChild(n);
    if env.Err? { return Err(env.error); }
    var windows: seq<WindowTemplate> := [];
    ThenNil(n.children, WindowsOf(n.children));
    for i := 0 to |n.children|
      invariant WindowsOf(n.children) == Then(windows, WindowsOf(n.children[i..]))
    {
      var child := n.children[i];
      assert n.children[i..][1..] == n.children[i + 1..];
      if child.name == "window" {
        var w := DecodeWindow(child);
        if w.Err? { return Err(w.error); }
        ThenSnoc(windows, w.value, WindowsOf(n.children[i + 1..]));
        windows := windows + [w.value];
      } else if child.name != "env" {
        return Err(UnknownChild(child.name, "session"));
      }
    }
    ThenEnd(windows);
    if windows == [] { return Err(NoWindows(name.value)); }
    if CountActiveWindows(windows) > 1 { return Err(ManyActiveWindows(name.value)); }
    r := Ok(SessionTemplate(name.value, cwd.value, env.value, windows));
  }

  // --- what an accepted node satisfies ---

  lemma {:induction false} LayoutOfIsValid(n: Node, allowRatio: bool)
    requires LayoutOf(n, allowRatio).Ok?
    ensures ValidLayout(LayoutOf(n, allowRatio).value)
    decreases n, 1
  {
    if n.name == "split" {
      ChildrenOfIsValid(n.children);
    }
  }

  lemma {:induction false} ChildrenOfIsValid(ns: seq<Node>)
    requires ChildrenOf(ns).Ok?
    ensures ValidChildren(ChildrenOf(ns).value)
    decreases ns, 0
  {
    if ns != [] {
      LayoutOfIsValid(ns[0], true);
      ChildrenOfIsValid(ns[1..]);
      var rest := ChildrenOf(ns[1..]).value;
      assert ChildrenOf(ns).value[1..] == rest;
    }
  }

  lemma {:induction false} WindowsOfAreValid(ns: seq<Node>)
    requires WindowsOf(ns).Ok?
    ensures forall w :: w in WindowsOf(ns).value ==> ValidWindow(w)
  {
    if ns != [] {
      WindowsOfAreValid(ns[1..]);
      if ns[0].name == "window" {
        var layouts := ChildrenNotNamed(ns[0].children, "env");
        LayoutOfIsValid(layouts[0], false);
      }
    }
  }

  /** Whatever the node, a decoded session has at least one window, at most one active window, at
      most one active pane per window, and no split with fewer than two children. */
  lemma SessionOfIsValid(n: Node)
    requires SessionOf(n).Ok?
    ensures ValidSession(SessionOf(n).value)
  {
    WindowsOfAreValid(n.children);
  }
}
