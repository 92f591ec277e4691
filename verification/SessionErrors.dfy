/** What an error of the session decoder says: the node it rejects, or one below it, has the defect
    the error names. */
module SessionErrors {
  import opened Prelude
  import opened Kdl
  import opened Templates
  import opened SessionDecoder
  import opened SessionMeaning

  predicate HasKey(es: seq<Entry>, key: string) { exists i :: 0 <= i < |es| && es[i].name == Some(key) }

  predicate HasChild(ns: seq<Node>, name: string) { exists i :: 0 <= i < |ns| && ns[i].name == name }

  /** Two children, other than one another, named `env` (or both not, for `env` false). */
  predicate TwoChildren(ns: seq<Node>, env: bool) {
    exists i, j :: 0 <= i < j < |ns| && (ns[i].name == "env") == env && (ns[j].name == "env") == env
  }

  predicate BothActive(ws: seq<WindowTemplate>, i: nat, j: nat) { i < j < |ws| && ws[i].active && ws[j].active }

  predicate OneActive(layout: PaneNode) {
    forall i, j :: 0 <= i < j < |Leaves(layout)| ==> !(Leaves(layout)[i].active && Leaves(layout)[j].active)
  }

  ghost predicate Defect(n: Node, e: Error) {
    match e
    case MissingString(_) => forall text :: !FirstArgument(n.entries, Str(text))
    case UnknownProperty(key, name) =>
      n.name == name && HasKey(n.entries, key) &&
      key !in (if name == "pane" then ["command", "cwd", "name", "active"] else if name == "window" then ["cwd", "active"]
               else if name == "session" then ["cwd"] else [])
    case UnknownChild(child, name) => HasChild(n.children, child) && child != "env"
    case NotAString(key) => exists v :: LastIs(n.entries, key, v) && !v.Str?
    case NotABool(key) => exists v :: LastIs(n.entries, key, v) && !v.Bool?
    case NoWindows(name) => FirstArgument(n.entries, Str(name)) && !HasChild(n.children, "window")
    case ManyActiveWindows(name) =>
      FirstArgument(n.entries, Str(name)) && exists ws, i, j :: DescribesWindows(n.children, ws) && BothActive(ws, i, j)
    case NoLayout(name) => FirstArgument(n.entries, Str(name)) && forall i :: 0 <= i < |n.children| ==> n.children[i].name == "env"
    case ManyLayouts(name) => FirstArgument(n.entries, Str(name)) && TwoChildren(n.children, false)
    case ManyActivePanes(name) =>
      FirstArgument(n.entries, Str(name)) && exists i, layout :: LayoutAt(n.children, i, layout) && !OneActive(layout)
    case NotALayout(name) => n.name == name && name != "pane" && name != "split"
    case BadDirection(got) => FirstArgument(n.entries, Str(got)) && got != "vertical" && got != "horizontal"
    case TooFewChildren => n.name == "split" && |n.children| < 2
    case RatioNotInteger => exists v :: LastIs(n.entries, "ratio", v) && !v.Integer?
    case RatioOutOfRange => exists i :: LastIs(n.entries, "ratio", Integer(i)) && !(0 <= i < 0x1_0000_0000)
    case RatioZero => LastIs(n.entries, "ratio", Integer(0))
    case ManyEnvBlocks => TwoChildren(n.children, true)
    case _ => false
  }

  /** The node or one below it has the defect. */
  ghost predicate Somewhere(n: Node, e: Error) {
    Defect(n, e) || exists i :: 0 <= i < |n.children| && Somewhere(n.children[i], e)
  }

  // --- single checks ---

  lemma {:induction false} UnknownKey(es: seq<Entry>, allowed: seq<string>, node: string)
    requires OnlyProperties(es, allowed, node).Err?
    ensures var e := OnlyProperties(es, allowed, node).error;
            e.UnknownProperty? && e.node == node && HasKey(es, e.property) && e.property !in allowed
  {
    if es[0].name.None? || es[0].name.value in allowed {
      UnknownKey(es[1..], allowed, node);
      var e := OnlyProperties(es, allowed, node).error;
      var i :| 0 <= i < |es[1..]| && es[1..][i].name == Some(e.property);
      assert es[i + 1].name == Some(e.property);
    }
  }

  lemma {:induction false} StrangeChild(ns: seq<Node>, allowed: seq<string>, node: string)
    requires OnlyChildren(ns, allowed, node).Err?
    ensures var e := OnlyChildren(ns, allowed, node).error;
            e.UnknownChild? && e.node == node && HasChild(ns, e.child) && e.child !in allowed
  {
    if ns[0].name in allowed {
      StrangeChild(ns[1..], allowed, node);
      var e := OnlyChildren(ns, allowed, node).error;
      var i :| 0 <= i < |ns[1..]| && ns[1..][i].name == e.child;
      assert ns[i + 1].name == e.child;
    }
  }

  lemma NoText(n: Node, key: string)
    requires StringProperty(n, key).Err?
    ensures Defect(n, StringProperty(n, key).error)
  {
    PropertyMeaning(n.entries, key, Property(n.entries, key).value);
  }

  lemma NoFlag(n: Node, key: string)
    requires BoolProperty(n, key).Err?
    ensures Defect(n, BoolProperty(n, key).error)
  {
    PropertyMeaning(n.entries, key, Property(n.entries, key).value);
  }

  lemma NoArgument(n: Node, what: string)
    requires StringArgument(n, what).Err?
    ensures Defect(n, StringArgument(n, what).error)
  {
    forall text: string
      ensures !FirstArgument(n.entries, Str(text))
    {
      ArgumentMeaning(n.entries, Str(text));
    }
  }

  lemma BadRatio(n: Node)
    requires RatioOf(n).Err?
    ensures Defect(n, RatioOf(n).error)
  {
    PropertyMeaning(n.entries, "ratio", Property(n.entries, "ratio").value);
  }

  lemma BadDirectionIsTrue(n: Node)
    requires DirectionOf(n).Err?
    ensures Defect(n, DirectionOf(n).error)
  {
    hide FirstArgument;
    if StringArgument(n, "split direction").Err? {
      NoArgument(n, "split direction");
    } else {
      ArgumentTextMeaning(n, "split direction", StringArgument(n, "split direction").value);
    }
  }

  lemma Below(n: Node, i: nat, e: Error)
    requires i < |n.children| && Somewhere(n.children[i], e)
    ensures Somewhere(n, e)
  {
  }

  lemma {:induction false} BadPair(ns: seq<Node>) returns (i: nat)
    requires EnvPairs(ns).Err?
    ensures i < |ns| && Defect(ns[i], EnvPairs(ns).error)
  {
    hide Defect;
    if StringArgument(ns[0], ns[0].name).Err? {
      NoArgument(ns[0], ns[0].name);
      i := 0;
    } else {
      i := BadPair(ns[1..]);
      i := i + 1;
    }
  }

  lemma {:induction false} ManyMatch<T>(s: seq<T>, p: T -> bool) returns (i: nat, j: nat)
    requires |Filter(s, p)| > 1
    ensures i < j < |s| && p(s[i]) && p(s[j])
  {
    AtMostOne(s, p);
    i, j :| 0 <= i < j < |s| && p(s[i]) && p(s[j]);
  }

  lemma BadEnv(n: Node)
    requires EnvOf(n).Err?
    ensures Somewhere(n, EnvOf(n).error)
  {
    var blocks, p := ChildrenNamed(n.children, "env"), (c: Node) => Named(c, "env");
    if |blocks| > 1 {
      var i, j := ManyMatch(n.children, p);
      assert TwoChildren(n.children, true);
    } else if blocks != [] {
      var i := FilterOneAt(n.children, p);
      var block := n.children[i];
      if OnlyProperties(block.entries, [], "env").Err? {
        UnknownKey(block.entries, [], "env");
      } else {
        var k := BadPair(block.children);
        Below(block, k, EnvOf(n).error);
      }
      Below(n, i, EnvOf(n).error);
    }
  }

  // --- nodes ---

  lemma BadPane(n: Node, underSplit: bool)
    requires n.name == "pane" && PaneOf(n, underSplit).Err?
    ensures Somewhere(n, PaneOf(n, underSplit).error)
  {
    hide StringProperty, BoolProperty, EnvOf, OnlyProperties, OnlyChildren;
    if OnlyProperties(n.entries, PaneProperties(underSplit), n.name).Err? {
      UnknownKey(n.entries, PaneProperties(underSplit), n.name);
    } else if OnlyChildren(n.children, ["env"], n.name).Err? {
      StrangeChild(n.children, ["env"], n.name);
    } else if StringProperty(n, "command").Err? {
      NoText(n, "command");
    } else if StringProperty(n, "cwd").Err? {
      NoText(n, "cwd");
    } else if StringProperty(n, "name").Err? {
      NoText(n, "name");
    } else if BoolProperty(n, "active").Err? {
      NoFlag(n, "active");
    } else {
      BadEnv(n);
    }
  }

  lemma {:induction false} ChildCount(ns: seq<Node>)
    ensures ChildrenOf(ns).Ok? ==> |ChildrenOf(ns).value| == |ns|
  {
    if ns != [] {
      ChildCount(ns[1..]);
    }
  }

  lemma {:induction false} BadChildren(ns: seq<Node>) returns (i: nat)
    requires ChildrenOf(ns).Err?
    ensures i < |ns| && Somewhere(ns[i], ChildrenOf(ns).error)
    decreases ns, 0
  {
    hide Defect, RatioOf, LayoutOf;
    if RatioOf(ns[0]).Err? {
      BadRatio(ns[0]);
      i := 0;
    } else if LayoutOf(ns[0], true).Err? {
      BadLayout(ns[0], true);
      i := 0;
    } else {
      i := BadChildren(ns[1..]);
      i := i + 1;
    }
  }

  lemma {:induction false} BadLayout(n: Node, underSplit: bool)
    requires LayoutOf(n, underSplit).Err?
    ensures Somewhere(n, LayoutOf(n, underSplit).error)
    decreases n, 1
  {
    hide PaneOf, DirectionOf, OnlyProperties, ChildrenOf;
    if n.name == "pane" {
      BadPane(n, underSplit);
    } else if n.name == "split" {
      if DirectionOf(n).Err? {
        BadDirectionIsTrue(n);
      } else if OnlyProperties(n.entries, SplitProperties(underSplit), n.name).Err? {
        UnknownKey(n.entries, SplitProperties(underSplit), n.name);
      } else if ChildrenOf(n.children).Err? {
        var i := BadChildren(n.children);
        Below(n, i, LayoutOf(n, underSplit).error);
      } else {
        ChildCount(n.children);
      }
    }
  }

  lemma BadLayouts(n: Node, name: string)
    requires FirstArgument(n.entries, Str(name))
    requires var layouts := ChildrenNotNamed(n.children, "env");
             |layouts| != 1 || LayoutOf(layouts[0], false).Err? || CountActiveLeaves(LayoutOf(layouts[0], false).value) > 1
    ensures var layouts := ChildrenNotNamed(n.children, "env");
            Somewhere(n, if layouts == [] then NoLayout(name) else if |layouts| > 1 then ManyLayouts(name)
                         else if LayoutOf(layouts[0], false).Err? then LayoutOf(layouts[0], false).error else ManyActivePanes(name))
  {
    hide LayoutOf, FirstArgument, CountActiveLeaves, Leaves;
    var layouts, p := ChildrenNotNamed(n.children, "env"), (c: Node) => !Named(c, "env");
    if layouts == [] {
      forall i | 0 <= i < |n.children|
        ensures n.children[i].name == "env"
      {
        FilterMember(n.children, p, n.children[i]);
      }
    } else if |layouts| > 1 {
      var i, j := ManyMatch(n.children, p);
      assert TwoChildren(n.children, false);
    } else {
      var i := FilterOneAt(n.children, p);
      if LayoutOf(layouts[0], false).Err? {
        BadLayout(n.children[i], false);
        Below(n, i, LayoutOf(layouts[0], false).error);
      } else {
        var layout := LayoutOf(layouts[0], false).value;
        LayoutMeaning(n.children[i], false, layout);
        assert LayoutAt(n.children, i, layout);
        ActiveLeavesMeaning(layout);
        AtMostOne(Leaves(layout), (q: PaneTemplate) => q.active);
        assert !OneActive(layout);
      }
    }
  }

  lemma BadWindow(n: Node)
    requires n.name == "window" && WindowOf(n).Err?
    ensures Somewhere(n, WindowOf(n).error)
  {
    hide StringProperty, BoolProperty, EnvOf, OnlyProperties, StringArgument, LayoutOf, CountActiveLeaves, FirstArgument, ChildrenNotNamed;
    if StringArgument(n, "window name").Err? {
      NoArgument(n, "window name");
    } else if OnlyProperties(n.entries, ["cwd", "active"], n.name).Err? {
      UnknownKey(n.entries, ["cwd", "active"], n.name);
    } else if StringProperty(n, "cwd").Err? {
      NoText(n, "cwd");
    } else if BoolProperty(n, "active").Err? {
      NoFlag(n, "active");
    } else if EnvOf(n).Err? {
      BadEnv(n);
    } else {
      var name := StringArgument(n, "window name").value;
      ArgumentTextMeaning(n, "window name", name);
      BadLayouts(n, name);
    }
  }

  lemma {:induction false} BadWindows(ns: seq<Node>) returns (i: nat)
    requires WindowsOf(ns).Err? && forall j :: 0 <= j < |ns| ==> ns[j].name in ["window", "env"]
    ensures i < |ns| && Somewhere(ns[i], WindowsOf(ns).error)
  {
    hide WindowOf, Defect;
    if ns[0].name == "window" && WindowOf(ns[0]).Err? {
      BadWindow(ns[0]);
      i := 0;
    } else {
      assert forall j :: 0 <= j < |ns| - 1 ==> ns[1..][j] == ns[j + 1];
      i := BadWindows(ns[1..]);
      i := i + 1;
    }
  }

  lemma {:induction false} NoWindowNodes(ns: seq<Node>)
    requires WindowsOf(ns) == Ok([])
    ensures !HasChild(ns, "window")
  {
    hide WindowOf;
    if ns != [] {
      NoWindowNodes(ns[1..]);
      assert forall j :: 1 <= j < |ns| ==> ns[j] == ns[1..][j - 1];
    }
  }

  /** A rejected session has the defect its error names: in itself, a window, an environment or a
      layout node below. */
  lemma ErrorsAreTrue(n: Node)
    requires n.name == "session" && SessionOf(n).Err?
    ensures Somewhere(n, SessionOf(n).error)
  {
    hide StringProperty, EnvOf, OnlyProperties, OnlyChildren, StringArgument, FirstArgument, WindowsOf, CountActiveWindows,
         DescribesWindows;
    if StringArgument(n, "session name").Err? {
      NoArgument(n, "session name");
    } else if OnlyProperties(n.entries, ["cwd"], n.name).Err? {
      UnknownKey(n.entries, ["cwd"], n.name);
    } else if OnlyChildren(n.children, ["window", "env"], n.name).Err? {
      StrangeChild(n.children, ["window", "env"], n.name);
    } else if StringProperty(n, "cwd").Err? {
      NoText(n, "cwd");
    } else if EnvOf(n).Err? {
      BadEnv(n);
    } else if WindowsOf(n.children).Err? {
      OnlyChildrenMeaning(n.children, ["window", "env"], n.name);
      var i := BadWindows(n.children);
      Below(n, i, SessionOf(n).error);
    } else {
      var name, ws := StringArgument(n, "session name").value, WindowsOf(n.children).value;
      ArgumentTextMeaning(n, "session name", name);
      if ws == [] {
        NoWindowNodes(n.children);
      } else {
        WindowsMeaning(n.children, ws);
        ActiveWindowsMeaning(ws);
        var i, j := ManyMatch(ws, (w: WindowTemplate) => w.active);
        assert BothActive(ws, i, j);
      }
    }
  }
}
