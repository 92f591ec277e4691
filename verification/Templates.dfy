/** Declarative session templates: what a `session` node in the configuration decodes to. */
module Templates {
  import opened Prelude

  type Env = seq<(string, string)>

  /** A split weight: a non-zero unsigned 32-bit integer. */
  type Weight = w: int | 1 <= w < 0x1_0000_0000 witness 1

  datatype Direction = Vertical | Horizontal

  datatype PaneTemplate = PaneTemplate(
    command: Option<string>, cwd: Option<string>, name: Option<string>, active: bool, env: Env)

  datatype PaneNode =
    | Leaf(pane: PaneTemplate)
    | Split(dir: Direction, children: seq<SplitChild>)

  datatype SplitChild = SplitChild(weight: Weight, node: PaneNode)

  datatype WindowTemplate = WindowTemplate(
    name: string, cwd: Option<string>, active: bool, env: Env, layout: PaneNode)

  datatype SessionTemplate = SessionTemplate(
    name: string, cwd: Option<string>, env: Env, windows: seq<WindowTemplate>)

  function CountActiveLeaves(node: PaneNode): nat
    decreases node, 0
  {
    match node
    case Leaf(p) => if p.active then 1 else 0
    case Split(_, children) => CountActiveLeavesIn(children)
  }

  function CountActiveLeavesIn(children: seq<SplitChild>): nat
    decreases children, 1
  {
    if children == [] then 0
    else
      assert children[0].node < children[0];
      CountActiveLeaves(children[0].node) + CountActiveLeavesIn(children[1..])
  }

  function CountActiveWindows(ws: seq<WindowTemplate>): nat {
    if ws == [] then 0 else (if ws[0].active then 1 else 0) + CountActiveWindows(ws[1..])
  }

  /** Every split, at every depth, has at least two children. (Weights of at least 1 are part of
      the type.) */
  predicate ValidLayout(node: PaneNode)
    decreases node, 0
  {
    match node
    case Leaf(_) => true
    case Split(_, children) => |children| >= 2 && ValidChildren(children)
  }

  predicate ValidChildren(children: seq<SplitChild>)
    decreases children, 1
  {
    children == [] ||
    (assert children[0].node < children[0];
     ValidLayout(children[0].node) && ValidChildren(children[1..]))
  }

  predicate ValidWindow(w: WindowTemplate) {
    ValidLayout(w.layout) && CountActiveLeaves(w.layout) <= 1
  }

  predicate ValidSession(s: SessionTemplate) {
    && s.windows != []
    && CountActiveWindows(s.windows) <= 1
    && forall i :: 0 <= i < |s.windows| ==> ValidWindow(s.windows[i])
  }
}
