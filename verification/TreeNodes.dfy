/** The choose-tree: per-session snapshots flattened to a pre-order list of nodes with depths. */
module TreeNodes {
  import opened Prelude

  datatype PaneSnap = PaneSnap(id: nat, name: Option<string>)

  datatype WindowSnap = WindowSnap(id: nat, name: string, panes: seq<PaneSnap>, activePane: nat)

  datatype SessionSnap = SessionSnap(name: string, windows: seq<WindowSnap>, activeWindow: nat, totalPanes: nat)

  datatype Kind = SessionNode | WindowNode(window: nat) | PaneNode(window: nat, pane: nat)

  datatype Node = Node(
    session: string, kind: Kind, depth: nat, caption: string, name: string, index: nat, isCurrent: bool)

  /** How the three kinds of label are written. */
  datatype Labels = Labels(
    session: (string, nat, nat) -> string, window: (nat, string) -> string, pane: (nat, string) -> string)

  function PaneName(p: PaneSnap): string { if p.name.Some? then p.name.value else "" }

  // --- the list ---

  function NodeOfSession(labels: Labels, st: SessionSnap, current: string): Node {
    Node(st.name, SessionNode, 0, labels.session(st.name, |st.windows|, st.totalPanes), st.name, 0, st.name == current)
  }

  function NodeOfWindow(labels: Labels, st: SessionSnap, current: string, w: nat): Node
    requires w < |st.windows|
  {
    var win := st.windows[w];
    Node(st.name, WindowNode(win.id), 1, labels.window(w + 1, win.name), win.name, w + 1,
         st.name == current && w == st.activeWindow)
  }

  function NodeOfPane(labels: Labels, st: SessionSnap, current: string, w: nat, p: nat): Node
    requires w < |st.windows| && p < |st.windows[w].panes|
  {
    var win := st.windows[w];
    var pane := win.panes[p];
    Node(st.name, PaneNode(win.id, pane.id), 2, labels.pane(p + 1, PaneName(pane)), PaneName(pane), p + 1,
         st.name == current && w == st.activeWindow && pane.id == win.activePane)
  }

  /** The nodes of window `w`'s panes from number `p` on. */
  function PaneNodes(labels: Labels, st: SessionSnap, current: string, w: nat, p: nat): seq<Node>
    requires w < |st.windows| && p <= |st.windows[w].panes|
    decreases |st.windows[w].panes| - p
  {
    if p == |st.windows[w].panes| then []
    else [NodeOfPane(labels, st, current, w, p)] + PaneNodes(labels, st, current, w, p + 1)
  }

  function WindowNodes(labels: Labels, st: SessionSnap, current: string, w: nat): seq<Node>
    requires w <= |st.windows|
    decreases |st.windows| - w
  {
    if w == |st.windows| then []
    else
      [NodeOfWindow(labels, st, current, w)]
      + (PaneNodes(labels, st, current, w, 0) + WindowNodes(labels, st, current, w + 1))
  }

  function Nodes(labels: Labels, snaps: seq<SessionSnap>, current: string): seq<Node> {
    if snaps == [] then []
    else
      [NodeOfSession(labels, snaps[0], current)]
      + (WindowNodes(labels, snaps[0], current, 0) + Nodes(labels, snaps[1..], current))
  }

  lemma Shift(nodes: seq<Node>, head: Node, rest: seq<Node>)
    ensures nodes + ([head] + rest) == (nodes + [head]) + rest
  {
  }

  lemma NextPane(labels: Labels, st: SessionSnap, current: string, w: nat, p: nat, nodes: seq<Node>, later: seq<Node>)
    requires w < |st.windows| && p < |st.windows[w].panes|
    ensures nodes + (PaneNodes(labels, st, current, w, p) + later) ==
            (nodes + [NodeOfPane(labels, st, current, w, p)]) + (PaneNodes(labels, st, current, w, p + 1) + later)
  {
    hide NodeOfPane;
    var pane, more := NodeOfPane(labels, st, current, w, p), PaneNodes(labels, st, current, w, p + 1);
    ConcatAssociative([pane], more, later);
    Shift(nodes, pane, more + later);
  }

  lemma NextWindow(labels: Labels, st: SessionSnap, current: string, w: nat, nodes: seq<Node>, later: seq<Node>)
    requires w < |st.windows|
    ensures nodes + (WindowNodes(labels, st, current, w) + later) ==
            (nodes + [NodeOfWindow(labels, st, current, w)])
            + (PaneNodes(labels, st, current, w, 0) + (WindowNodes(labels, st, current, w + 1) + later))
  {
    hide NodeOfWindow, PaneNodes;
    var win, panes := NodeOfWindow(labels, st, current, w), PaneNodes(labels, st, current, w, 0);
    var more := WindowNodes(labels, st, current, w + 1);
    ConcatAssociative([win], panes + more, later);
    ConcatAssociative(panes, more, later);
    Shift(nodes, win, panes + (more + later));
  }

  lemma NextSession(labels: Labels, snaps: seq<SessionSnap>, current: string, i: nat, nodes: seq<Node>)
    requires i < |snaps|
    ensures nodes + Nodes(labels, snaps[i..], current) ==
            (nodes + [NodeOfSession(labels, snaps[i], current)])
            + (WindowNodes(labels, snaps[i], current, 0) + Nodes(labels, snaps[i + 1..], current))
  {
    hide NodeOfSession, WindowNodes;
    assert snaps[i..][1..] == snaps[i + 1..];
    Shift(nodes, NodeOfSession(labels, snaps[i], current),
          WindowNodes(labels, snaps[i], current, 0) + Nodes(labels, snaps[i + 1..], current));
  }

  lemma Nothing(nodes: seq<Node>)
    ensures [] + nodes == nodes == nodes + []
  {
  }

  method BuildTreeNodes(labels: Labels, snaps: seq<SessionSnap>, current: string) returns (nodes: seq<Node>)
    ensures nodes == Nodes(labels, snaps, current)
  {
    nodes := [];
    ghost var all := Nodes(labels, snaps, current);
    Nothing(all);
    assert snaps[0..] == snaps;
    for i := 0 to |snaps|
      invariant nodes + Nodes(labels, snaps[i..], current) == all
    {
      var st := snaps[i];
      ghost var later := Nodes(labels, snaps[i + 1..], current);
      hide Nodes;
      NextSession(labels, snaps, current, i, nodes);
      nodes := nodes + [NodeOfSession(labels, st, current)];
      for wi := 0 to |st.windows|
        invariant nodes + (WindowNodes(labels, st, current, wi) + later) == all
      {
        ghost var after := WindowNodes(labels, st, current, wi + 1) + later;
        hide WindowNodes, NodeOfWindow, NodeOfPane;
        NextWindow(labels, st, current, wi, nodes, later);
        nodes := nodes + [NodeOfWindow(labels, st, current, wi)];
        for pi := 0 to |st.windows[wi].panes|
          invariant nodes + (PaneNodes(labels, st, current, wi, pi) + after) == all
        {
          NextPane(labels, st, current, wi, pi, nodes, after);
          nodes := nodes + [NodeOfPane(labels, st, current, wi, pi)];
        }
        Nothing(after);
      }
      Nothing(later);
    }
    assert snaps[|snaps|..] == [];
    Nothing(nodes);
  }

  // --- reading it back ---

  datatype PaneTree = PaneTree(session: string, kind: Kind, index: nat, name: string, caption: string)

  datatype WindowTree = WindowTree(session: string, kind: Kind, index: nat, name: string, caption: string, panes: seq<PaneTree>)

  datatype SessionTree = SessionTree(session: string, kind: Kind, index: nat, name: string, caption: string, windows: seq<WindowTree>)

  datatype Parsed = Parsed(panes: seq<PaneTree>, windows: seq<WindowTree>, sessions: seq<SessionTree>)

  /** The trees a list stands for, by depth alone: panes belong to the window right above, windows to
      the session right above; panes or windows without one are left over. */
  function ParseByDepth(nodes: seq<Node>): Parsed {
    if nodes == [] then Parsed([], [], [])
    else
      var n, rest := nodes[0], ParseByDepth(nodes[1..]);
      if n.depth == 2 then
        rest.(panes := [PaneTree(n.session, n.kind, n.index, n.name, n.caption)] + rest.panes)
      else if n.depth == 1 then
        rest.(panes := [], windows := [WindowTree(n.session, n.kind, n.index, n.name, n.caption, rest.panes)] + rest.windows)
      else
        rest.(windows := [], sessions := [SessionTree(n.session, n.kind, n.index, n.name, n.caption, rest.windows)] + rest.sessions)
  }

  function TreeOfPane(labels: Labels, st: SessionSnap, w: WindowSnap, p: nat): PaneTree
    requires p < |w.panes|
  {
    var name := PaneName(w.panes[p]);
    PaneTree(st.name, PaneNode(w.id, w.panes[p].id), p + 1, name, labels.pane(p + 1, name))
  }

  function TreeOfWindow(labels: Labels, st: SessionSnap, w: nat): WindowTree
    requires w < |st.windows|
  {
    var win := st.windows[w];
    WindowTree(st.name, WindowNode(win.id), w + 1, win.name, labels.window(w + 1, win.name),
               seq(|win.panes|, p requires 0 <= p < |win.panes| => TreeOfPane(labels, st, win, p)))
  }

  function TreeOfSession(labels: Labels, st: SessionSnap): SessionTree {
    SessionTree(st.name, SessionNode, 0, st.name, labels.session(st.name, |st.windows|, st.totalPanes),
                seq(|st.windows|, w requires 0 <= w < |st.windows| => TreeOfWindow(labels, st, w)))
  }

  lemma {:induction false} ParseCons(n: Node, rest: seq<Node>)
    ensures ParseByDepth([n] + rest) ==
            var parsed := ParseByDepth(rest);
            if n.depth == 2 then
              parsed.(panes := [PaneTree(n.session, n.kind, n.index, n.name, n.caption)] + parsed.panes)
            else if n.depth == 1 then
              parsed.(panes := [], windows := [WindowTree(n.session, n.kind, n.index, n.name, n.caption, parsed.panes)] + parsed.windows)
            else
              parsed.(windows := [],
                      sessions := [SessionTree(n.session, n.kind, n.index, n.name, n.caption, parsed.windows)] + parsed.sessions)
  {
    assert ([n] + rest)[1..] == rest;
  }

  lemma {:induction false} ParsePanes(labels: Labels, st: SessionSnap, current: string, w: nat, p: nat, rest: seq<Node>)
    requires w < |st.windows| && p <= |st.windows[w].panes|
    requires ParseByDepth(rest).panes == []
    ensures ParseByDepth(PaneNodes(labels, st, current, w, p) + rest) ==
            ParseByDepth(rest).(panes := TreeOfWindow(labels, st, w).panes[p..])
    decreases |st.windows[w].panes| - p
  {
    hide ParseByDepth;
    var win := st.windows[w];
    if p == |win.panes| {
      assert [] + rest == rest;
    } else {
      var more := PaneNodes(labels, st, current, w, p + 1) + rest;
      ParsePanes(labels, st, current, w, p + 1, rest);
      ParseCons(NodeOfPane(labels, st, current, w, p), more);
      assert PaneNodes(labels, st, current, w, p) + rest == [NodeOfPane(labels, st, current, w, p)] + more;
      assert TreeOfWindow(labels, st, w).panes[p..] == [TreeOfPane(labels, st, win, p)] + TreeOfWindow(labels, st, w).panes[p + 1..];
    }
  }

  lemma {:induction false} ParseWindows(labels: Labels, st: SessionSnap, current: string, w: nat, rest: seq<Node>)
    requires w <= |st.windows|
    requires ParseByDepth(rest).panes == [] && ParseByDepth(rest).windows == []
    ensures ParseByDepth(WindowNodes(labels, st, current, w) + rest) ==
            ParseByDepth(rest).(windows := TreeOfSession(labels, st).windows[w..])
    decreases |st.windows| - w
  {
    hide ParseByDepth, PaneNodes;
    if w == |st.windows| {
      assert [] + rest == rest;
    } else {
      var later := WindowNodes(labels, st, current, w + 1) + rest;
      var panes := PaneNodes(labels, st, current, w, 0);
      ParseWindows(labels, st, current, w + 1, rest);
      ParsePanes(labels, st, current, w, 0, later);
      ParseCons(NodeOfWindow(labels, st, current, w), panes + later);
      assert WindowNodes(labels, st, current, w) + rest == [NodeOfWindow(labels, st, current, w)] + (panes + later);
      assert TreeOfSession(labels, st).windows[w..] == [TreeOfWindow(labels, st, w)] + TreeOfSession(labels, st).windows[w + 1..];
    }
  }

  lemma SessionWindows(labels: Labels, st: SessionSnap)
    ensures TreeOfSession(labels, st) ==
            SessionTree(st.name, SessionNode, 0, st.name, labels.session(st.name, |st.windows|, st.totalPanes),
                        TreeOfSession(labels, st).windows[0..])
  {
  }

  /** Read back by depth, the list gives every session with its windows and panes in order, nothing
      loose: each session, window and pane with its ids, its 1-based number, its name (an unnamed
      pane's is empty) and its label. */
  lemma {:induction false} ParsesBack(labels: Labels, snaps: seq<SessionSnap>, current: string)
    ensures ParseByDepth(Nodes(labels, snaps, current)) ==
            Parsed([], [], seq(|snaps|, i requires 0 <= i < |snaps| => TreeOfSession(labels, snaps[i])))
  {
    hide WindowNodes, TreeOfSession;
    if snaps == [] {
      assert ParseByDepth([]) == Parsed([], [], []);
    } else {
      var st, rest := snaps[0], Nodes(labels, snaps[1..], current);
      hide ParseByDepth;
      ParsesBack(labels, snaps[1..], current);
      ParseWindows(labels, st, current, 0, rest);
      ParseCons(NodeOfSession(labels, st, current), WindowNodes(labels, st, current, 0) + rest);
      SessionWindows(labels, st);
      assert seq(|snaps|, i requires 0 <= i < |snaps| => TreeOfSession(labels, snaps[i])) ==
             [TreeOfSession(labels, st)] + seq(|snaps[1..]|, i requires 0 <= i < |snaps[1..]| => TreeOfSession(labels, snaps[1..][i]));
    }
  }

  // --- the current path ---

  function CurrentNodes(nodes: seq<Node>): seq<Node> { Filter(nodes, (n: Node) => n.isCurrent) }

  /** The current path of one session: itself, its active window if there is one of that number,
      and that window's pane with the active id. */
  function PathIn(labels: Labels, st: SessionSnap, current: string): seq<Node> {
    [NodeOfSession(labels, st, current)] +
    if st.activeWindow < |st.windows| then
      [NodeOfWindow(labels, st, current, st.activeWindow)] +
      CurrentNodes(PaneNodes(labels, st, current, st.activeWindow, 0))
    else []
  }

  function CurrentPath(labels: Labels, snaps: seq<SessionSnap>, current: string): seq<Node> {
    if snaps == [] then []
    else (if snaps[0].name == current then PathIn(labels, snaps[0], current) else []) + CurrentPath(labels, snaps[1..], current)
  }

  lemma {:induction false} CurrentCons(n: Node, rest: seq<Node>)
    ensures CurrentNodes([n] + rest) == (if n.isCurrent then [n] else []) + CurrentNodes(rest)
  {
    assert ([n] + rest)[1..] == rest;
  }

  lemma {:induction false} NoCurrentPanes(labels: Labels, st: SessionSnap, current: string, w: nat, p: nat)
    requires w < |st.windows| && p <= |st.windows[w].panes|
    requires st.name != current || w != st.activeWindow
    ensures CurrentNodes(PaneNodes(labels, st, current, w, p)) == []
    decreases |st.windows[w].panes| - p
  {
    if p < |st.windows[w].panes| {
      NoCurrentPanes(labels, st, current, w, p + 1);
      CurrentCons(NodeOfPane(labels, st, current, w, p), PaneNodes(labels, st, current, w, p + 1));
    }
  }

  lemma CurrentAppend(a: seq<Node>, b: seq<Node>)
    ensures CurrentNodes(a + b) == CurrentNodes(a) + CurrentNodes(b)
  {
    FilterAppend(a, b, (n: Node) => n.isCurrent);
  }

  lemma NoneCurrent()
    ensures CurrentNodes([]) == []
  {
  }

  lemma {:induction false} CurrentWindows(labels: Labels, st: SessionSnap, current: string, w: nat)
    requires w <= |st.windows|
    ensures CurrentNodes(WindowNodes(labels, st, current, w)) ==
            if st.name == current && w <= st.activeWindow < |st.windows| then
              [NodeOfWindow(labels, st, current, st.activeWindow)] +
              CurrentNodes(PaneNodes(labels, st, current, st.activeWindow, 0))
            else []
    decreases |st.windows| - w
  {
    hide CurrentNodes, PaneNodes;
    if w < |st.windows| {
      var panes, later := PaneNodes(labels, st, current, w, 0), WindowNodes(labels, st, current, w + 1);
      CurrentWindows(labels, st, current, w + 1);
      CurrentCons(NodeOfWindow(labels, st, current, w), panes + later);
      CurrentAppend(panes, later);
      if st.name != current || w != st.activeWindow {
        NoCurrentPanes(labels, st, current, w, 0);
        assert [] + CurrentNodes(later) == CurrentNodes(later);
      } else {
        assert CurrentNodes(panes) + [] == CurrentNodes(panes);
      }
    } else {
      NoneCurrent();
    }
  }

  /** The marked nodes are exactly the paths of the sessions called `current`, in order. */
  lemma {:induction false} MarksThePath(labels: Labels, snaps: seq<SessionSnap>, current: string)
    ensures CurrentNodes(Nodes(labels, snaps, current)) == CurrentPath(labels, snaps, current)
  {
    hide CurrentNodes, WindowNodes, PaneNodes;
    if snaps == [] {
      NoneCurrent();
    } else {
      var st, rest := snaps[0], Nodes(labels, snaps[1..], current);
      MarksThePath(labels, snaps[1..], current);
      CurrentCons(NodeOfSession(labels, st, current), WindowNodes(labels, st, current, 0) + rest);
      CurrentAppend(WindowNodes(labels, st, current, 0), rest);
      CurrentWindows(labels, st, current, 0);
      ConcatAssociative(if st.name == current then [NodeOfSession(labels, st, current)] else [],
                        CurrentNodes(WindowNodes(labels, st, current, 0)), CurrentNodes(rest));
      if st.name != current {
        assert [] + CurrentNodes(rest) == CurrentNodes(rest);
      }
    }
  }

  lemma {:induction false} NoMorePanes(labels: Labels, st: SessionSnap, current: string, w: nat, p: nat)
    requires w < |st.windows| && p <= |st.windows[w].panes|
    requires forall q :: p <= q < |st.windows[w].panes| ==> st.windows[w].panes[q].id != st.windows[w].activePane
    ensures CurrentNodes(PaneNodes(labels, st, current, w, p)) == []
    decreases |st.windows[w].panes| - p
  {
    if p < |st.windows[w].panes| {
      NoMorePanes(labels, st, current, w, p + 1);
      CurrentCons(NodeOfPane(labels, st, current, w, p), PaneNodes(labels, st, current, w, p + 1));
    }
  }

  lemma {:induction false} OnePaneCurrent(labels: Labels, st: SessionSnap, current: string, w: nat, p: nat, at: nat)
    requires w < |st.windows| && w == st.activeWindow && st.name == current
    requires p <= at < |st.windows[w].panes| && st.windows[w].panes[at].id == st.windows[w].activePane
    requires forall q :: p <= q < |st.windows[w].panes| && q != at ==> st.windows[w].panes[q].id != st.windows[w].activePane
    ensures CurrentNodes(PaneNodes(labels, st, current, w, p)) == [NodeOfPane(labels, st, current, w, at)]
    decreases |st.windows[w].panes| - p
  {
    var rest := PaneNodes(labels, st, current, w, p + 1);
    CurrentCons(NodeOfPane(labels, st, current, w, p), rest);
    if p < at {
      OnePaneCurrent(labels, st, current, w, p + 1, at);
    } else {
      NoMorePanes(labels, st, current, w, p + 1);
    }
  }

  lemma {:induction false} NoCurrentSession(labels: Labels, snaps: seq<SessionSnap>, current: string)
    requires forall t :: 0 <= t < |snaps| ==> snaps[t].name != current
    ensures CurrentPath(labels, snaps, current) == []
  {
    if snaps != [] {
      NoCurrentSession(labels, snaps[1..], current);
    }
  }

  lemma {:induction false} OneCurrentSession(labels: Labels, snaps: seq<SessionSnap>, current: string, s: nat)
    requires s < |snaps| && snaps[s].name == current
    requires forall t :: 0 <= t < |snaps| && t != s ==> snaps[t].name != current
    ensures CurrentPath(labels, snaps, current) == PathIn(labels, snaps[s], current)
  {
    hide PathIn;
    var rest := snaps[1..];
    if s > 0 {
      OneCurrentSession(labels, rest, current, s - 1);
      assert [] + CurrentPath(labels, rest, current) == CurrentPath(labels, rest, current);
    } else {
      NoCurrentSession(labels, rest, current);
    }
  }

  /** With unique session names, unique pane ids per window and active entries that exist, exactly
      one session, one window of it and one pane of that are marked, in this order. */
  lemma ExactlyOnePath(labels: Labels, snaps: seq<SessionSnap>, current: string, s: nat, at: nat)
    requires s < |snaps| && snaps[s].name == current
    requires forall t, u :: 0 <= t < u < |snaps| ==> snaps[t].name != snaps[u].name
    requires var st := snaps[s];
             && st.activeWindow < |st.windows|
             && var win := st.windows[st.activeWindow];
             && at < |win.panes| && win.panes[at].id == win.activePane
             && forall p, q :: 0 <= p < q < |win.panes| ==> win.panes[p].id != win.panes[q].id
    ensures var st := snaps[s];
            CurrentNodes(Nodes(labels, snaps, current)) ==
            [NodeOfSession(labels, st, current), NodeOfWindow(labels, st, current, st.activeWindow),
             NodeOfPane(labels, st, current, st.activeWindow, at)]
  {
    MarksThePath(labels, snaps, current);
    OneCurrentSession(labels, snaps, current, s);
    OnePaneCurrent(labels, snaps[s], current, snaps[s].activeWindow, 0, at);
    hide CurrentNodes, Nodes, PaneNodes, CurrentPath;
  }
}
