/** The window manager's container tree as the `get_tree` reply describes it. */
module Containers {
  import opened Wrappers

  /** `ContainerTypes`. */
  datatype ContainerType = Root | Workspace | Output | Content | FloatingContent | DockArea

  /** The string each `ContainerTypes` member stands for on the wire. */
  function WireName(t: ContainerType): string
  {
    match t
    case Root => "root"
    case Workspace => "workspace"
    case Output => "output"
    case Content => "con"
    case FloatingContent => "floating_con"
    case DockArea => "dockarea"
  }

  /** The container type a wire string names, if any. */
  function ParseContainerType(s: string): (r: Option<ContainerType>)
  {
    if s == "root" then Some(Root)
    else if s == "workspace" then Some(Workspace)
    else if s == "output" then Some(Output)
    else if s == "con" then Some(Content)
    else if s == "floating_con" then Some(FloatingContent)
    else if s == "dockarea" then Some(DockArea)
    else None
  }

  /** Every member has its own wire string, and reading a wire string back gives the member. */
  lemma WireNameRoundTrip(t: ContainerType, s: string)
    ensures ParseContainerType(WireName(t)) == Some(t)
    ensures ParseContainerType(s) == Some(t) ==> s == WireName(t)
  {
  }

  datatype Rect = Rect(x: int, y: int, width: int, height: int)

  /** A node of the tree. `appId`, `visible` and `pid` are the content properties
      (absent on other nodes: None, false and 0); `parent` is the id that `flattenTree`
      adds to the copies it lists, and is None in a tree as the window manager sends it. */
  datatype Container = Container(
    id: int,
    kind: ContainerType,
    focused: bool,
    rect: Rect,
    name: string,
    appId: Option<string>,
    visible: bool,
    pid: int,
    parent: Option<int>,
    nodes: seq<Container>,
    floatingNodes: seq<Container>)

  /** `isContent`. */
  predicate IsContent(c: Container)
  {
    c.kind == Content || c.kind == FloatingContent
  }

  /** A container is content exactly when its wire type is "con" or "floating_con";
      root, workspace, output and dock-area containers never are. */
  lemma IsContentByWireName(c: Container)
    ensures IsContent(c) <==> WireName(c.kind) == "con" || WireName(c.kind) == "floating_con"
    ensures c.kind in {Root, Workspace, Output, DockArea} ==> !IsContent(c)
  {
  }

  /** `(x) => x.focused`. */
  predicate IsFocused(c: Container)
  {
    c.focused
  }

  /** The children in the order both traversals push them: `nodes`, then `floating_nodes`. */
  function Children(c: Container): (r: seq<Container>)
    ensures |r| == |c.nodes| + |c.floatingNodes|
  {
    c.nodes + c.floatingNodes
  }

  /** Every node of the tree rooted at `c`, `c` first. */
  function AllNodes(c: Container): (r: seq<Container>)
    decreases c, 1
  {
    [c] + AllNodesOf(c.nodes) + AllNodesOf(c.floatingNodes)
  }

  /** Every node of the trees rooted at the members of `s`, tree by tree. */
  function AllNodesOf(s: seq<Container>): (r: seq<Container>)
    decreases s, 0
  {
    if s == [] then [] else AllNodesOf(s[..|s| - 1]) + AllNodes(s[|s| - 1])
  }

  lemma {:induction false} AllNodesOfAppend(a: seq<Container>, b: seq<Container>)
    ensures AllNodesOf(a + b) == AllNodesOf(a) + AllNodesOf(b)
    decreases |b|
  {
    if b != [] {
      var b' := b[..|b| - 1];
      assert (a + b)[..|a + b| - 1] == a + b';
      assert (a + b)[|a + b| - 1] == b[|b| - 1];
      AllNodesOfAppend(a, b');
    } else {
      assert a + b == a;
    }
  }

  /** The nodes below `c` are the nodes of the trees rooted at its children. */
  lemma AllNodesOfChildren(c: Container)
    ensures AllNodes(c) == [c] + AllNodesOf(Children(c))
  {
    AllNodesOfAppend(c.nodes, c.floatingNodes);
  }
}
