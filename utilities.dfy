/** `flattenTree`: the stack traversal of the tree that also records, on a copy of each
    listed child, the id of the container it was listed under. */
module Utilities {
  import opened Wrappers
  import opened Containers
  import opened StackTraversal

  /** `{ ...node, parent: id }`. */
  function WithParent(c: Container, id: int): Container
  {
    c.(parent := Some(id))
  }

  /** `nodes.map((node) => ({ ...node, parent: id }))`. */
  function AnnotateAll(s: seq<Container>, id: int): (r: seq<Container>)
    ensures |r| == |s|
    ensures forall i :: 0 <= i < |s| ==> r[i] == WithParent(s[i], id)
  {
    seq(|s|, i requires 0 <= i < |s| => WithParent(s[i], id))
  }

  /** The output appended while the stack `q` is worked off. The stack holds the original
      children; only the output holds the annotated copies. */
  function ExpandTree(q: seq<Container>): (r: seq<Container>)
    decreases |AllNodesOf(q)|
  {
    if q == [] then []
    else
      var c, rest := q[|q| - 1], q[..|q| - 1];
      ExpandMeasure(rest, c);
      AnnotateAll(c.nodes, c.id) + AnnotateAll(c.floatingNodes, c.id) + ExpandTree(rest + Children(c))
  }

  /** What `flattenTree(root)` returns: the root itself, then the annotated copies. */
  function FlattenTreeOrder(root: Container): seq<Container>
  {
    [root] + ExpandTree([root])
  }

  /** `flattenTree(root)`. */
  method FlattenTree(root: Container) returns (output: seq<Container>)
    ensures output == FlattenTreeOrder(root)
  {
    output := [root];
    var queue := [root];
    while |queue| > 0
      invariant output + ExpandTree(queue) == FlattenTreeOrder(root)
      decreases |AllNodesOf(queue)|
    {
      var current := queue[|queue| - 1];
      ghost var before := queue;
      queue := queue[..|queue| - 1];
      assert before == queue + [current];
      ExpandMeasure(queue, current);
      output := output + AnnotateAll(current.nodes, current.id);
      output := output + AnnotateAll(current.floatingNodes, current.id);
      queue := queue + current.nodes;
      queue := queue + current.floatingNodes;
      assert queue == before[..|before| - 1] + Children(current);
    }
  }

  /** The two sequences list the same containers in the same order, up to their `parent` fields. */
  predicate SameButParent(a: seq<Container>, b: seq<Container>)
  {
    |a| == |b| && forall i :: 0 <= i < |a| ==> a[i].(parent := None) == b[i].(parent := None)
  }

  lemma AnnotateAllSameButParent(s: seq<Container>, id: int)
    ensures SameButParent(AnnotateAll(s, id), s)
  {
  }

  lemma SameButParentAppend(a: seq<Container>, b: seq<Container>, c: seq<Container>, d: seq<Container>)
    requires SameButParent(a, b) && SameButParent(c, d)
    ensures SameButParent(a + c, b + d)
  {
    forall i | 0 <= i < |a + c| ensures (a + c)[i].(parent := None) == (b + d)[i].(parent := None) {
      if i >= |a| { assert (a + c)[i] == c[i - |a|] && (b + d)[i] == d[i - |a|]; }
    }
  }

  lemma {:induction false} ExpandTreeSameButParent(q: seq<Container>)
    ensures SameButParent(ExpandTree(q), Expand(q))
    decreases |AllNodesOf(q)|
  {
    if q != [] {
      var c, rest := q[|q| - 1], q[..|q| - 1];
      ExpandMeasure(rest, c);
      ExpandTreeSameButParent(rest + Children(c));
      AnnotateAllSameButParent(c.nodes, c.id);
      AnnotateAllSameButParent(c.floatingNodes, c.id);
      SameButParentAppend(AnnotateAll(c.nodes, c.id), c.nodes, AnnotateAll(c.floatingNodes, c.id), c.floatingNodes);
      SameButParentAppend(AnnotateAll(c.nodes, c.id) + AnnotateAll(c.floatingNodes, c.id), Children(c),
                          ExpandTree(rest + Children(c)), Expand(rest + Children(c)));
    }
  }

  /** `flattenTree` lists the same containers in the same order as `flatten`, differing only
      in the `parent` field of every entry after the root; so it too has one entry per node. */
  lemma FlattenTreeMatchesFlatten(root: Container)
    ensures SameButParent(FlattenTreeOrder(root), Flatten(root))
    ensures FlattenTreeOrder(root)[0] == root
    ensures |FlattenTreeOrder(root)| == |AllNodes(root)|
  {
    ExpandTreeSameButParent([root]);
    SameButParentAppend([root], [root], ExpandTree([root]), Expand([root]));
    FlattenListsEveryNodeOnce(root);
  }

  /** `e` is the annotated copy of one of the children of `p`. */
  ghost predicate ListedUnder(e: Container, p: Container)
  {
    exists j :: 0 <= j < |Children(p)| && e == WithParent(Children(p)[j], p.id)
  }

  lemma {:induction false} ExpandTreeParents(q: seq<Container>)
    ensures forall i :: 0 <= i < |ExpandTree(q)| ==>
      exists p :: p in AllNodesOf(q) && ListedUnder(ExpandTree(q)[i], p)
    decreases |AllNodesOf(q)|
  {
    if q != [] {
      var c, rest := q[|q| - 1], q[..|q| - 1];
      var ch := Children(c);
      var listed := AnnotateAll(c.nodes, c.id) + AnnotateAll(c.floatingNodes, c.id);
      ExpandMeasure(rest, c);
      ExpandTreeParents(rest + ch);
      assert q == rest + [c];
      AllNodesOfAppend(rest, ch);
      AllNodesOfChildren(c);
      assert AllNodesOf(q) == AllNodesOf(rest) + AllNodes(c);
      assert c in AllNodesOf(q) by { assert AllNodes(c)[0] == c; }
      forall i | 0 <= i < |ExpandTree(q)| ensures exists p :: p in AllNodesOf(q) && ListedUnder(ExpandTree(q)[i], p) {
        if i < |listed| {
          assert listed[i] == WithParent(ch[i], c.id);
          assert ListedUnder(ExpandTree(q)[i], c);
        } else {
          var e := ExpandTree(rest + ch)[i - |listed|];
          assert ExpandTree(q)[i] == e;
          var p :| p in AllNodesOf(rest + ch) && ListedUnder(e, p);
          assert p in AllNodesOf(q);
        }
      }
    } else {
      assert ExpandTree(q) == [];
    }
  }

  /** Every entry after the root carries as `parent` the id of the tree node it was listed
      under, and is a copy of one of that node's children. */
  lemma FlattenTreeParents(root: Container)
    ensures forall i :: 1 <= i < |FlattenTreeOrder(root)| ==>
      FlattenTreeOrder(root)[i].parent.Some? &&
      exists p :: p in AllNodes(root) && ListedUnder(FlattenTreeOrder(root)[i], p) &&
                  FlattenTreeOrder(root)[i].parent == Some(p.id)
  {
    ExpandTreeParents([root]);
    assert AllNodesOf([root]) == AllNodes(root) by {
      assert [root][..0] == [];
    }
    var f := FlattenTreeOrder(root);
    forall i | 1 <= i < |f| ensures f[i].parent.Some? && exists p :: p in AllNodes(root) && ListedUnder(f[i], p) && f[i].parent == Some(p.id) {
      assert f[i] == ExpandTree([root])[i - 1];
      var p :| p in AllNodes(root) && ListedUnder(f[i], p);
      var j :| 0 <= j < |Children(p)| && f[i] == WithParent(Children(p)[j], p.id);
      assert f[i].parent == Some(p.id);
    }
  }
}
