/** The order in which `flatten` and `flattenTree` list a tree. Both keep a work list used as
    a stack: they pop its last container, append that container's `nodes` and then its
    `floating_nodes` to the output, and push the same children onto the stack. */
module StackTraversal {
  import opened Containers

  /** The output appended while the stack `q` is worked off. */
  function Expand(q: seq<Container>): (r: seq<Container>)
    decreases |AllNodesOf(q)|
  {
    if q == [] then []
    else
      var c, rest := q[|q| - 1], q[..|q| - 1];
      ExpandMeasure(rest, c);
      Children(c) + Expand(rest + Children(c))
  }

  lemma ExpandMeasure(rest: seq<Container>, c: Container)
    ensures |AllNodesOf(rest + Children(c))| < |AllNodesOf(rest + [c])|
  {
    AllNodesOfAppend(rest, Children(c));
    AllNodesOfChildren(c);
    assert (rest + [c])[..|rest + [c]| - 1] == rest;
  }

  /** `flatten(root)`: the root, then what the stack traversal appends. */
  function Flatten(root: Container): (r: seq<Container>)
  {
    [root] + Expand([root])
  }

  /** The traversal lists every node below the stack's members once for each time it occurs there. */
  lemma {:induction false} ExpandMultiset(q: seq<Container>)
    ensures multiset(Expand(q)) + multiset(q) == multiset(AllNodesOf(q))
    decreases |AllNodesOf(q)|
  {
    if q != [] {
      var c, rest := q[|q| - 1], q[..|q| - 1];
      var ch := Children(c);
      ExpandMeasure(rest, c);
      assert q == rest + [c];
      ExpandMultiset(rest + ch);
      AllNodesOfAppend(rest, ch);
      AllNodesOfChildren(c);
      assert AllNodesOf(q) == AllNodesOf(rest) + AllNodes(c);
      PopCounts(Expand(q), q, ch, Expand(rest + ch), AllNodesOf(q), AllNodesOf(rest), AllNodesOf(ch));
    }
  }

  /** The counting step of `ExpandMultiset`, for one pop of the top of `q`, whose children are `ch`. */
  lemma PopCounts<T>(e: seq<T>, q: seq<T>, ch: seq<T>, er: seq<T>, n: seq<T>, nr: seq<T>, nch: seq<T>)
    requires q != [] && e == ch + er
    requires multiset(er) + multiset(q[..|q| - 1] + ch) == multiset(nr + nch)
    requires n == nr + ([q[|q| - 1]] + nch)
    ensures multiset(e) + multiset(q) == multiset(n)
  {
    var c, rest := q[|q| - 1], q[..|q| - 1];
    assert q == rest + [c];
    assert multiset(e) + multiset(q) == multiset(er) + multiset(rest + ch) + multiset{c};
  }

  /** `flatten` starts with the root and lists each node of the tree exactly once,
      so it has one entry per node. */
  lemma FlattenListsEveryNodeOnce(root: Container)
    ensures Flatten(root)[0] == root
    ensures multiset(Flatten(root)) == multiset(AllNodes(root))
    ensures |Flatten(root)| == |AllNodes(root)|
    ensures forall x :: x in Flatten(root) <==> x in AllNodes(root)
  {
    ExpandMultiset([root]);
    assert AllNodesOf([root]) == AllNodes(root) by {
      assert [root][..0] == [];
    }
    var f := Flatten(root);
    assert multiset(f) == multiset(AllNodes(root));
    assert |multiset(f)| == |f| && |multiset(AllNodes(root))| == |AllNodes(root)|;
    forall x ensures x in f <==> x in AllNodes(root) {
      assert x in f <==> x in multiset(f);
      assert x in AllNodes(root) <==> x in multiset(AllNodes(root));
    }
  }

  /** The root is expanded first: its `nodes`, then its `floating_nodes`, follow it in their
      own order; the next container expanded is the last child pushed. */
  lemma FlattenExpandsRootFirst(root: Container)
    ensures Flatten(root) == [root] + Children(root) + Expand(Children(root))
  {
    assert [root][..0] == [];
    assert [] + Children(root) == Children(root);
  }
}
