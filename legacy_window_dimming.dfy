/** The first window-dimming feature, `features/windowDimming.ts`: a depth-first search for
    the focused container, and a singleton that remembers the container of the last window
    event. */
module LegacyWindowDimming {
  import opened Wrappers
  import opened Containers
  import opened StackTraversal

  /** What the search returns when the stack `q` is still to be worked off: it pops the last
      container, returns it when it is focused, and otherwise pushes its `nodes` and then its
      `floating_nodes`. */
  function SearchStack(q: seq<Container>): (r: Option<Container>)
    decreases |AllNodesOf(q)|
  {
    if q == [] then None
    else
      var c, rest := q[|q| - 1], q[..|q| - 1];
      if c.focused then Some(c)
      else
        ExpandMeasure(rest, c);
        SearchStack(rest + Children(c))
  }

  /** `findFocused(root)`. The `if (!current) break` of the source cannot fire: the stack is
      not empty when it is popped, and a container is never falsy. */
  method FindFocused(root: Container) returns (r: Option<Container>)
    ensures r == SearchStack([root])
  {
    var queue := [root];
    while |queue| > 0
      invariant SearchStack(queue) == SearchStack([root])
      decreases |AllNodesOf(queue)|
    {
      var current := queue[|queue| - 1];
      ghost var before := queue;
      queue := queue[..|queue| - 1];
      if current.focused {
        return Some(current);
      }
      ExpandMeasure(queue, current);
      queue := queue + current.nodes;
      queue := queue + current.floatingNodes;
      assert queue == before[..|before| - 1] + Children(current);
    }
    return None;
  }

  /** The nodes of a stack are its top's tree and the nodes of the rest. */
  lemma AllNodesOfPop(rest: seq<Container>, c: Container)
    ensures AllNodesOf(rest + [c]) == AllNodesOf(rest) + AllNodes(c)
  {
    assert (rest + [c])[..|rest + [c]| - 1] == rest;
  }

  /** What the search finds is focused and is a node of the stack's trees; it finds nothing
      exactly when no node of those trees is focused. */
  lemma {:induction false} SearchStackFindsFocused(q: seq<Container>)
    ensures SearchStack(q).Some? ==> SearchStack(q).value.focused && SearchStack(q).value in AllNodesOf(q)
    ensures SearchStack(q).None? <==> forall x :: x in AllNodesOf(q) ==> !x.focused
    decreases |AllNodesOf(q)|
  {
    if q != [] {
      var c, rest := q[|q| - 1], q[..|q| - 1];
      ExpandMeasure(rest, c);
      assert q == rest + [c];
      AllNodesOfPop(rest, c);
      AllNodesOfChildren(c);
      AllNodesOfAppend(rest, Children(c));
      assert c in AllNodesOf(q) by { assert AllNodes(c)[0] == c; }
      if !c.focused {
        SearchStackFindsFocused(rest + Children(c));
        forall x ensures x in AllNodesOf(q) <==> x == c || x in AllNodesOf(rest + Children(c)) {
        }
      }
    }
  }

  /** `findFocused(root)` returns a focused container of the tree, and returns `undefined`
      only when no container of the tree is focused. */
  lemma FindFocusedSound(root: Container)
    ensures SearchStack([root]).Some? ==> SearchStack([root]).value.focused && SearchStack([root]).value in AllNodes(root)
    ensures SearchStack([root]).None? <==> forall x :: x in AllNodes(root) ==> !x.focused
  {
    SearchStackFindsFocused([root]);
    AllNodesOfPop([], root);
    assert [] + [root] == [root];
  }

  /** A focused root is returned at once. */
  lemma FocusedRootIsReturned(root: Container)
    requires root.focused
    ensures SearchStack([root]) == Some(root)
  {
  }

  /** The stack is searched last-in first-out: a focused container on top is returned
      whatever lies below it. */
  lemma TopOfStackFirst(q: seq<Container>, x: Container)
    requires x.focused
    ensures SearchStack(q + [x]) == Some(x)
  {
    assert (q + [x])[|q + [x]| - 1] == x;
  }

  /** Below an unfocused root, the last of the `floating_nodes`, pushed last, is examined
      first: when it is focused it is returned even if one of `nodes` is focused too. */
  lemma FloatingNodesSearchedFirst(root: Container)
    requires !root.focused && root.floatingNodes != []
    requires root.floatingNodes[|root.floatingNodes| - 1].focused
    ensures SearchStack([root]) == Some(root.floatingNodes[|root.floatingNodes| - 1])
  {
    var x := root.floatingNodes[|root.floatingNodes| - 1];
    assert [root][..0] == [];
    var ch := Children(root);
    assert ch == ch[..|ch| - 1] + [x];
    TopOfStackFirst(ch[..|ch| - 1], x);
    assert [] + ch == ch;
  }

  /** The `WindowDimming` singleton: the container of the last window event. */
  class WindowDimming {
    var focused: Option<Container>

    /** The private constructor; it subscribes to window events, which the model leaves to
        its callers. */
    constructor()
      ensures focused == None
    {
      focused := None;
    }

    /** `onWindowEvent(event)`: whatever the change, remember the event's container. */
    method OnWindowEvent(container: Container)
      modifies this
      ensures focused == Some(container)
    {
      focused := Some(container);
    }
  }

  /** `WindowDimming.start`: the existing instance if there is one, otherwise a new one.
      The tree it requests and the container it searches for are not used. */
  method Start(instance: Option<WindowDimming>, tree: Container) returns (r: WindowDimming, focusedNode: Option<Container>)
    ensures instance.Some? ==> r == instance.value
    ensures instance.None? ==> fresh(r) && r.focused == None && focusedNode == SearchStack([tree])
  {
    if instance.Some? {
      r := instance.value;
      focusedNode := None;
    } else {
      focusedNode := FindFocused(tree);
      r := new WindowDimming();
    }
  }
}
