/** The window-dimming feature of `src/features/windowDimming.ts`: it dims every content
    window but the focused one, follows `window-focus-changed`, and sets every window back to
    opaque on shutdown. Opacity changes are recorded as requests, in the order they are made. */
module WindowDimmingFeature {
  import opened Wrappers
  import opened Containers
  import opened Sequences
  import StackTraversal

  /** The two transparencies the feature sets. */
  datatype Opacity = Active | Dimmed

  /** `ACTIVE_TRANSPARENCY` and `DIMMED_TRANSPARENCY`. */
  function Transparency(level: Opacity): (r: real)
    ensures 0.0 < r <= 1.0
    ensures r == 1.0 <==> level == Active
  {
    match level
    case Active => 1.0
    case Dimmed => 0.8
  }

  /** One call `opacity(container, transparency)`. */
  datatype OpacityRequest = OpacityRequest(container: Container, level: Opacity)

  /** `flatten(root)`. */
  method Flatten(root: Container) returns (output: seq<Container>)
    ensures output == StackTraversal.Flatten(root)
  {
    output := [root];
    var queue := [root];
    while |queue| > 0
      invariant output + StackTraversal.Expand(queue) == StackTraversal.Flatten(root)
      decreases |AllNodesOf(queue)|
    {
      var current := queue[|queue| - 1];
      ghost var before := queue;
      queue := queue[..|queue| - 1];
      StackTraversal.ExpandMeasure(queue, current);
      output := output + current.nodes;
      output := output + current.floatingNodes;
      queue := queue + current.nodes;
      queue := queue + current.floatingNodes;
      assert queue == before[..|before| - 1] + Children(current);
    }
  }

  /** `flattened.find((x) => x.focused)`. */
  function FirstFocused(s: seq<Container>): (r: Option<Container>)
  {
    Find(s, IsFocused)
  }

  /** `findFocused(root)`. */
  method FindFocused(root: Container) returns (r: Option<Container>)
    ensures r == FirstFocused(StackTraversal.Flatten(root))
  {
    var flattened := Flatten(root);
    r := FirstFocused(flattened);
  }

  /** The container `findFocused` returns is focused, is a node of the tree, and no entry
      before it in `flatten` order is focused; it returns `undefined` exactly when no node
      of the tree is focused. */
  lemma FindFocusedSpec(root: Container)
    ensures var r := FirstFocused(StackTraversal.Flatten(root));
            r.Some? ==> r.value.focused && r.value in AllNodes(root)
    ensures var f := StackTraversal.Flatten(root);
            FirstFocused(f).Some? ==> exists i :: 0 <= i < |f| && f[i] == FirstFocused(f).value &&
                                               forall j :: 0 <= j < i ==> !f[j].focused
    ensures FirstFocused(StackTraversal.Flatten(root)).None? <==> forall x :: x in AllNodes(root) ==> !x.focused
  {
    StackTraversal.FlattenListsEveryNodeOnce(root);
    FindIsFirst(StackTraversal.Flatten(root), IsFocused);
  }

  /** `flattened.filter(isContent)`. */
  function ContentOf(s: seq<Container>): (r: seq<Container>)
  {
    Filter(s, IsContent)
  }

  /** `getContent()`, given the tree that `commandSync(Command.get_tree)` returns. */
  method GetContent(tree: Container) returns (content: seq<Container>)
    ensures content == ContentOf(StackTraversal.Flatten(tree))
  {
    var flattened := Flatten(tree);
    content := ContentOf(flattened);
  }

  /** `getContent` lists every content node of the tree once, and nothing else. */
  lemma GetContentListsContentNodes(tree: Container)
    ensures forall x :: multiset(ContentOf(StackTraversal.Flatten(tree)))[x] ==
                        if IsContent(x) then multiset(AllNodes(tree))[x] else 0
    ensures forall x :: x in ContentOf(StackTraversal.Flatten(tree)) <==> x in AllNodes(tree) && IsContent(x)
  {
    StackTraversal.FlattenListsEveryNodeOnce(tree);
    FilterKeeps(StackTraversal.Flatten(tree), IsContent);
  }

  /** The level `initialize` gives a content container: active when focused, dimmed otherwise. */
  function StartLevel(c: Container): Opacity
  {
    if c.focused then Active else Dimmed
  }

  /** The requests `initialize` makes, one per content container, in order. */
  function InitialPlan(content: seq<Container>): (r: seq<OpacityRequest>)
    ensures |r| == |content|
  {
    if content == [] then []
    else
      var last := content[|content| - 1];
      InitialPlan(content[..|content| - 1]) + [OpacityRequest(last, StartLevel(last))]
  }

  /** The requests `shutdown` makes: every content container back to active. */
  function ResetPlan(content: seq<Container>): (r: seq<OpacityRequest>)
    ensures |r| == |content|
  {
    if content == [] then [] else ResetPlan(content[..|content| - 1]) + [OpacityRequest(content[|content| - 1], Active)]
  }

  lemma InitialPlanSnoc(content: seq<Container>, i: nat)
    requires i < |content|
    ensures InitialPlan(content[..i + 1]) == InitialPlan(content[..i]) + [OpacityRequest(content[i], StartLevel(content[i]))]
  {
    assert content[..i + 1][..i] == content[..i];
  }

  lemma ResetPlanSnoc(content: seq<Container>, i: nat)
    requires i < |content|
    ensures ResetPlan(content[..i + 1]) == ResetPlan(content[..i]) + [OpacityRequest(content[i], Active)]
  {
    assert content[..i + 1][..i] == content[..i];
  }

  lemma AppendRequest(log: seq<OpacityRequest>, plan: seq<OpacityRequest>, r: OpacityRequest)
    ensures log + (plan + [r]) == (log + plan) + [r]
  {
  }

  /** `initialize` sets each content container in turn, the focused ones to active and all
      others to dimmed. */
  lemma {:induction false} InitialPlanLevels(content: seq<Container>)
    ensures forall i :: 0 <= i < |content| ==>
              InitialPlan(content)[i].container == content[i] &&
              (InitialPlan(content)[i].level == Active <==> content[i].focused) &&
              (InitialPlan(content)[i].level == Dimmed <==> !content[i].focused)
  {
    if content != [] {
      var init := content[..|content| - 1];
      InitialPlanLevels(init);
      assert forall i :: 0 <= i < |init| ==> init[i] == content[i];
    }
  }

  /** `shutdown` sets each content container in turn to active, and dims nothing. */
  lemma {:induction false} ResetPlanLevels(content: seq<Container>)
    ensures forall i :: 0 <= i < |content| ==> ResetPlan(content)[i] == OpacityRequest(content[i], Active)
    ensures forall r :: r in ResetPlan(content) ==> r.level != Dimmed
  {
    if content != [] {
      var init := content[..|content| - 1];
      ResetPlanLevels(init);
      assert forall i :: 0 <= i < |init| ==> init[i] == content[i];
    }
  }

  /** The requests `onWindowEvent(container)` makes when the tracked container is `current`:
      none for a container that is not content or has the tracked id; otherwise the tracked
      container is dimmed, if there is one, and then the new one made active. */
  function FocusRequests(current: Option<Container>, container: Container): (r: seq<OpacityRequest>)
    ensures |r| <= 2
    ensures r != [] ==> IsContent(container) && r[|r| - 1] == OpacityRequest(container, Active)
    ensures forall q :: q in r && q.level == Dimmed ==> current.Some? && q.container == current.value
  {
    if !IsContent(container) then []
    else if current.Some? && container.id == current.value.id then []
    else (if current.Some? then [OpacityRequest(current.value, Dimmed)] else []) + [OpacityRequest(container, Active)]
  }

  /** The container `onWindowEvent(container)` tracks afterwards. */
  function NextFocused(current: Option<Container>, container: Container): (r: Option<Container>)
    ensures r == current || r == Some(container)
    ensures IsContent(container) ==> r.Some? && r.value.id == container.id
    ensures r != current ==> FocusRequests(current, container) != []
  {
    if !IsContent(container) then current
    else if current.Some? && container.id == current.value.id then current
    else Some(container)
  }

  /** A focus change to a container that is not content changes neither the tracked
      container nor any opacity. */
  lemma NonContentIsIgnored(current: Option<Container>, container: Container)
    requires !IsContent(container)
    ensures FocusRequests(current, container) == [] && NextFocused(current, container) == current
  {
  }

  /** A focus change to the container already tracked, by id, requests nothing. */
  lemma SameIdRequestsNothing(current: Container, container: Container)
    requires container.id == current.id
    ensures FocusRequests(Some(current), container) == []
    ensures NextFocused(Some(current), container) == Some(current)
  {
  }

  /** A focus change to other content dims the tracked container, if any, then makes the
      new one active, and tracks the new one. */
  lemma NewContentTakesFocus(current: Option<Container>, container: Container)
    requires IsContent(container)
    requires current.None? || container.id != current.value.id
    ensures NextFocused(current, container) == Some(container)
    ensures current.Some? ==>
              FocusRequests(current, container) == [OpacityRequest(current.value, Dimmed), OpacityRequest(container, Active)]
    ensures current.None? ==> FocusRequests(current, container) == [OpacityRequest(container, Active)]
  {
  }

  /** Whatever the events, the tracked container is always content. */
  lemma TrackedIsContent(current: Option<Container>, container: Container)
    requires current.Some? ==> IsContent(current.value)
    ensures NextFocused(current, container).Some? ==> IsContent(NextFocused(current, container).value)
  {
  }

  /** The error `start` throws outside Sway. */
  const NotSway := "Window dimming is only supported in Sway. For window dimming in i3, check out picom or compton"

  /** The check `start` makes first: the value of `IPC_PROVIDER` must be "sway". */
  function ProviderCheck(provider: Option<string>): (r: Result<(), string>)
    ensures r.Success? <==> provider == Some("sway")
    ensures r.Failure? ==> r.error == NotSway
  {
    if provider != Some("sway") then Failure(NotSway) else Success(())
  }

  /** The `WindowDimming` instance: the content container it tracks as focused, the
      opacity requests it has made, and whether its `initialize` is still suspended. */
  class WindowDimming {
    var focused: Option<Container>
    var requests: seq<OpacityRequest>
    /** The constructor calls `initialize()` without awaiting it, and `initialize` suspends
        at `await Bun.write(lockFile, pid)` before it fetches the content. Until that write
        completes no `initialize` request has been made, and focus events handled meanwhile
        put their requests first. */
    var initializePending: bool

    /** The private constructor: it tracks nothing and has made no request yet; `initialize`
        has started and waits on the lock-file write. Registering the listeners is left to
        the caller. */
    constructor()
      ensures focused == None && requests == [] && initializePending
    {
      focused := None;
      requests := [];
      initializePending := true;
    }

    /** The rest of `initialize()` once the lock-file write completes, given the tree
        `getContent` reads then. */
    method Initialize(tree: Container)
      modifies this
      ensures requests == old(requests) + InitialPlan(ContentOf(StackTraversal.Flatten(tree)))
      ensures focused == old(focused) && !initializePending
    {
      var content := GetContent(tree);
      for i := 0 to |content|
        invariant requests == old(requests) + InitialPlan(content[..i])
        invariant focused == old(focused)
      {
        InitialPlanSnoc(content, i);
        AppendRequest(old(requests), InitialPlan(content[..i]), OpacityRequest(content[i], StartLevel(content[i])));
        requests := requests + [OpacityRequest(content[i], if content[i].focused then Active else Dimmed)];
      }
      assert content[..|content|] == content;
      initializePending := false;
    }

    /** `shutdown()`, without the lock file. */
    method Shutdown(tree: Container)
      modifies this
      ensures requests == old(requests) + ResetPlan(ContentOf(StackTraversal.Flatten(tree)))
      ensures focused == old(focused) && initializePending == old(initializePending)
    {
      var content := GetContent(tree);
      for i := 0 to |content|
        invariant requests == old(requests) + ResetPlan(content[..i])
        invariant focused == old(focused) && initializePending == old(initializePending)
      {
        ResetPlanSnoc(content, i);
        AppendRequest(old(requests), ResetPlan(content[..i]), OpacityRequest(content[i], Active));
        requests := requests + [OpacityRequest(content[i], Active)];
      }
      assert content[..|content|] == content;
    }

    /** `onWindowEvent(container)`, the listener of `window-focus-changed`. */
    method OnWindowEvent(container: Container)
      modifies this
      ensures requests == old(requests) + FocusRequests(old(focused), container)
      ensures focused == NextFocused(old(focused), container)
      ensures initializePending == old(initializePending)
    {
      if !IsContent(container) {
        return;
      }
      if focused.None? || container.id != focused.value.id {
        if focused.Some? {
          requests := requests + [OpacityRequest(focused.value, Dimmed)];
        }
        requests := requests + [OpacityRequest(container, Active)];
        focused := Some(container);
      }
    }
  }

  /** `WindowDimming.start()`, given `IPC_PROVIDER` and the current singleton: outside Sway it
      fails; otherwise it keeps an existing instance or creates one, whose `initialize` is
      still waiting on the lock-file write when `start` goes on to `process()`. */
  method Start(provider: Option<string>, instance: Option<WindowDimming>)
    returns (r: Result<WindowDimming, string>)
    ensures ProviderCheck(provider).Failure? ==> r == Failure(NotSway)
    ensures ProviderCheck(provider).Success? && instance.Some? ==> r == Success(instance.value)
    ensures ProviderCheck(provider).Success? && instance.None? ==>
              r.Success? && fresh(r.value) && r.value.focused == None &&
              r.value.requests == [] && r.value.initializePending
  {
    var check := ProviderCheck(provider);
    if check.Failure? {
      return Failure(check.error);
    }
    if instance.Some? {
      return Success(instance.value);
    }
    var created := new WindowDimming();
    return Success(created);
  }
}
