/** The dropdown-terminal toggle of `src/features/dropdownTerminal.ts`: a terminal kept in
    the scratchpad is hidden when visible and, when hidden, resized to four fifths of the
    focused window's workspace and shown. */
module DropdownTerminal {
  import opened Wrappers
  import opened Text
  import opened Sequences
  import opened Containers
  import opened Config
  import StackTraversal
  import opened Utilities

  /** `(node) => node.app_id === appId`. */
  function HasAppId(appId: string): Container -> bool
  {
    (n: Container) => n.appId == Some(appId)
  }

  /** `(node) => node.id === id`. */
  function HasId(id: int): Container -> bool
  {
    (n: Container) => n.id == id
  }

  /** `Math.floor(x * 0.8)` in exact arithmetic: the largest integer not above four fifths of `x`. */
  function ScaledSize(x: int): (r: int)
    ensures 5 * r <= 4 * x < 5 * r + 5
  {
    (4 * x) / 5
  }

  /** `scratchpad show`, without the message command. */
  const ShowArgs: seq<string> := ["scratchpad", "show"]

  /** `[app_id=<id>] resize set <width> <height>`, without the message command. */
  function ResizeArgs(appId: string, width: int, height: int): seq<string>
  {
    ["[app_id=" + appId + "]", "resize", "set", IntToDecimal(width), IntToDecimal(height)]
  }

  /** The argv of each spawn, `[...getMessageCommand(), ...args]`; the first spawn throws
      when the provider has no message command, so nothing is spawned at all. */
  function Spawns(msgCommand: Option<seq<string>>, args: seq<seq<string>>): (r: Result<seq<seq<string>>, SpawnError>)
    requires args != []
  {
    match msgCommand
    case None => Failure(MessageCommandNotIterable)
    case Some(m) => Success(seq(|args|, i requires 0 <= i < |args| => m + args[i]))
  }

  /** The content nodes of the flattened tree, in flatten order. */
  function ContentOf(tree: Container): (r: seq<Container>)
  {
    Filter(FlattenTreeOrder(tree), IsContent)
  }

  /** The resize, when the terminal is not yet the target size, followed by the show. */
  function ResizeAndShow(terminal: Container, appId: string, target: Container): (r: seq<seq<string>>)
  {
    var width, height := ScaledSize(target.rect.width), ScaledSize(target.rect.height);
    if terminal.rect.width == width && terminal.rect.height == height then [ShowArgs]
    else [ResizeArgs(appId, width, height), ShowArgs]
  }

  /** The default of `terminalAppId`, the one the `toggle-dropdown-terminal` command uses. */
  const DefaultTerminalAppId: string := "alacritty-dropdown"

  /** `toggle(terminalAppId)` on the tree `get_tree` returns: the commands spawned, in order.
      Fetching the tree spreads the message command first, so without one the toggle fails
      before anything else. Every early `return` spawns nothing, and the command that
      fetched the tree is not part of the result. */
  function Toggle(tree: Container, appId: string, msgCommand: Option<seq<string>>): (r: Result<seq<seq<string>>, SpawnError>)
    ensures r.Failure? <==> msgCommand.None?
    ensures r.Failure? ==> r.error == MessageCommandNotIterable
    ensures r.Success? ==> |r.value| <= 2
    ensures r.Success? && r.value != [] ==> r.value[|r.value| - 1] == msgCommand.value + ShowArgs
  {
    if msgCommand.None? then Failure(MessageCommandNotIterable)
    else
      var flattened := FlattenTreeOrder(tree);
      var content := ContentOf(tree);
      var terminal := Find(content, HasAppId(appId));
      if terminal.None? then Success([])
      else if terminal.value.visible then Spawns(msgCommand, [ShowArgs])
      else
        var focused := Find(content, IsFocused);
        if focused.None? then Success([])
        else if focused.value.parent.None? || focused.value.parent == Some(0) then Success([])
        else
          var workspace := Find(flattened, HasId(focused.value.parent.value));
          if workspace.None? then Success([])
          else
            var output := Find(flattened, HasId(workspace.value.id));
            if output.None? then Success([])
            else Spawns(msgCommand, ResizeAndShow(terminal.value, appId, output.value))
  }

  /** Without a content node of the terminal's app id nothing is spawned; a visible terminal
      gets exactly one `scratchpad show` and no resize; with no focused content, or focused
      content without a (truthy) parent, nothing is spawned. */
  lemma EarlyReturns(tree: Container, appId: string, msgCommand: seq<string>)
    ensures (forall x :: x in ContentOf(tree) ==> x.appId != Some(appId)) ==>
              Toggle(tree, appId, Some(msgCommand)) == Success([])
    ensures var t := Find(ContentOf(tree), HasAppId(appId));
            t.Some? && t.value.visible ==> Toggle(tree, appId, Some(msgCommand)) == Success([msgCommand + ShowArgs])
    ensures var t := Find(ContentOf(tree), HasAppId(appId));
            var f := Find(ContentOf(tree), IsFocused);
            t.Some? && !t.value.visible && (f.None? || f.value.parent.None? || f.value.parent == Some(0)) ==>
              Toggle(tree, appId, Some(msgCommand)) == Success([])
  {
    FindIsFirst(ContentOf(tree), HasAppId(appId));
    var t := Find(ContentOf(tree), HasAppId(appId));
    if t.Some? && t.value.visible {
      assert Spawns(Some(msgCommand), [ShowArgs]).value == [msgCommand + ShowArgs];
    }
  }

  /** Every id of a tree node is the id of some entry of `flattenTree`. */
  lemma NodeIdListed(tree: Container, p: Container)
    requires p in AllNodes(tree)
    ensures exists k :: 0 <= k < |FlattenTreeOrder(tree)| && FlattenTreeOrder(tree)[k].id == p.id
  {
    StackTraversal.FlattenListsEveryNodeOnce(tree);
    FlattenTreeMatchesFlatten(tree);
    var flat := StackTraversal.Flatten(tree);
    var k :| 0 <= k < |flat| && flat[k] == p;
    assert FlattenTreeOrder(tree)[k].(parent := None) == flat[k].(parent := None);
  }

  /** On a tree as the window manager sends it (the root carries no parent), the parent of
      every entry of `flattenTree` that has one is the id of an entry. */
  lemma ParentIsListed(tree: Container, i: int)
    requires tree.parent.None?
    requires 0 <= i < |FlattenTreeOrder(tree)| && FlattenTreeOrder(tree)[i].parent.Some?
    ensures exists k :: 0 <= k < |FlattenTreeOrder(tree)| &&
                        FlattenTreeOrder(tree)[k].id == FlattenTreeOrder(tree)[i].parent.value
  {
    var flattened := FlattenTreeOrder(tree);
    assert i != 0;
    FlattenTreeParents(tree);
    var p :| p in AllNodes(tree) && ListedUnder(flattened[i], p) && flattened[i].parent == Some(p.id);
    NodeIdListed(tree, p);
  }

  /** Looking up the id of what a lookup by id found finds the same entry again. */
  lemma FindOwnId(s: seq<Container>, id: int)
    ensures Find(s, HasId(id)).Some? ==> Find(s, HasId(Find(s, HasId(id)).value.id)) == Find(s, HasId(id))
  {
    FindIsFirst(s, HasId(id));
    if Find(s, HasId(id)).Some? {
      FindAgreeing(s, HasId(id), HasId(Find(s, HasId(id)).value.id));
    }
  }

  /** On a tree as the window manager sends it, the workspace lookup always succeeds: the
      focused content's parent is the id of a listed node. The output lookup then matches
      the workspace's own id, so it finds the workspace itself. */
  lemma WorkspaceLookups(tree: Container)
    requires tree.parent.None?
    ensures var f := Find(ContentOf(tree), IsFocused);
            f.Some? && f.value.parent.Some? ==>
              var w := Find(FlattenTreeOrder(tree), HasId(f.value.parent.value));
              w.Some? && Find(FlattenTreeOrder(tree), HasId(w.value.id)) == w
  {
    var flattened := FlattenTreeOrder(tree);
    var f := Find(ContentOf(tree), IsFocused);
    if f.Some? && f.value.parent.Some? {
      FindIsFirst(ContentOf(tree), IsFocused);
      FilterKeeps(flattened, IsContent);
      var i :| 0 <= i < |flattened| && flattened[i] == f.value;
      ParentIsListed(tree, i);
      var k :| 0 <= k < |flattened| && flattened[k].id == f.value.parent.value;
      FindIsFirst(flattened, HasId(f.value.parent.value));
      assert HasId(f.value.parent.value)(flattened[k]);
      FindOwnId(flattened, f.value.parent.value);
    }
  }

  /** When commands are spawned after the visibility check, they end with exactly one
      `scratchpad show`, preceded by a resize to four fifths of the output's size exactly
      when the terminal is not that size already. */
  lemma ResizeThenShow(terminal: Container, appId: string, target: Container, msgCommand: seq<string>)
    ensures var plan := ResizeAndShow(terminal, appId, target);
            plan[|plan| - 1] == ShowArgs &&
            (forall i :: 0 <= i < |plan| - 1 ==> plan[i] != ShowArgs) &&
            (|plan| == 2 <==> terminal.rect.width != ScaledSize(target.rect.width) ||
                              terminal.rect.height != ScaledSize(target.rect.height)) &&
            (|plan| == 2 ==> plan[0] == ResizeArgs(appId, ScaledSize(target.rect.width), ScaledSize(target.rect.height)))
    ensures var s := Spawns(Some(msgCommand), ResizeAndShow(terminal, appId, target));
            s.Success? && |s.value| == |ResizeAndShow(terminal, appId, target)| &&
            forall i :: 0 <= i < |s.value| ==> s.value[i] == msgCommand + ResizeAndShow(terminal, appId, target)[i]
  {
    var plan := ResizeAndShow(terminal, appId, target);
    if |plan| == 2 {
      assert |plan[0]| == 5;
    }
  }

  /** The full path on a tree as the window manager sends it: a hidden terminal is resized
      (when needed) to four fifths of the workspace of the focused content, then shown; no
      guard after the parent check can stop it. */
  lemma HiddenTerminalIsShown(tree: Container, appId: string, msgCommand: seq<string>)
    requires tree.parent.None?
    ensures var t := Find(ContentOf(tree), HasAppId(appId));
            var f := Find(ContentOf(tree), IsFocused);
            t.Some? && !t.value.visible && f.Some? && f.value.parent.Some? && f.value.parent != Some(0) ==>
              var w := Find(FlattenTreeOrder(tree), HasId(f.value.parent.value));
              w.Some? && w.value.id == f.value.parent.value &&
              Toggle(tree, appId, Some(msgCommand)) == Spawns(Some(msgCommand), ResizeAndShow(t.value, appId, w.value))
  {
    WorkspaceLookups(tree);
    var f := Find(ContentOf(tree), IsFocused);
    if f.Some? && f.value.parent.Some? {
      FindIsFirst(FlattenTreeOrder(tree), HasId(f.value.parent.value));
    }
  }

  /** Without a message command the toggle fails with the spread error, whatever the tree:
      fetching the tree already fails, so no path returns early and nothing is spawned. */
  lemma NoMessageCommand(tree: Container, appId: string)
    ensures Toggle(tree, appId, None) == Failure(MessageCommandNotIterable)
  {
  }
}
