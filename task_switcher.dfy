/** The task switcher of `src/features/taskSwitcher.ts`: the names of the windows on screen
    are offered in a `wofi` menu, and the window whose name was chosen is focused. */
module TaskSwitcher {
  import opened Wrappers
  import opened Text
  import opened Sequences
  import opened Containers
  import opened Config
  import opened Utilities

  /** `(x) => x.rect.x > 0 && x.rect.y > 0`. */
  predicate OnScreen(c: Container)
  {
    c.rect.x > 0 && c.rect.y > 0
  }

  /** The candidate windows: the content of the flattened tree, then those on screen. */
  function Windows(tree: Container): (r: seq<Container>)
  {
    Filter(Filter(FlattenTreeOrder(tree), IsContent), OnScreen)
  }

  /** `windows.map((x) => x.name)`. */
  function Names(windows: seq<Container>): (r: seq<string>)
    ensures |r| == |windows|
    ensures forall i :: 0 <= i < |windows| ==> r[i] == windows[i].name
  {
    if windows == [] then [] else [windows[0].name] + Names(windows[1..])
  }

  /** The menu spawned, reading the names on its standard input. */
  const MenuArgs: seq<string> := ["wofi", "--insensitive", "--show", "dmenu"]

  /** The text written to the menu: the names, one per line. */
  function MenuText(windows: seq<Container>): string
  {
    Join(Names(windows), "\n")
  }

  /** `(x) => x.name === name`. */
  function Named(name: string): Container -> bool
  {
    (c: Container) => c.name == name
  }

  /** `windows.find((x) => x.name === selectedName)`, with the menu's output trimmed. */
  function Select(windows: seq<Container>, menuOutput: string): (r: Option<Container>)
  {
    Find(windows, Named(Trim(menuOutput)))
  }

  /** The criterion `[<type>_id=<id>]`. */
  function FocusCriterion(c: Container): string
  {
    "[" + WireName(c.kind) + "_id=" + IntToDecimal(c.id) + "]"
  }

  /** What one run does: the menu it spawns, the text it feeds the menu, and the focus command
      it spawns after the menu answered (`None` when nothing matched). */
  datatype Run = Run(menuArgs: seq<string>, menuText: string, focus: Option<seq<string>>)

  /** `taskSwitcher()` on the tree `get_tree` returns; `menu` is what the menu prints for the
      text it is fed. Fetching the tree spreads the message command first, so without one the
      run fails before the menu is spawned. */
  function SwitchTask(tree: Container, menu: string -> string, msgCommand: Option<seq<string>>): (r: Result<Run, SpawnError>)
    ensures r.Failure? <==> msgCommand.None?
    ensures r.Failure? ==> r.error == MessageCommandNotIterable
    ensures r.Success? ==> r.value.menuArgs == MenuArgs && r.value.menuText == MenuText(Windows(tree))
    ensures r.Success? && r.value.focus.Some? ==>
              exists w :: w in Windows(tree) && w.name == Trim(menu(r.value.menuText)) &&
                          r.value.focus.value == msgCommand.value + [FocusCriterion(w), "focus"]
  {
    if msgCommand.None? then Failure(MessageCommandNotIterable)
    else
      var windows := Windows(tree);
      var text := MenuText(windows);
      var selected := Select(windows, menu(text));
      FindIsFirst(windows, Named(Trim(menu(text))));
      var focus :=
        if selected.None? then None
        else Some(msgCommand.value + [FocusCriterion(selected.value), "focus"]);
      Success(Run(MenuArgs, text, focus))
  }

  /** The candidates are exactly the content entries of the flattened tree with positive x and
      y, each as often as it occurs there, in flatten order. */
  lemma WindowsAreOnScreenContent(tree: Container)
    ensures forall x :: x in Windows(tree) <==> x in FlattenTreeOrder(tree) && IsContent(x) && OnScreen(x)
    ensures forall x :: multiset(Windows(tree))[x] ==
              if IsContent(x) && OnScreen(x) then multiset(FlattenTreeOrder(tree))[x] else 0
  {
    FilterKeeps(FlattenTreeOrder(tree), IsContent);
    FilterKeeps(Filter(FlattenTreeOrder(tree), IsContent), OnScreen);
  }

  /** The menu text splits back at its line breaks into the names, when there is a window and
      no name holds a line break. */
  lemma MenuTextReadsBack(windows: seq<Container>)
    requires |windows| >= 1
    requires forall i :: 0 <= i < |windows| ==> '\n' !in windows[i].name
    ensures Split(MenuText(windows), '\n') == Names(windows)
  {
    SplitJoin(Names(windows), '\n');
  }

  /** The selection is the first candidate named like the trimmed menu output; nothing is
      selected, and nothing focused, exactly when no candidate has that name. */
  lemma SelectionIsFirstMatch(tree: Container, menu: string -> string, msgCommand: Option<seq<string>>)
    ensures var windows := Windows(tree);
            var sel := Select(windows, menu(MenuText(windows)));
            sel.Some? ==> exists i :: 0 <= i < |windows| && windows[i] == sel.value &&
                                      windows[i].name == Trim(menu(MenuText(windows))) &&
                                      forall j :: 0 <= j < i ==> windows[j].name != Trim(menu(MenuText(windows)))
    ensures var windows := Windows(tree);
            msgCommand.Some? ==>
              (SwitchTask(tree, menu, msgCommand).value.focus.None? <==>
                 forall x :: x in windows ==> x.name != Trim(menu(MenuText(windows))))
  {
    var windows := Windows(tree);
    FindIsFirst(windows, Named(Trim(menu(MenuText(windows)))));
  }

  /** Choosing the name of a candidate focuses the first candidate of that name, when the name
      has no white space at its ends. */
  lemma ChosenNameIsFocused(tree: Container, menu: string -> string, i: int, msgCommand: seq<string>)
    requires 0 <= i < |Windows(tree)|
    requires menu(MenuText(Windows(tree))) == Windows(tree)[i].name
    requires Trim(Windows(tree)[i].name) == Windows(tree)[i].name
    ensures var windows := Windows(tree);
            exists k :: 0 <= k <= i && windows[k].name == windows[i].name &&
                        SwitchTask(tree, menu, Some(msgCommand)).value.focus ==
                          Some(msgCommand + [FocusCriterion(windows[k]), "focus"])
  {
    var windows := Windows(tree);
    var name := windows[i].name;
    FindIndexIsFirst(windows, Named(name));
    assert Named(name)(windows[i]);
    var k := FindIndex(windows, Named(name));
    assert 0 <= k <= i;
    var text := MenuText(windows);
    assert Select(windows, menu(text)) == Some(windows[k]);
    FocusOfSelection(tree, menu, msgCommand);
  }

  /** The focus command of a run is the one for the selection, if any. */
  lemma FocusOfSelection(tree: Container, menu: string -> string, msgCommand: seq<string>)
    ensures var sel := Select(Windows(tree), menu(MenuText(Windows(tree))));
            SwitchTask(tree, menu, Some(msgCommand)).value.focus ==
              if sel.None? then None else Some(msgCommand + [FocusCriterion(sel.value), "focus"])
  {
  }

  /** The focus criterion names the window's type by its wire name and its id in decimal:
      both read back. */
  lemma FocusCriterionReadsBack(c: Container)
    ensures var f := FocusCriterion(c);
            var w := WireName(c.kind);
            |f| >= |w| + 6 && f[0] == '[' && f[1..|w| + 1] == w && f[|w| + 1..|w| + 5] == "_id=" &&
            f[|f| - 1] == ']' &&
            ParseContainerType(f[1..|w| + 1]) == Some(c.kind) &&
            var digits := f[|w| + 5..|f| - 1];
            (digits[0] == '-' || IsDigit(digits[0])) && (forall i :: 1 <= i < |digits| ==> IsDigit(digits[i])) &&
            IntegerValue(digits) == c.id
  {
    var f := FocusCriterion(c);
    var w := WireName(c.kind);
    WireNameRoundTrip(c.kind, w);
    IntToDecimalRoundTrip(c.id);
    assert f[1..|w| + 1] == w;
    assert f[|w| + 1..|w| + 5] == "_id=";
    assert f[|w| + 5..|f| - 1] == IntToDecimal(c.id);
  }
}
