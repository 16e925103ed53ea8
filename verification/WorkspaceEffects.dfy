/** What the workspace actions do, beyond keeping the invariant. */
module WorkspaceEffects {
  import opened Bytes
  import opened Names
  import opened Layout
  import opened LayoutCheck
  import opened Workspace
  import opened WorkspaceInvariant
  import opened WorkspaceKeeps

  // ---- failures -------------------------------------------------------------------------

  /** A failed action changes nothing, with two exceptions: a pane whose process did
      not start has used up its number, and a layout update whose active pane is
      unknown has already replaced the layout. */
  lemma FailureIsAtomic(w: Workspace, action: Action, env: Env)
    requires Inv(w) && Apply(w, action, env).1.Failed?
    ensures var (z, outcome) := Apply(w, action, env);
            match outcome.error
            case StartFailed => z == w.(nextPaneID := w.nextPaneID + 1)
            case ActivePaneNotFound =>
              && action.UpdateLayout? && FindTab(w.tabs, action.tabID).Some?
              && (var i := FindTab(w.tabs, action.tabID).value;
                  var r := ValidateLayout(action.layout, w.tabs[i].paneIDs);
                  r.Good? && z == w.(tabs := w.tabs[i := w.tabs[i].(layout := r.value)]))
            case _ => z == w
  {
    hide Inv, SetActive, AddTab, CloseAt, CloseOthers, TabWithout, TabSplit, TabReplaced, ValidateLayout, InsertAt, RemoveAt, TrimSpace, Decimal;
    if action.ClosePane? {
      ClosePaneFails(w, action.tabID, action.paneID);
    }
  }

  lemma ClosePaneFails(w: Workspace, id: string, p: string)
    requires Inv(w) && ClosePaneOf(w, id, p).1.Failed?
    ensures ClosePaneOf(w, id, p).0 == w
    ensures ClosePaneOf(w, id, p).1.error == TabNotFound || ClosePaneOf(w, id, p).1.error == PaneNotFound
  {
    hide Inv, ClosePaneAt, FindTab;
    match FindTab(w.tabs, id)
    case None =>
    case Some(i) =>
      TabFound(w, id, i);
      ClosePaneKeeps(w, i, p);
      MissingPane(w, i, p);
  }

  lemma MissingPane(w: Workspace, i: nat, p: string)
    requires i < |w.tabs|
    ensures p !in w.tabs[i].paneIDs ==> ClosePaneAt(w, i, p) == (w, Failed(PaneNotFound))
  {}

  predicate Keeps(r: Checked<LayoutNode>, t: Tab)
  {
    r.Good? && r.value == t.layout
  }

  /** So a refused layout update leaves the workspace as it was exactly if the
      layout was the tab's own. */
  lemma RefusedUpdate(w: Workspace, id: string, layout: LayoutNode, active: string)
    requires Inv(w) && UpdateLayoutOf(w, id, layout, active).1 == Failed(ActivePaneNotFound)
    ensures var t := w.tabs[FindTab(w.tabs, id).value];
            UpdateLayoutOf(w, id, layout, active).0 == w <==> Keeps(ValidateLayout(layout, t.paneIDs), t)
  {
    hide Inv, ValidateLayout, FindTab;
    var i := FindTab(w.tabs, id).value;
    TabFound(w, id, i);
    var r := ValidateLayout(layout, w.tabs[i].paneIDs);
    var t := w.tabs[i].(layout := r.value);
    assert w.tabs[i := t][i] == t;
    if t == w.tabs[i] {
      assert w.tabs[i := t] == w.tabs;
    }
  }

  /** A split of two panes. */
  function Pair(a: string, b: string): LayoutNode
  {
    Node(SplitKind, Vertical, "", [Leaf(a, 50.0), Leaf(b, 50.0)], 0.0)
  }

  lemma FirstNames()
    ensures TabName(1) == "tab-1" && PaneName(1) == "pane-1" && PaneName(2) == "pane-2"
  {
    assert Decimal(1) == "1" && Decimal(2) == "2";
  }

  /** A new workspace after its first tab is created. */
  lemma FirstTab(env: Env)
    requires env.starts
    ensures var w := Run(NEW_WORKSPACE, [Do(CreateTab("", ""), env)]);
            && |w.tabs| == 1 && w.tabs[0].id == "tab-1" && w.tabs[0].activePane == "pane-1"
            && w.tabs[0].layout == Leaf("pane-1", 0.0) && w.tabs[0].paneIDs == ["pane-1"]
            && w.panes == map["pane-1" := PaneInfo(false, false, env.startCWD)] && w.nextPaneID == 2
  {
    hide SetActive, Decimal, TrimSpace;
    FirstNames();
    assert [Do(CreateTab("", ""), env)][..0] == [];
    var v := NewPane(NEW_WORKSPACE, env).0;
    var title := if env.pathLabel == "" then "Shell " + Decimal(v.nextTabID) else env.pathLabel;
    var tab := Tab("tab-1", title, false, "pane-1", Leaf("pane-1", 0.0), ["pane-1"]);
    assert InsertAt(v.tabs, InsertPosition(v, ""), tab) == [tab];
    SetActiveTabs(v.(tabs := [tab], nextTabID := v.nextTabID + 1), "tab-1");
    SetActivePanes(v.(tabs := [tab], nextTabID := v.nextTabID + 1), "tab-1");
  }

  lemma RunSnoc(w: Workspace, events: seq<Event>, e: Event)
    ensures Run(w, events + [e]) == Step(Run(w, events), e)
  {
    Snoc(events, e);
    hide Step;
  }

  lemma SplitTab(env: Env)
    requires env.starts
    ensures var w := Run(NEW_WORKSPACE, [Do(CreateTab("", ""), env)] + [Do(SplitPane("tab-1", "pane-1", Vertical), env)]);
            && |w.tabs| == 1 && w.tabs[0].id == "tab-1" && w.tabs[0].paneIDs == ["pane-1", "pane-2"]
            && w.tabs[0].layout == Pair("pane-1", "pane-2")
  {
    hide SetActive, Decimal, TrimSpace, Run;
    FirstNames();
    FirstTab(env);
    RunSnoc(NEW_WORKSPACE, [Do(CreateTab("", ""), env)], Do(SplitPane("tab-1", "pane-1", Vertical), env));
    var w := Run(NEW_WORKSPACE, [Do(CreateTab("", ""), env)]);
    var v := NewPane(w, env).0;
    assert FindTab(w.tabs, "tab-1") == Some(0);
    var tab := TabSplit(v.tabs[0], "pane-1", Vertical, "pane-2");
    assert tab.paneIDs == ["pane-1", "pane-2"];
    SetActiveTabs(v.(tabs := v.tabs[0 := tab]), "tab-1");
  }

  lemma LeafAccepted(a: string, ids: seq<string>, seen: set<string>)
    requires a in ids && a !in seen
    ensures ValidateNode(Leaf(a, 50.0), ids, seen) == Good(Leaf(a, 50.0), seen + {a}) && Clamp(Leaf(a, 50.0)) == Leaf(a, 50.0)
  {}

  lemma PairAccepted(a: string, b: string)
    requires a != b
    ensures ValidateLayout(Pair(a, b), [b, a]) == Good(Pair(a, b), {a, b})
    ensures Leaves(Pair(a, b)) == [a, b]
  {
    var ids := [b, a];
    PairSpec(a, b);
    assert [Leaf(a, 50.0), Leaf(b, 50.0)][1..] == [Leaf(b, 50.0)] && [Leaf(b, 50.0)][1..] == [];
    var none: set<string> := {};
    var cs, ds := [Leaf(a, 50.0), Leaf(b, 50.0)], [Leaf(b, 50.0)];
    assert none + {a} == {a} && {a} + {b} == {a, b};
    LeafAccepted(a, ids, none);
    LeafAccepted(b, ids, {a});
    assert ds[1..] == [] && [Leaf(b, 50.0)] + [] == ds && cs[1..] == ds;
    assert ValidateAll(ds, ids, {a}) == Good([Leaf(b, 50.0)] + [], {a, b});
    assert ValidateAll(cs, ids, none) == Good(cs, {a, b}) by {
      hide Leaf;
      assert cs == [Leaf(a, 50.0)] + ds;
    }
    assert |{a, b}| == 2;
  }

  /** A refused layout update that did replace the layout: in a workspace with one tab
      of two panes, exchanging them while naming a pane that does not exist. */
  lemma RefusedUpdateReplacesLayout(env: Env)
    requires env.starts
    ensures var w := Run(NEW_WORKSPACE, [Do(CreateTab("", ""), env)] + [Do(SplitPane("tab-1", "pane-1", Vertical), env)]);
            var (z, outcome) := Apply(w, UpdateLayout("tab-1", Pair("pane-2", "pane-1"), "pane-3"), env);
            && outcome == Failed(ActivePaneNotFound) && |w.tabs| == 1 && |z.tabs| == 1
            && Leaves(w.tabs[0].layout) == ["pane-1", "pane-2"] && Leaves(z.tabs[0].layout) == ["pane-2", "pane-1"]
  {
    hide Run, ValidateLayout, Leaves;
    SplitTab(env);
    PairAccepted("pane-1", "pane-2");
    PairAccepted("pane-2", "pane-1");
    var w := Run(NEW_WORKSPACE, [Do(CreateTab("", ""), env)] + [Do(SplitPane("tab-1", "pane-1", Vertical), env)]);
    assert FindTab(w.tabs, "tab-1") == Some(0);
  }

  // ---- panes ----------------------------------------------------------------------------

  /** Closing a pane that is not the tab's last one: the others keep their order, and
      if it was active its neighbour in the layout becomes active. */
  lemma ClosedPane(w: Workspace, i: nat, p: string)
    requires Inv(w) && i < |w.tabs| && p in w.tabs[i].paneIDs && |w.tabs[i].paneIDs| > 1
    ensures ClosePaneAt(w, i, p) == (w.(panes := w.panes - {p}, tabs := w.tabs[i := TabWithout(w.tabs[i], p)]), Done)
    ensures var before, after := w.tabs[i], TabWithout(w.tabs[i], p);
            && Leaves(after.layout) == Without(Leaves(before.layout), p)
            && (if before.activePane == p then Neighbours(Leaves(before.layout), p, after.activePane)
                else after.activePane == before.activePane)
  {
    hide Inv, TabOk, NoDup, TabWithout;
    OneTabInv(w, i);
    MoreThanOne(w.tabs[i], p);
    TabWithoutOk(w.tabs[i], p);
    NumberedNames(w, i);
    WithoutActive(w.tabs[i], p);
  }

  lemma NumberedNames(w: Workspace, i: nat)
    requires Inv(w) && i < |w.tabs|
    ensures forall p :: p in w.tabs[i].paneIDs ==> p != ""
  {
    hide TabsOk, IdsOk, NumericID;
    PanesOnce(w, i);
    forall p | p in w.tabs[i].paneIDs ensures p != "" {
      assert Numbered(p, PANE_PREFIX, w.nextPaneID);
      NumericTrimmed(p, PANE_PREFIX);
    }
  }

  lemma WithoutActive(t: Tab, p: string)
    requires TabOk(t) && NoDup(t.paneIDs) && p in t.paneIDs && |t.paneIDs| > 1
    requires forall q :: q in t.paneIDs ==> q != ""
    ensures var z := TabWithout(t, p);
            && Leaves(z.layout) == Without(Leaves(t.layout), p)
            && (if t.activePane == p then Neighbours(Leaves(t.layout), p, z.activePane) else z.activePane == t.activePane)
  {
    hide RemoveNode, WellFormed, Without, Adjacent, NoDup, Leaves;
    RemoveSpec(t.layout, p);
    WithoutContents(Leaves(t.layout), p);
    var ids := Leaves(t.layout);
    SameMembership(ids, t.paneIDs);
    SameEmptiness(ids, t.paneIDs);
    AdjacentSpec(t.layout, p);
    if t.activePane == p {
      var next := Adjacent(t.layout, p).0;
      NeighbourDiffers(ids, t.paneIDs, p, next);
      StillThere(ids, p, next);
    } else {
      StillThere(ids, p, t.activePane);
    }
  }

  lemma SameMembership(a: seq<string>, b: seq<string>)
    requires multiset(a) == multiset(b)
    ensures forall x :: x in a <==> x in b
  {
    forall x ensures x in a <==> x in b {
      assert x in a <==> x in multiset(a);
      assert x in b <==> x in multiset(b);
    }
  }

  lemma NeighbourDiffers(s: seq<string>, ids: seq<string>, p: string, q: string)
    requires multiset(s) == multiset(ids) && NoDup(ids) && Neighbours(s, p, q)
    ensures p != q && q in s
  {
    NoDupFrom(s, ids);
  }

  lemma StillThere(s: seq<string>, p: string, q: string)
    requires q in s && q != p
    ensures q in Without(s, p)
  {
    WithoutContents(s, p);
    assert multiset(s)[q] > 0;
    assert q in multiset(Without(s, p));
  }

  /** A split puts a pane with a fresh id right behind its target and activates it;
      no other tab changes. The fallback for a target missing from the layout is
      never used. */
  lemma SplitEffect(w: Workspace, id: string, p: string, direction: Direction, env: Env)
    requires Inv(w) && SplitPaneOf(w, id, p, direction, env).1 == Done
    ensures FindTab(w.tabs, id).Some?
    ensures var z := SplitPaneOf(w, id, p, direction, env).0;
            var i, newID := FindTab(w.tabs, id).value, PaneName(w.nextPaneID);
            && newID !in w.panes && z.panes.Keys == w.panes.Keys + {newID}
            && SplitNode(w.tabs[i].layout, p, direction, newID).1
            && Leaves(z.tabs[i].layout) == InsertAfter(Leaves(w.tabs[i].layout), p, newID)
            && z.tabs[i].activePane == newID && z.activeTab == id
            && z.tabs == w.tabs[i := z.tabs[i]]
  {
    hide Inv, Spare, SetActive, TabOk, TabSplit, Core, TabsOk, FindTab;
    InvIsActive(w);
    NewPaneSpare(w, env);
    var i := FindTab(w.tabs, id).value;
    TabFound(w, id, i);
    OneTabInv(w, i);
    var newID := PaneName(w.nextPaneID);
    TabSplitOk(w.tabs[i], p, direction, newID);
    SplitLeaves(w.tabs[i], p, direction, newID);
    var v := NewPane(w, env).0;
    var t := TabSplit(w.tabs[i], p, direction, newID);
    TakeSpare(v, i, t, newID);
    ActivateLive(v.(tabs := v.tabs[i := t]), i);
    SetActiveTabs(v.(tabs := v.tabs[i := t]), v.tabs[i].id);
  }

  lemma SplitLeaves(t: Tab, p: string, direction: Direction, newID: string)
    requires TabOk(t) && p in t.paneIDs && IsDirection(direction)
    ensures Leaves(TabSplit(t, p, direction, newID).layout) == InsertAfter(Leaves(t.layout), p, newID)
    ensures TabSplit(t, p, direction, newID).activePane == newID
  {
    SplitSpec(t.layout, p, direction, newID);
    SameMembership(Leaves(t.layout), t.paneIDs);
  }

  // ---- order ----------------------------------------------------------------------------

  /** The other tabs, in order. */
  function Others(tabs: seq<Tab>, id: string): seq<Tab>
  {
    if tabs == [] then [] else (if tabs[0].id == id then [] else [tabs[0]]) + Others(tabs[1..], id)
  }

  lemma {:induction false} OthersAppend(a: seq<Tab>, b: seq<Tab>, id: string)
    ensures Others(a + b, id) == Others(a, id) + Others(b, id)
  {
    if a == [] {
      assert a + b == b;
    } else {
      OthersAppend(a[1..], b, id);
      assert (a + b)[1..] == a[1..] + b;
      Assoc(if a[0].id == id then [] else [a[0]], Others(a[1..], id), Others(b, id));
    }
  }

  lemma OthersMoved(tabs: seq<Tab>, i: nat, target: nat)
    requires i < |tabs| && target < |tabs|
    ensures Others(InsertAt(RemoveAt(tabs, i), target, tabs[i]), tabs[i].id) == Others(tabs, tabs[i].id)
  {
    hide Others, InsertAt;
    OthersInserted(RemoveAt(tabs, i), target, tabs[i]);
    OthersInserted(RemoveAt(tabs, i), i, tabs[i]);
    PutBack(tabs, i);
  }

  lemma PutBack(tabs: seq<Tab>, i: nat)
    requires i < |tabs|
    ensures InsertAt(RemoveAt(tabs, i), i, tabs[i]) == tabs
  {
    CutFirst(tabs[..i], tabs[i + 1..], i);
    Empty(tabs[..i]);
    AroundOne(tabs, i);
  }

  lemma OthersInserted(rest: seq<Tab>, target: nat, t: Tab)
    requires target <= |rest|
    ensures Others(InsertAt(rest, target, t), t.id) == Others(rest, t.id)
  {
    hide Others;
    var c, d := rest[..target], rest[target..];
    OthersAround(c, t, d);
    OthersAppend(c, d, t.id);
    SplitAt(rest, target);
  }

  lemma OthersAround(a: seq<Tab>, t: Tab, b: seq<Tab>)
    ensures Others(a + [t] + b, t.id) == Others(a, t.id) + Others(b, t.id)
  {
    OthersNone(t);
    hide Others;
    OthersAppend(a, [t], t.id);
    OthersAppend(a + [t], b, t.id);
    assert Others(a, t.id) + [] == Others(a, t.id);
  }

  lemma OthersNone(t: Tab)
    ensures Others([t], t.id) == []
  {}

  /** A moved tab stands where it was asked to, and the others keep their order. */
  lemma MoveTabEffect(w: Workspace, id: string, position: Position)
    requires Inv(w) && MoveTabOf(w, id, position).1 == Done && |w.tabs| > 1
    ensures FindTab(w.tabs, id).Some?
    ensures var z := MoveTabOf(w, id, position).0;
            var i, n := FindTab(w.tabs, id).value, |w.tabs|;
            && |z.tabs| == n && Others(z.tabs, id) == Others(w.tabs, id)
            && (position == First ==> z.tabs[0] == w.tabs[i])
            && (position == Left ==> z.tabs[Max(0, i - 1)] == w.tabs[i])
            && (position == Right ==> z.tabs[Min(n - 1, i + 1)] == w.tabs[i])
            && (position == Last ==> z.tabs[n - 1] == w.tabs[i])
  {
    hide Inv, SetActive, Others;
    var i := FindTab(w.tabs, id).value;
    var target := TargetIndex(i, |w.tabs|, position).value;
    OthersMoved(w.tabs, i, target);
    SetActiveTabs(w.(tabs := InsertAt(RemoveAt(w.tabs, i), target, w.tabs[i])), w.tabs[i].id);
  }

  /** A reordered tab stands right before the given one, or last; the others keep
      their order, and nothing else changes. */
  lemma ReorderEffect(w: Workspace, id: string, beforeID: string)
    requires Inv(w) && ReorderTabOf(w, id, beforeID).1 == Done
    ensures FindTab(w.tabs, TrimSpace(id)).Some?
    ensures var z := ReorderTabOf(w, id, beforeID).0;
            var i, n := FindTab(w.tabs, TrimSpace(id)).value, |w.tabs|;
            && |z.tabs| == n && Others(z.tabs, w.tabs[i].id) == Others(w.tabs, w.tabs[i].id) && z == w.(tabs := z.tabs)
            && (TrimSpace(beforeID) == "" ==> z.tabs[n - 1] == w.tabs[i])
            && (TrimSpace(beforeID) != "" ==>
                  exists k :: 0 <= k < n - 1 && z.tabs[k] == w.tabs[i] && z.tabs[k + 1].id == TrimSpace(beforeID))
  {
    hide Inv, Others, TrimSpace;
    var i := FindTab(w.tabs, TrimSpace(id)).value;
    var before, rest := TrimSpace(beforeID), RemoveAt(w.tabs, i);
    var z := ReorderTabOf(w, id, beforeID).0;
    if before != "" {
      var j := FindTab(w.tabs, before).value;
      assert j != i;
      assert rest[if j < i then j else j - 1] == w.tabs[j];
      var k := FindTab(rest, before).value;
      OthersMoved(w.tabs, i, k);
      assert z.tabs[k] == w.tabs[i] && z.tabs[k + 1] == rest[k];
    } else {
      OthersMoved(w.tabs, i, |rest|);
    }
  }

  // ---- ids are never reused ---------------------------------------------------------------

  /** A step adds at most one pane, named by the counter, which then moves on. */
  ghost predicate Grows(w: Workspace, z: Workspace)
  {
    && w.nextPaneID <= z.nextPaneID
    && z.panes.Keys <= w.panes.Keys + {PaneName(w.nextPaneID)}
    && (z.panes.Keys <= w.panes.Keys || w.nextPaneID < z.nextPaneID)
  }

  lemma SetActivePanes(w: Workspace, id: string)
    ensures SetActive(w, id).panes == w.panes && SetActive(w, id).nextPaneID == w.nextPaneID
  {
    hide TakeRecent, FindTab, TrimSpace;
  }

  lemma {:induction false} CloseOthersShrinks(w: Workspace, id: string, n: nat)
    ensures CloseOthers(w, id, n).panes.Keys <= w.panes.Keys && CloseOthers(w, id, n).nextPaneID == w.nextPaneID
    decreases n
  {
    hide CloseTabOf;
    if n > 0 {
      if n <= |w.tabs| && w.tabs[n - 1].id != id {
        CloseTabShrinks(w, w.tabs[n - 1].id);
        CloseOthersShrinks(CloseTabOf(w, w.tabs[n - 1].id).0, id, n - 1);
      } else {
        CloseOthersShrinks(w, id, n - 1);
      }
    }
  }

  lemma CloseTabShrinks(w: Workspace, id: string)
    ensures CloseTabOf(w, id).0.panes.Keys <= w.panes.Keys && CloseTabOf(w, id).0.nextPaneID == w.nextPaneID
  {
    hide TakeRecent, FindTab, TrimSpace;
  }

  lemma ClosePaneShrinks(w: Workspace, i: nat, p: string)
    requires i < |w.tabs|
    ensures ClosePaneAt(w, i, p).0.panes.Keys <= w.panes.Keys && ClosePaneAt(w, i, p).0.nextPaneID == w.nextPaneID
  {
    hide CloseTabOf, TabWithout;
    var tab := TabWithout(w.tabs[i], p);
    CloseTabShrinks(w.(panes := w.panes - {p}, tabs := w.tabs[i := tab]), tab.id);
  }

  lemma ApplyGrows(w: Workspace, action: Action, env: Env)
    ensures Grows(w, Apply(w, action, env).0)
  {
    hide SetActive, CloseTabOf, CloseOthers, ClosePaneAt, TabWithout, TabSplit, TabReplaced, ValidateLayout, InsertAt, RemoveAt, TrimSpace,
         FindTab, TakeRecent, Decimal, InsertPosition, PaneName;
    forall v: Workspace, id: string ensures SetActive(v, id).panes == v.panes && SetActive(v, id).nextPaneID == v.nextPaneID {
      SetActivePanes(v, id);
    }
    match action
    case CloseTab(id) => CloseTabShrinks(w, id);
    case CloseOtherTabs(id) => CloseOthersShrinks(w, id, |w.tabs|);
    case ClosePane(id, p) =>
      if FindTab(w.tabs, id).Some? { ClosePaneShrinks(w, FindTab(w.tabs, id).value, p); }
    case _ =>
  }

  lemma StepGrows(w: Workspace, e: Event)
    ensures Grows(w, Step(w, e))
  {
    hide Apply, ClosePaneAt, FindPaneTab;
    match e
    case Do(action, env) => ApplyGrows(w, action, env);
    case RemoveAfterExit(p) =>
      if FindPaneTab(w.tabs, p).Some? { ClosePaneShrinks(w, FindPaneTab(w.tabs, p).value, p); }
    case _ =>
  }

  /** A pane that is gone: its number is used up and it is not there. */
  predicate Gone(w: Workspace, p: string)
  {
    p !in w.panes && Numbered(p, PANE_PREFIX, w.nextPaneID)
  }

  lemma GoneStep(w: Workspace, e: Event, p: string)
    requires Gone(w, p) && w.nextPaneID > 0
    ensures Gone(Step(w, e), p) && Step(w, e).nextPaneID > 0
  {
    StepGrows(w, e);
    NameNumber(PANE_PREFIX, w.nextPaneID);
    hide NumericID, Step;
  }

  /** Pane ids are never reused: a pane that has gone never comes back. */
  lemma {:induction false} NeverReused(w: Workspace, p: string, events: seq<Event>)
    requires Gone(w, p) && w.nextPaneID > 0
    ensures Gone(Run(w, events), p) && Run(w, events).nextPaneID > 0
  {
    hide Gone, Step;
    if events != [] {
      NeverReused(w, p, events[..|events| - 1]);
      GoneStep(Run(w, events[..|events| - 1]), events[|events| - 1], p);
    }
  }

  // ---- exits ----------------------------------------------------------------------------

  /** What happens when a pane's process ends and nothing interferes. */
  function ExitSequence(w: Workspace, p: string, exitCode: int): Workspace
  {
    var (v, retained) := RetainOf(ExitOf(w, p), p, exitCode);
    if retained then v else RemoveAfterExitOf(v, p)
  }

  /** A pane that fails never empties the workspace: the last one is kept, exited and
      marked; any other pane that ends is removed. */
  lemma ExitEffect(w: Workspace, p: string, exitCode: int)
    requires Inv(w) && p in w.panes
    ensures var z := ExitSequence(w, p, exitCode);
            && Inv(z)
            && (p in z.panes <==> exitCode != 0 && w.panes.Keys == {p})
            && (p in z.panes ==> z.panes[p].exited && z.panes[p].retained && z.tabs == w.tabs)
            && z.panes.Keys == (if p in z.panes then w.panes.Keys else w.panes.Keys - {p})
  {
    hide Inv, PaneBag, ClosePaneAt, FindPaneTab;
    var v := ExitOf(w, p);
    StepKeeps(w, PaneExited(p));
    UpdateKeys(w.panes, p, v.panes[p]);
    PaneHasTab(w, p);
    var i := FindPaneTab(w.tabs, p).value;
    assert i < |w.tabs| && p in w.tabs[i].paneIDs;
    OnlyPane(w, i, p);
    StepKeeps(v, Retain(p, exitCode));
    if exitCode != 0 && |w.tabs| == 1 && |w.tabs[i].paneIDs| == 1 {
    } else {
      ClosePaneKeeps(v, i, p);
      ClosedPanes(v, i, p);
    }
  }

  lemma ClosedPanes(w: Workspace, i: nat, p: string)
    requires Inv(w) && i < |w.tabs| && p in w.tabs[i].paneIDs
    ensures ClosePaneAt(w, i, p).0.panes.Keys == w.panes.Keys - {p}
  {
    hide Inv, TabsOk, IdsOk, PanesOk, TabWithout, TabOk, IdBag, Core;
    InvCoreBut(w, i);
    InvActiveIn(w, i);
    WithoutPane(w, i, p);
    var tab := TabWithout(w.tabs[i], p);
    if tab.paneIDs == [] || tab.layout == Nil {
      var v := w.(panes := w.panes - {p}, tabs := w.tabs[i := tab]);
      CoreButIds(v, i);
      FoundTab(v, i);
      CloseAtKeeps(v, i);
    }
  }

  lemma {:induction false} BagFind(tabs: seq<Tab>, p: string)
    requires p in PaneBag(tabs)
    ensures FindPaneTab(tabs, p).Some?
  {
    if tabs != [] && p !in tabs[0].paneIDs {
      assert p !in multiset(tabs[0].paneIDs);
      BagFind(tabs[1..], p);
    }
  }

  lemma PaneHasTab(w: Workspace, p: string)
    requires Inv(w) && p in w.panes
    ensures FindPaneTab(w.tabs, p).Some?
  {
    assert p in multiset(w.panes.Keys);
    BagFind(w.tabs, p);
  }

  /** One tab with one pane means one pane in all. */
  lemma OnlyPane(w: Workspace, i: nat, p: string)
    requires Inv(w) && i < |w.tabs| && p in w.tabs[i].paneIDs
    ensures |w.tabs| == 1 && |w.tabs[i].paneIDs| == 1 <==> w.panes.Keys == {p}
  {
    hide TabsOk, IdsOk, PaneBag, Numbered;
    BagAt(w.tabs, i);
    var rest := RemoveAt(w.tabs, i);
    if |w.tabs| == 1 && |w.tabs[i].paneIDs| == 1 {
      assert w.tabs[i].paneIDs == [p] && rest == [];
      BagNothing();
      assert multiset(w.panes.Keys) == multiset{p};
      OneKey(w.panes.Keys, p);
    }
    if |w.tabs| > 1 {
      RestHasPanes(w, i);
    }
    assert |PaneBag(rest) + multiset(w.tabs[i].paneIDs)| == |PaneBag(rest)| + |w.tabs[i].paneIDs|;
    assert |multiset(w.panes.Keys)| == |w.panes.Keys|;
  }

  lemma RestHasPanes(w: Workspace, i: nat)
    requires Inv(w) && i < |w.tabs| && |w.tabs| > 1
    ensures |PaneBag(RemoveAt(w.tabs, i))| >= 1
  {
    hide PaneBag, NoDup;
    var rest := RemoveAt(w.tabs, i);
    var j := if i == 0 then 1 else 0;
    OneTabInv(w, j);
    assert rest[0] == w.tabs[j];
    BagAt(rest, 0);
    assert |PaneBag(RemoveAt(rest, 0)) + multiset(rest[0].paneIDs)| == |PaneBag(RemoveAt(rest, 0))| + |rest[0].paneIDs|;
  }

  lemma OneKey(keys: set<string>, p: string)
    requires multiset(keys) == multiset{p}
    ensures keys == {p}
  {
    forall x ensures x in keys <==> x == p {
      assert multiset(keys)[x] == if x in keys then 1 else 0;
    }
  }

  // ---- tabs -----------------------------------------------------------------------------

  /** Activating a tab puts it first among the recent tabs and the one that was
      active before it second. */
  lemma ActivateEffect(w: Workspace, i: nat)
    requires Inv(w) && i < |w.tabs|
    ensures var z := SetActive(w, w.tabs[i].id);
            && z.activeTab == w.tabs[i].id && z.recentTabs != [] && z.recentTabs[0] == w.tabs[i].id
            && (w.activeTab != w.tabs[i].id ==> z.recentTabs == [w.tabs[i].id, w.activeTab])
            && z == w.(activeTab := z.activeTab, recentTabs := z.recentTabs)
  {
    LiveIds(w, i);
    hide Inv;
    SetActiveRecents(w, w.tabs[i].id);
  }

  lemma SetActiveRecents(w: Workspace, id: string)
    requires TrimSpace(id) == id != "" && FindTab(w.tabs, id).Some?
    requires TrimSpace(w.activeTab) == w.activeTab != "" && FindTab(w.tabs, w.activeTab).Some?
    ensures var z := SetActive(w, id);
            && z.activeTab == id && z.recentTabs != [] && z.recentTabs[0] == id
            && (w.activeTab != id ==> z.recentTabs == [id, w.activeTab])
            && z == w.(activeTab := z.activeTab, recentTabs := z.recentTabs)
  {
    hide FindTab, TrimSpace;
    var candidates := [id, w.activeTab] + w.recentTabs;
    var rest := candidates[1..];
    assert candidates[0] == id && rest[0] == w.activeTab;
    assert AppendRecent(w.tabs, [], id) == [id];
    assert TakeRecent(w.tabs, [], candidates) == TakeRecent(w.tabs, [id], rest);
    if w.activeTab != id {
      assert AppendRecent(w.tabs, [id], w.activeTab) == [id, w.activeTab];
      assert TakeRecent(w.tabs, [id], rest) == [id, w.activeTab];
    } else {
      RecentGrows(w.tabs, [id], rest);
    }
  }

  lemma LiveIds(w: Workspace, i: nat)
    requires Inv(w) && i < |w.tabs|
    ensures TrimSpace(w.tabs[i].id) == w.tabs[i].id != "" && FindTab(w.tabs, w.tabs[i].id).Some?
    ensures TrimSpace(w.activeTab) == w.activeTab != "" && FindTab(w.tabs, w.activeTab).Some?
  {
    hide TabsOk, PanesOk, TrimSpace, NumericID;
    BagAt(w.tabs, i);
    LiveTrimmed(w, w.tabs[i].id);
    LiveTrimmed(w, w.activeTab);
    FoundInBag(w.tabs, w.tabs[i].id);
    FoundInBag(w.tabs, w.activeTab);
  }

  lemma {:induction false} RecentGrows(tabs: seq<Tab>, items: seq<string>, candidates: seq<string>)
    ensures |items| <= |TakeRecent(tabs, items, candidates)| && TakeRecent(tabs, items, candidates)[..|items|] == items
    decreases |candidates|
  {
    if candidates != [] {
      var next := AppendRecent(tabs, items, candidates[0]);
      if |next| < 2 {
        RecentGrows(tabs, next, candidates[1..]);
        var all := TakeRecent(tabs, next, candidates[1..]);
        assert all[..|items|] == all[..|next|][..|items|];
      }
    }
  }

  /** A closed tab takes its panes with it; if it was active, the tab that moves into
      its place becomes active, or the last one. */
  lemma CloseTabEffect(w: Workspace, i: nat)
    requires Inv(w) && i < |w.tabs|
    ensures var (z, outcome) := CloseTabOf(w, w.tabs[i].id);
            && outcome == Done && z.tabs == RemoveAt(w.tabs, i)
            && z.panes == w.panes - (set p | p in w.tabs[i].paneIDs)
            && z.activeTab == (if w.activeTab != w.tabs[i].id then w.activeTab
                               else if |w.tabs| == 1 then ""
                               else RemoveAt(w.tabs, i)[Min(i, |w.tabs| - 2)].id)
  {
    hide Inv, CloseAt, FindTab, SetActive, TakeRecent;
    InvCoreBut(w, i);
    CoreButIds(w, i);
    FoundTab(w, i);
    CloseAtKeeps(w, i);
    ClosedActive(w, i);
  }

  lemma ClosedActive(w: Workspace, i: nat)
    requires i < |w.tabs| && CoreBut(w, i)
    ensures CloseAt(w, i).activeTab == (if w.activeTab != w.tabs[i].id then w.activeTab
                                        else if |w.tabs| == 1 then ""
                                        else RemoveAt(w.tabs, i)[Min(i, |w.tabs| - 2)].id)
  {
    hide CoreBut, TakeRecent, FindTab, TrimSpace, SetActive, Core, Inv;
    ClosedCore(w, i);
    var v := w.(panes := w.panes - (set p | p in w.tabs[i].paneIDs), tabs := RemoveAt(w.tabs, i));
    if w.activeTab == w.tabs[i].id {
      if |w.tabs| > 1 {
        ActivateLive(v, Min(i, |v.tabs| - 1));
      } else {
        NoTabsActive(v);
      }
    }
  }

  lemma NoTabsActive(v: Workspace)
    ensures SetActive(v, "").activeTab == ""
  {
    TrimNothing("");
  }

  /** A new tab stands right behind its source, or behind the active tab, or last;
      the others keep their order. */
  lemma AddTabEffect(w: Workspace, source: string, title: string, p: string)
    requires Spare(w, p)
    ensures var z := AddTab(w, source, title, p);
            var at := InsertPosition(w, source);
            && |z.tabs| == |w.tabs| + 1 && z.tabs[at].id == TabName(w.nextTabID) && z.tabs[at].paneIDs == [p]
            && z.tabs[..at] == w.tabs[..at] && z.tabs[at + 1..] == w.tabs[at..]
            && z.activeTab == TabName(w.nextTabID) && z.panes == w.panes
            && (TrimSpace(source) in IdBag(w.tabs) && TrimSpace(source) != "" ==> 0 < at && w.tabs[at - 1].id == TrimSpace(source))
  {
    hide IdBag, SetActive, TrimSpace, Spare, Inv, InsertPosition, TabName, InsertAt;
    var tab := Tab(TabName(w.nextTabID), title, false, p, Leaf(p, 0.0), [p]);
    BehindSource(w, source);
    Inserted(w.tabs, InsertPosition(w, source), tab);
    AddTabKeeps(w, source, title, p);
    SetActiveTabs(w.(tabs := InsertAt(w.tabs, InsertPosition(w, source), tab), nextTabID := w.nextTabID + 1), tab.id);
  }

  lemma BehindSource(w: Workspace, source: string)
    ensures var at := InsertPosition(w, source);
            TrimSpace(source) in IdBag(w.tabs) && TrimSpace(source) != "" ==> 0 < at && w.tabs[at - 1].id == TrimSpace(source)
  {
    hide IdBag, TrimSpace;
    FoundInBag(w.tabs, TrimSpace(source));
  }

  lemma Inserted(tabs: seq<Tab>, at: nat, t: Tab)
    requires at <= |tabs|
    ensures var z := InsertAt(tabs, at, t);
            |z| == |tabs| + 1 && z[at] == t && z[..at] == tabs[..at] && z[at + 1..] == tabs[at..]
  {}

  /** A restarted pane gets a fresh id in the same place of its tab's list and of its
      layout; the old one is gone, and no other tab changes. */
  lemma RestartEffect(w: Workspace, id: string, p: string, env: Env)
    requires Inv(w) && RestartPaneOf(w, id, p, env).1 == Done
    ensures FindTab(w.tabs, id).Some? && p in w.panes && w.panes[p].exited
    ensures var z := RestartPaneOf(w, id, p, env).0;
            var i, newID := FindTab(w.tabs, id).value, PaneName(w.nextPaneID);
            && newID !in w.panes && z.panes.Keys == w.panes.Keys - {p} + {newID}
            && z.tabs == w.tabs[i := TabReplaced(w.tabs[i], p, newID)]
            && Leaves(TabReplaced(w.tabs[i], p, newID).layout) == Renamed(Leaves(w.tabs[i].layout), p, newID)
  {
    hide Inv, Spare, SetActive, TabOk, TabReplaced, Core, TabsOk, FindTab, NoDup;
    InvIsActive(w);
    NewPaneSpare(w, env);
    var i := FindTab(w.tabs, id).value;
    TabFound(w, id, i);
    OneTabInv(w, i);
    ReplacedLeaves(w.tabs[i], p, PaneName(w.nextPaneID));
    var v := NewPane(w, env).0;
    SetActiveTabs(v.(tabs := v.tabs[i := TabReplaced(v.tabs[i], p, PaneName(w.nextPaneID))], panes := v.panes - {p}), v.tabs[i].id);
  }

  lemma ReplacedLeaves(t: Tab, p: string, newID: string)
    requires TabOk(t)
    ensures Leaves(TabReplaced(t, p, newID).layout) == Renamed(Leaves(t.layout), p, newID)
  {
    ReplaceSpec(t.layout, p, newID);
  }
}
