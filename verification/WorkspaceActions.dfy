/** What every workspace action does, said on the workspace's fields: when it fails, and
    which tab, pane, layout, title and recent tabs it leaves behind
    (core/workspace_actions.go, core/workspace_restart.go). */
module WorkspaceActions {
  import opened Bytes
  import opened Names
  import opened Layout
  import opened LayoutCheck
  import opened LayoutShape
  import opened Workspace
  import opened WorkspaceInvariant
  import opened WorkspaceKeeps
  import opened WorkspaceEffects

  // ---- which tabs are remembered ------------------------------------------------------------

  /** The first of these other than `id`. */
  function FirstOther(ids: seq<string>, id: string): seq<string>
  {
    if ids == [] then [] else if ids[0] != id then [ids[0]] else FirstOther(ids[1..], id)
  }

  /** The recent tabs once `id` is activated: it, and the tab that was active before it. */
  function RecentAfter(w: Workspace, id: string): seq<string>
  {
    if w.activeTab == "" then [id]
    else if w.activeTab != id then [id, w.activeTab]
    else [id] + FirstOther(w.recentTabs, id)
  }

  /** `z` is `v` with the tab activated in a workspace that was `w`. */
  predicate ActivatedIn(z: Workspace, v: Workspace, w: Workspace, id: string)
  {
    z == v.(activeTab := id, recentTabs := RecentAfter(w, id))
  }

  lemma {:induction false} TakeOther(tabs: seq<Tab>, next: nat, id: string, candidates: seq<string>)
    requires IdsOk(IdBag(tabs), next) && forall i :: 0 <= i < |candidates| ==> candidates[i] in IdBag(tabs)
    ensures TakeRecent(tabs, [id], candidates) == [id] + FirstOther(candidates, id)
    decreases |candidates|
  {
    if candidates != [] {
      var c := candidates[0];
      NumericTrimmed(c, TAB_PREFIX);
      FoundInBag(tabs, c);
      hide IdBag, IdsOk, TrimSpace, FindTab;
      if c == id {
        TakeOther(tabs, next, id, candidates[1..]);
      }
    }
  }

  /** Activating a live tab, after a step that kept the ids that there were. */
  lemma Activated(w: Workspace, v: Workspace, id: string)
    requires Inv(w) && Core(v) && v.activeTab == w.activeTab && v.recentTabs == w.recentTabs
    requires id in IdBag(v.tabs) && forall x :: x in IdBag(w.tabs) ==> x in IdBag(v.tabs)
    ensures ActivatedIn(SetActive(v, id), v, w, id)
  {
    hide Inv, Core, IdBag, IdsOk, TrimSpace, FindTab, TakeRecent, SetActive, RecentAfter;
    CoreIds(v);
    LiveTrimmed(v, id);
    FoundInBag(v.tabs, id);
    SetActiveLive(v, id);
    RecentTaken(w, v, id);
  }

  lemma SetActiveLive(v: Workspace, id: string)
    requires TrimSpace(id) == id != "" && FindTab(v.tabs, id).Some?
    ensures SetActive(v, id) == v.(activeTab := id, recentTabs := TakeRecent(v.tabs, [id], [v.activeTab] + v.recentTabs))
  {
    hide TrimSpace, FindTab, TakeRecent;
    assert [id, v.activeTab] + v.recentTabs == [id] + ([v.activeTab] + v.recentTabs);
    TakeStep(v.tabs, id, [v.activeTab] + v.recentTabs);
  }

  lemma RecentTaken(w: Workspace, v: Workspace, id: string)
    requires Inv(w) && IdsOk(IdBag(v.tabs), v.nextTabID)
    requires forall x :: x in IdBag(w.tabs) ==> x in IdBag(v.tabs)
    ensures TakeRecent(v.tabs, [id], [w.activeTab] + w.recentTabs) == RecentAfter(w, id)
  {
    hide Inv, IdBag, IdsOk, TrimSpace, FindTab, TakeRecent;
    var rest := [w.activeTab] + w.recentTabs;
    if w.activeTab != "" {
      ActiveLive(w);
      forall i | 0 <= i < |rest| ensures rest[i] in IdBag(v.tabs) {
        assert i > 0 ==> rest[i] == w.recentTabs[i - 1];
      }
      TakeOther(v.tabs, v.nextTabID, id, rest);
      Cons(w.activeTab, w.recentTabs);
    } else {
      NoRecents(w);
      NothingToTake(v.tabs, id);
      assert rest == [""];
    }
  }

  lemma CoreIds(v: Workspace)
    requires Core(v)
    ensures IdsOk(IdBag(v.tabs), v.nextTabID)
  {}

  lemma ActiveLive(w: Workspace)
    requires Inv(w) && w.activeTab != ""
    ensures w.activeTab in IdBag(w.tabs) && forall i :: 0 <= i < |w.recentTabs| ==> w.recentTabs[i] in IdBag(w.tabs)
  {}

  lemma TakeStep(tabs: seq<Tab>, id: string, rest: seq<string>)
    requires TrimSpace(id) == id != "" && FindTab(tabs, id).Some?
    ensures TakeRecent(tabs, [], [id] + rest) == TakeRecent(tabs, [id], rest)
  {
    Cons(id, rest);
    assert AppendRecent(tabs, [], id) == [id];
  }

  lemma NothingToTake(tabs: seq<Tab>, id: string)
    ensures TakeRecent(tabs, [id], [""]) == [id]
  {
    TrimNothing("");
    assert [""][1..] == [];
    assert AppendRecent(tabs, [id], "") == [id];
  }

  lemma NoRecents(w: Workspace)
    requires Inv(w) && w.activeTab == ""
    ensures w.tabs == [] && w.recentTabs == []
  {
    hide IdBag;
    if w.tabs != [] {
      LiveTrimmed(w, w.activeTab);
    } else if w.recentTabs != [] {
      assert w.recentTabs[0] in IdBag(w.tabs);
      BagNothing();
    }
  }

  lemma TabIn(w: Workspace, i: nat)
    requires Inv(w) && i < |w.tabs|
    ensures FindTab(w.tabs, w.tabs[i].id) == Some(i) && w.tabs[i].id in IdBag(w.tabs)
  {
    FoundTab(w, i);
    BagAt(w.tabs, i);
  }

  // ---- one tab changes -------------------------------------------------------------------------

  /** activate_pane: the pane is the tab's active one, and the tab is active. */
  lemma ActivatePaneExactly(w: Workspace, i: nat, p: string, env: Env)
    requires Inv(w) && i < |w.tabs|
    ensures var (z, outcome) := Apply(w, ActivatePane(w.tabs[i].id, p), env);
            if p !in w.tabs[i].paneIDs then (z, outcome) == (w, Failed(PaneNotFound))
            else outcome == Done && ActivatedIn(z, w.(tabs := w.tabs[i := w.tabs[i].(activePane := p)]), w, w.tabs[i].id)
  {
    hide Inv, SetActive, TabOk, Core, IdBag, FindTab;
    TabIn(w, i);
    if p in w.tabs[i].paneIDs {
      OneTabInv(w, i);
      var t := w.tabs[i].(activePane := p);
      var v := w.(tabs := w.tabs[i := t]);
      ActivePaneOk(w.tabs[i], p);
      ReplaceTabKeeps(w, i, t);
      BagReplace(w.tabs, i, t);
      InvIsActive(v);
      Activated(w, v, w.tabs[i].id);
    }
  }

  lemma ActivePaneOk(t: Tab, p: string)
    requires TabOk(t) && p in t.paneIDs
    ensures TabOk(t.(activePane := p))
  {}

  /** rename_tab: the trimmed title, marked as given by the user. */
  lemma RenameExactly(w: Workspace, i: nat, title: string, env: Env)
    requires Inv(w) && i < |w.tabs|
    ensures var (z, outcome) := Apply(w, RenameTab(w.tabs[i].id, title), env);
            if TrimSpace(title) == "" then (z, outcome) == (w, Failed(LabelRequired))
            else outcome == Done && z == w.(tabs := w.tabs[i := w.tabs[i].(title := TrimSpace(title), customLabel := true)])
  {
    hide Inv, TrimSpace, FindTab;
    TabIn(w, i);
  }

  /** update_layout: accepted exactly if the layout has the right shape, shows the tab's
      panes, and the pane to activate, if one is named, is among them. Then the layout is
      kept with its sizes put in bounds, and only a named pane is activated. */
  lemma UpdateLayoutExactly(w: Workspace, i: nat, layout: LayoutNode, active: string, env: Env)
    requires Inv(w) && i < |w.tabs|
    ensures var (z, outcome) := Apply(w, UpdateLayout(w.tabs[i].id, layout, active), env);
            var t := w.tabs[i];
            var fits := Shape(layout) && multiset(Leaves(layout)) == multiset(t.paneIDs);
            && (outcome == Done <==> fits && (active == "" || active in t.paneIDs))
            && (outcome == Failed(ActivePaneNotFound) <==> fits && active != "" && active !in t.paneIDs)
            && (outcome == Failed(LayoutRequired) <==> layout == Nil)
            && (outcome == Done ==>
                  exists kept :: KeptAs(layout, kept) && kept.size == layout.size
                                 && z == w.(tabs := w.tabs[i := t.(layout := kept, activePane := if active == "" then t.activePane else active)]))
  {
    hide Inv, FindTab, ValidateLayout, Shape, KeptAs, Leaves;
    TabIn(w, i);
    OneTabInv(w, i);
    var t := w.tabs[i];
    LayoutAccepted(layout, t.paneIDs);
    NilShape();
    var r := ValidateLayout(layout, t.paneIDs);
    if r.Good? {
      LayoutKept(layout, t.paneIDs);
      assert w.tabs[i := t.(layout := r.value)][i := t.(layout := r.value, activePane := active)]
          == w.tabs[i := t.(layout := r.value, activePane := active)];
      assert KeptAs(layout, r.value) && r.value.size == layout.size;
    }
  }

  lemma NilShape()
    ensures !Shape(Nil)
  {}

  // ---- a new tab -----------------------------------------------------------------------------------

  /** `z` is `w` with the new tab, of one pane, at this place and active. */
  predicate TabAdded(z: Workspace, w: Workspace, at: nat, title: string, pane: string)
  {
    && at <= |w.tabs|
    && var tab := Tab(TabName(w.nextTabID), title, false, pane, Leaf(pane, 0.0), [pane]);
    ActivatedIn(z, w.(tabs := w.tabs[..at] + [tab] + w.tabs[at..], nextTabID := w.nextTabID + 1), w, tab.id)
  }

  lemma AddTabExactly(w: Workspace, v: Workspace, source: string, title: string, pane: string)
    requires Inv(w) && Spare(v, pane) && v.activeTab == w.activeTab && v.recentTabs == w.recentTabs && IdBag(v.tabs) == IdBag(w.tabs)
    ensures AddTab(v, source, title, pane).nextTabID == v.nextTabID + 1
    ensures var z, at := AddTab(v, source, title, pane), InsertPosition(v, source);
            var tab := Tab(TabName(v.nextTabID), title, false, pane, Leaf(pane, 0.0), [pane]);
            ActivatedIn(z, v.(tabs := v.tabs[..at] + [tab] + v.tabs[at..], nextTabID := v.nextTabID + 1), w, tab.id)
  {
    hide Inv, Spare, SetActive, Core, IdBag, InsertPosition, TabName;
    var at := InsertPosition(v, source);
    var tab := Tab(TabName(v.nextTabID), title, false, pane, Leaf(pane, 0.0), [pane]);
    var added := v.(tabs := InsertAt(v.tabs, at, tab), nextTabID := v.nextTabID + 1);
    AddedCore(v, at, title, pane);
    BagInsert(v.tabs, at, tab);
    Activated(w, added, tab.id);
  }

  lemma AddedCore(v: Workspace, at: nat, title: string, pane: string)
    requires Spare(v, pane) && at <= |v.tabs|
    ensures var tab := Tab(TabName(v.nextTabID), title, false, pane, Leaf(pane, 0.0), [pane]);
            Core(v.(tabs := InsertAt(v.tabs, at, tab), nextTabID := v.nextTabID + 1))
  {
    var tab := Tab(TabName(v.nextTabID), title, false, pane, Leaf(pane, 0.0), [pane]);
    NewTabOk(pane, tab.id, title);
    BagInsert(v.tabs, at, tab);
    TabsOkInsert(v.tabs, at, tab);
    IdsOkNew(IdBag(v.tabs), v.nextTabID);
    hide PaneBag, IdBag, TabsOk, IdsOk, TabOk, InsertAt;
  }

  /** Where a new tab goes: behind its source, or else behind the active tab. */
  predicate GoesTo(w: Workspace, source: string, at: nat)
  {
    if TrimSpace(source) in IdBag(w.tabs) then 0 < at <= |w.tabs| && w.tabs[at - 1].id == TrimSpace(source)
    else if w.tabs != [] then 0 < at <= |w.tabs| && w.tabs[at - 1].id == w.activeTab
    else at == 0
  }

  lemma GoesExactly(w: Workspace, source: string)
    requires Inv(w)
    ensures GoesTo(w, source, InsertPosition(w, source))
  {
    hide TabsOk, PanesOk, TrimSpace, RecentOk, NumericID;
    FoundInBag(w.tabs, TrimSpace(source));
    FoundInBag(w.tabs, w.activeTab);
    if TrimSpace(source) in IdBag(w.tabs) {
      LiveTrimmed(w, TrimSpace(source));
    }
    hide FindTab, IdBag, IdsOk;
  }

  /** create_tab: a new pane in a new tab, called after its directory or numbered. */
  lemma CreateTabExactly(w: Workspace, source: string, p: string, env: Env)
    requires Inv(w)
    ensures var (z, outcome) := Apply(w, CreateTab(source, p), env);
            var id := PaneName(w.nextPaneID);
            if !env.starts then (z, outcome) == (w.(nextPaneID := w.nextPaneID + 1), Failed(StartFailed))
            else
              && outcome == Done && id !in w.panes
              && z.panes == w.panes[id := PaneInfo(false, false, env.startCWD)] && z.nextPaneID == w.nextPaneID + 1
              && var title := if env.pathLabel == "" then "Shell " + Decimal(w.nextTabID) else env.pathLabel;
              exists at :: GoesTo(w, source, at) && TabAdded(z.(panes := w.panes, nextPaneID := w.nextPaneID), w, at, title, id)
  {
    hide Inv, Spare, AddTab, Core, IdBag, PaneName, TabName, GoesTo, Decimal, InsertPosition;
    InvIsActive(w);
    NewPaneSpare(w, env);
    if env.starts {
      var id, title := PaneName(w.nextPaneID), if env.pathLabel == "" then "Shell " + Decimal(w.nextTabID) else env.pathLabel;
      var v := NewPane(w, env).0;
      AddTabExactly(w, v, source, title, id);
      GoesExactly(w, source);
      SamePosition(w, v, source);
      var at := InsertPosition(w, source);
      var z := Apply(w, CreateTab(source, p), env).0;
      assert GoesTo(w, source, at) && TabAdded(z.(panes := w.panes, nextPaneID := w.nextPaneID), w, at, title, id);
    }
  }

  lemma SamePosition(w: Workspace, v: Workspace, source: string)
    requires v.tabs == w.tabs && v.activeTab == w.activeTab
    ensures InsertPosition(v, source) == InsertPosition(w, source)
  {}

  /** The tab after one of its panes has left it: the others keep their order, in its list
      and in its layout, and if the pane was active its neighbour becomes active. */
  ghost predicate PaneLeft(before: Tab, after: Tab, p: string)
  {
    && after == before.(paneIDs := after.paneIDs, layout := after.layout, activePane := after.activePane)
    && after.paneIDs == Without(before.paneIDs, p)
    && Leaves(after.layout) == Without(Leaves(before.layout), p)
    && (if before.activePane == p then Neighbours(Leaves(before.layout), p, after.activePane)
        else after.activePane == before.activePane)
    && SameArrangement(before.layout, after.layout)
  }

  /** Any two panes that are left lie to each other as they did. */
  ghost predicate SameArrangement(n: LayoutNode, m: LayoutNode)
  {
    forall p, q :: p in Leaves(m) && q in Leaves(m) && p != q ==> Parting(m, p, q) == Parting(n, p, q)
  }

  lemma LeavesArrangement(n: LayoutNode, x: string)
    requires WellFormed(n)
    ensures SameArrangement(n, RemoveNode(n, x))
  {
    hide WellFormed, Leaves, RemoveNode, Parting;
    RemoveSpec(n, x);
    WithoutContents(Leaves(n), x);
    forall p, q | p in Leaves(RemoveNode(n, x)) && q in Leaves(RemoveNode(n, x)) && p != q
      ensures Parting(RemoveNode(n, x), p, q) == Parting(n, p, q)
    {
      OtherLeaf(Leaves(n), x, p);
      OtherLeaf(Leaves(n), x, q);
      RemoveKeepsParting(n, x, p, q);
    }
  }

  lemma {:induction false} OtherLeaf(s: seq<string>, x: string, p: string)
    requires p in Without(s, x)
    ensures p in s && p != x
  {
    if s != [] && p in Without(s[1..], x) {
      OtherLeaf(s[1..], x, p);
    }
  }

  lemma PaneLeaves(w: Workspace, i: nat, p: string)
    requires Inv(w) && i < |w.tabs| && p in w.tabs[i].paneIDs && |w.tabs[i].paneIDs| > 1
    ensures PaneLeft(w.tabs[i], TabWithout(w.tabs[i], p), p)
  {
    hide Inv, TabOk, NoDup;
    OneTabInv(w, i);
    NumberedNames(w, i);
    WithoutActive(w.tabs[i], p);
    LayoutFormed(w.tabs[i]);
    LeavesArrangement(w.tabs[i].layout, p);
    hide Leaves, Without, RemoveNode, Adjacent, SameArrangement, WellFormed;
  }

  lemma LayoutFormed(t: Tab)
    requires TabOk(t)
    ensures WellFormed(t.layout)
  {}

  /** move_pane_to_tab: the pane leaves its tab for a new one right behind it, called after
      it and the number of tabs. */
  lemma MovePaneExactly(w: Workspace, i: nat, p: string, env: Env)
    requires Inv(w) && i < |w.tabs|
    ensures var (z, outcome) := Apply(w, MovePaneToTab(w.tabs[i].id, p), env);
            var t := w.tabs[i];
            if |t.paneIDs| <= 1 then (z, outcome) == (w, Failed(LastPane))
            else if p !in t.paneIDs then (z, outcome) == (w, Failed(PaneNotFound))
            else
              outcome == Done && exists left :: PaneLeft(t, left, p) && PaneMoved(z, w, i, left, p)
  {
    hide Inv, Spare, AddTab, TabWithout, Core, CoreBut, IdBag, PaneBag, FindTab, PaneLeft, InsertPosition;
    TabIn(w, i);
    var t := w.tabs[i];
    if |t.paneIDs| > 1 && p in t.paneIDs {
      PaneLeaves(w, i, p);
      InvCoreBut(w, i);
      InvActiveIn(w, i);
      WithoutPane(w, i, p);
      OneTabInv(w, i);
      MoreThanOne(t, p);
      var left := TabWithout(t, p);
      var v := w.(tabs := w.tabs[i := left]);
      var title := t.title + " " + Decimal(|w.tabs| + 1);
      LeftId(t, left, p);
      BagReplace(w.tabs, i, left);
      CoreButIds(w, i);
      AddTabExactly(w, v, t.id, title, p);
      BehindIt(v, i);
      assert PaneLeft(t, left, p) && PaneMoved(Apply(w, MovePaneToTab(t.id, p), env).0, w, i, left, p);
    }
  }

  lemma LeftId(before: Tab, after: Tab, p: string)
    requires PaneLeft(before, after, p)
    ensures after.id == before.id
  {}

  lemma BehindIt(v: Workspace, i: nat)
    requires i < |v.tabs| && IdsOk(IdBag(v.tabs), v.nextTabID)
    ensures InsertPosition(v, v.tabs[i].id) == i + 1
  {
    hide TabsOk, PanesOk, TrimSpace, NumericID;
    FoundTab(v, i);
    BagAt(v.tabs, i);
    LiveTrimmed(v, v.tabs[i].id);
    hide FindTab, IdBag, IdsOk;
  }

  predicate PaneMoved(z: Workspace, w: Workspace, i: nat, left: Tab, p: string)
    requires i < |w.tabs|
  {
    TabAdded(z, w.(tabs := w.tabs[i := left]), i + 1, w.tabs[i].title + " " + Decimal(|w.tabs| + 1), p)
  }

  // ---- panes ---------------------------------------------------------------------------------------

  /** split_pane: a new pane beside the given one, active, in half of its place. */
  lemma SplitExactly(w: Workspace, i: nat, p: string, direction: Direction, env: Env)
    requires Inv(w) && i < |w.tabs|
    ensures var (z, outcome) := Apply(w, SplitPane(w.tabs[i].id, p, direction), env);
            if p !in w.tabs[i].paneIDs then (z, outcome) == (w, Failed(PaneNotFound))
            else if direction != Vertical && direction != Horizontal then (z, outcome) == (w, Failed(BadSplitDirection))
            else if !env.starts then (z, outcome) == (w.(nextPaneID := w.nextPaneID + 1), Failed(StartFailed))
            else
              && outcome == Done && PaneName(w.nextPaneID) !in w.panes
              && exists path: seq<nat> :: ShowsAt(w.tabs[i].layout, path, p) && PaneSplit(z, w, i, path, direction, PaneName(w.nextPaneID), env)
  {
    hide Inv, Spare, SetActive, TabOk, Core, TabsOk, FindTab, IdBag, TabSplit, ShowsAt, PaneSplit, PaneName, ActivatedIn;
    TabIn(w, i);
    InvIsActive(w);
    NewPaneSpare(w, env);
    if p in w.tabs[i].paneIDs && IsDirection(direction) && env.starts {
      var newID := PaneName(w.nextPaneID);
      OneTabInv(w, i);
      TabSplitOk(w.tabs[i], p, direction, newID);
      var path := SplitReplaces(w.tabs[i].layout, p, direction, newID);
      var v := NewPane(w, env).0;
      var t := TabSplit(w.tabs[i], p, direction, newID);
      TakeSpare(v, i, t, newID);
      BagReplace(v.tabs, i, t);
      Activated(w, v.(tabs := v.tabs[i := t]), w.tabs[i].id);
      SplitDone(w, i, path, p, direction, newID, env);
    }
  }

  /** `z` is `w` after the split of the leaf at this place of tab `i`. */
  predicate PaneSplit(z: Workspace, w: Workspace, i: nat, path: seq<nat>, direction: Direction, newID: string, env: Env)
    requires i < |w.tabs| && IsPath(w.tabs[i].layout, path) && At(w.tabs[i].layout, path).Node?
  {
    var t := w.tabs[i];
    var after := t.(layout := Put(t.layout, path, Halves(At(t.layout, path), direction, newID)),
                    paneIDs := t.paneIDs + [newID], activePane := newID);
    ActivatedIn(z, w.(tabs := w.tabs[i := after], panes := w.panes[newID := PaneInfo(false, false, env.startCWD)],
                      nextPaneID := w.nextPaneID + 1), w, t.id)
  }

  lemma SplitDone(w: Workspace, i: nat, path: seq<nat>, p: string, direction: Direction, newID: string, env: Env)
    requires i < |w.tabs| && env.starts && newID == PaneName(w.nextPaneID) && ShowsAt(w.tabs[i].layout, path, p)
    requires SplitNode(w.tabs[i].layout, p, direction, newID)
          == (Put(w.tabs[i].layout, path, Halves(At(w.tabs[i].layout, path), direction, newID)), true)
    requires var v := NewPane(w, env).0.(tabs := w.tabs[i := TabSplit(w.tabs[i], p, direction, newID)]);
             ActivatedIn(SetActive(v, w.tabs[i].id), v, w, w.tabs[i].id)
    ensures var v := NewPane(w, env).0.(tabs := w.tabs[i := TabSplit(w.tabs[i], p, direction, newID)]);
            PaneSplit(SetActive(v, w.tabs[i].id), w, i, path, direction, newID, env)
  {
    hide SetActive, SplitNode, Put, RecentAfter;
  }

  /** restart_pane: a new pane with a fresh id in the old one's place, if that has exited;
      it is active if the old one was. */
  lemma RestartExactly(w: Workspace, i: nat, p: string, env: Env)
    requires Inv(w) && i < |w.tabs|
    ensures var (z, outcome) := Apply(w, RestartPane(w.tabs[i].id, p), env);
            if p !in w.tabs[i].paneIDs then (z, outcome) == (w, Failed(RestartGone))
            else
              && p in w.panes
              && if !w.panes[p].exited then (z, outcome) == (w, Failed(NotExited))
                 else if !env.starts then (z, outcome) == (w.(nextPaneID := w.nextPaneID + 1), Failed(StartFailed))
                 else
                   && outcome == Done && PaneName(w.nextPaneID) !in w.panes
                   && exists layout :: Relabelled(w.tabs[i].layout, layout, p, PaneName(w.nextPaneID))
                                       && PaneRestarted(z, w, i, p, layout, PaneName(w.nextPaneID), env)
  {
    hide Inv, Spare, SetActive, TabOk, Core, TabsOk, FindTab, IdBag, PaneName, ActivatedIn, NoDup, Relabelled, ReplaceNode;
    TabIn(w, i);
    InvIsActive(w);
    NewPaneSpare(w, env);
    OneTabInv(w, i);
    if p in w.tabs[i].paneIDs && w.panes[p].exited && env.starts {
      var newID := PaneName(w.nextPaneID);
      var v := NewPane(w, env).0;
      var t := TabReplaced(w.tabs[i], p, newID);
      TabReplacedOk(w.tabs[i], p, newID);
      ReplaceRelabels(w.tabs[i].layout, p, newID);
      ReplacedCore(v, i, p, newID);
      BagReplace(v.tabs, i, t);
      Activated(w, v.(tabs := v.tabs[i := t], panes := v.panes - {p}), w.tabs[i].id);
      var z := Apply(w, RestartPane(w.tabs[i].id, p), env).0;
      assert Relabelled(w.tabs[i].layout, t.layout, p, newID);
      assert v.panes - {p} == w.panes[newID := PaneInfo(false, false, env.startCWD)] - {p};
      assert PaneRestarted(z, w, i, p, t.layout, newID, env);
    }
  }

  predicate PaneRestarted(z: Workspace, w: Workspace, i: nat, p: string, layout: LayoutNode, newID: string, env: Env)
    requires i < |w.tabs|
  {
    var t := w.tabs[i];
    var after := t.(layout := layout, activePane := if t.activePane == p then newID else t.activePane,
                    paneIDs := Renamed(t.paneIDs, p, newID));
    ActivatedIn(z, w.(tabs := w.tabs[i := after], nextPaneID := w.nextPaneID + 1,
                      panes := w.panes[newID := PaneInfo(false, false, env.startCWD)] - {p}), w, t.id)
  }

  /** close_pane: the pane leaves its tab; the tab's last pane takes the tab with it. */
  lemma ClosePaneExactly(w: Workspace, i: nat, p: string, env: Env)
    requires Inv(w) && i < |w.tabs|
    ensures var (z, outcome) := Apply(w, ClosePane(w.tabs[i].id, p), env);
            if p !in w.tabs[i].paneIDs then (z, outcome) == (w, Failed(PaneNotFound))
            else if |w.tabs[i].paneIDs| == 1 then (z, outcome) == Apply(w, CloseTab(w.tabs[i].id), env)
            else
              && outcome == Done
              && exists left :: PaneLeft(w.tabs[i], left, p) && z == w.(tabs := w.tabs[i := left], panes := w.panes - {p})
  {
    hide Inv, ClosePaneAt, FindTab, PaneLeft, CloseTabOf, TabWithout;
    TabIn(w, i);
    if p !in w.tabs[i].paneIDs {
      MissingPane(w, i, p);
    } else if |w.tabs[i].paneIDs| == 1 {
      LastPaneCloses(w, i, p);
    } else {
      ClosedPane(w, i, p);
      PaneLeaves(w, i, p);
    }
  }

  /** Closing a tab's last pane closes the tab. */
  lemma LastPaneCloses(w: Workspace, i: nat, p: string)
    requires Inv(w) && i < |w.tabs| && p in w.tabs[i].paneIDs && |w.tabs[i].paneIDs| == 1
    ensures ClosePaneAt(w, i, p) == CloseTabOf(w, w.tabs[i].id)
  {
    hide Inv, TabOk, NoDup, FindTab, SetActive, Prune;
    TabIn(w, i);
    OneTabInv(w, i);
    NoneLeft(w.tabs[i], p);
    var t := TabWithout(w.tabs[i], p);
    var v := w.(panes := w.panes - {p}, tabs := w.tabs[i := t]);
    SameFound(w.tabs, i, t);
    assert RemoveAt(v.tabs, i) == RemoveAt(w.tabs, i);
    assert (set q | q in t.paneIDs) == {} && (set q | q in w.tabs[i].paneIDs) == {p};
    assert w.panes - {p} - {} == w.panes - {p};
  }

  lemma NoneLeft(t: Tab, p: string)
    requires TabOk(t) && NoDup(t.paneIDs) && p in t.paneIDs && |t.paneIDs| == 1
    ensures TabWithout(t, p).paneIDs == [] && TabWithout(t, p).id == t.id && t.paneIDs == [p]
  {
    hide TabOk, NoDup, Leaves, RemoveNode, Adjacent, FirstExisting;
    OnlyOneWithout(t.paneIDs, p);
  }

  lemma OnlyOneWithout(s: seq<string>, p: string)
    requires p in s && |s| == 1
    ensures s == [p] && Without(s, p) == []
  {
    assert s[1..] == [];
  }

  lemma SameFound(tabs: seq<Tab>, i: nat, t: Tab)
    requires i < |tabs| && t.id == tabs[i].id && FindTab(tabs, t.id) == Some(i)
    ensures FindTab(tabs[i := t], t.id) == Some(i)
  {
    var r := FindTab(tabs[i := t], t.id);
    assert tabs[i := t][i].id == t.id;
    assert forall k :: 0 <= k < i ==> tabs[i := t][k] == tabs[k];
  }

  // ---- tabs ------------------------------------------------------------------------------------------

  /** The first of these, trimmed, that is a tab other than `id`. */
  function FirstLiveOther(tabs: seq<Tab>, ids: seq<string>, id: string): seq<string>
  {
    if ids == [] then []
    else if TrimSpace(ids[0]) in IdBag(tabs) && TrimSpace(ids[0]) != id then [TrimSpace(ids[0])]
    else FirstLiveOther(tabs, ids[1..], id)
  }

  lemma {:induction false} TakeGiven(tabs: seq<Tab>, next: nat, id: string, ids: seq<string>)
    requires IdsOk(IdBag(tabs), next)
    ensures TakeRecent(tabs, [id], ids) == [id] + FirstLiveOther(tabs, ids, id)
    decreases |ids|
  {
    if ids != [] {
      var c := TrimSpace(ids[0]);
      FoundInBag(tabs, c);
      if c in IdBag(tabs) {
        NumericTrimmed(c, TAB_PREFIX);
      }
      hide IdBag, IdsOk, TrimSpace, FindTab;
      if !(c in IdBag(tabs) && c != id) {
        TakeGiven(tabs, next, id, ids[1..]);
      }
    }
  }

  /** activate_tab: the tab is active; the recent tabs are it and the one active before, or
      the first live one of those given. */
  lemma ActivateTabExactly(w: Workspace, i: nat, recent: Option<seq<string>>, env: Env)
    requires Inv(w) && i < |w.tabs|
    ensures var (z, outcome) := Apply(w, ActivateTab(w.tabs[i].id, recent), env);
            var id := w.tabs[i].id;
            && outcome == Done
            && (recent.None? ==> ActivatedIn(z, w, w, id))
            && (recent.Some? ==> z == w.(activeTab := id, recentTabs := [id] + FirstLiveOther(w.tabs, recent.value, id)))
  {
    hide Inv, SetActive, Core, IdBag, FindTab, IdsOk, TakeRecent, FirstLiveOther, TrimSpace, ActivatedIn;
    TabIn(w, i);
    InvIsActive(w);
    CoreIds(w);
    if recent.None? {
      Activated(w, w, w.tabs[i].id);
    } else {
      LiveTrimmed(w, w.tabs[i].id);
      TakeStep(w.tabs, w.tabs[i].id, recent.value);
      TakeGiven(w.tabs, w.nextTabID, w.tabs[i].id, recent.value);
    }
  }

  /** The recent tabs behind one that is activated, without the closed one. */
  lemma {:induction false} TakeRest(tabs: seq<Tab>, next: nat, id: string, candidates: seq<string>, closed: string)
    requires IdsOk(IdBag(tabs), next) && closed !in IdBag(tabs) && TrimSpace(closed) == closed
    requires forall i :: 0 <= i < |candidates| ==> candidates[i] == closed || candidates[i] in IdBag(tabs)
    ensures TakeRecent(tabs, [id], candidates) == [id] + FirstOther(Without(candidates, closed), id)
    decreases |candidates|
  {
    if candidates != [] {
      var c, rest := candidates[0], candidates[1..];
      CandidateTaken(tabs, next, [id], c, closed);
      hide IdBag, IdsOk, TrimSpace, FindTab, AppendRecent;
      if c == closed || c == id {
        TakeRest(tabs, next, id, rest, closed);
      }
      Cons(c, Without(rest, closed));
      Empty(Without(rest, closed));
    }
  }

  lemma CandidateTaken(tabs: seq<Tab>, next: nat, items: seq<string>, c: string, closed: string)
    requires IdsOk(IdBag(tabs), next) && closed !in IdBag(tabs) && TrimSpace(closed) == closed
    requires c == closed || c in IdBag(tabs)
    ensures AppendRecent(tabs, items, c) == if c == closed || c in items then items else items + [c]
  {
    FoundInBag(tabs, c);
    if c != closed {
      NumericTrimmed(c, TAB_PREFIX);
    }
    hide IdBag, IdsOk, TrimSpace, FindTab;
  }

  /** And when none is activated. */
  lemma {:induction false} PruneRest(tabs: seq<Tab>, next: nat, candidates: seq<string>, closed: string)
    requires IdsOk(IdBag(tabs), next) && closed !in IdBag(tabs) && TrimSpace(closed) == closed
    requires forall i :: 0 <= i < |candidates| ==> candidates[i] == closed || candidates[i] in IdBag(tabs)
    requires |candidates| <= 2 && (|candidates| == 2 ==> candidates[0] != candidates[1])
    ensures TakeRecent(tabs, [], candidates) == Without(candidates, closed)
    decreases |candidates|
  {
    if candidates != [] {
      var c, rest := candidates[0], candidates[1..];
      CandidateTaken(tabs, next, [], c, closed);
      hide IdBag, IdsOk, TrimSpace, FindTab, AppendRecent;
      Empty(Without(rest, closed));
      Empty([c]);
      if c == closed {
        PruneRest(tabs, next, rest, closed);
      } else {
        TakeRest(tabs, next, c, rest, closed);
        AtMostOneOther(rest, closed, c);
      }
    }
  }

  lemma AtMostOneOther(rest: seq<string>, closed: string, c: string)
    requires |rest| <= 1 && (rest != [] ==> rest[0] != c)
    ensures FirstOther(Without(rest, closed), c) == Without(rest, closed)
  {
    if rest != [] {
      assert rest[1..] == [];
    }
  }

  /** The recent tabs after a tab is closed. */
  function RecentClosed(w: Workspace, closed: string, active: string): seq<string>
  {
    var rest := Without(w.recentTabs, closed);
    if w.activeTab != closed || active == "" then rest else [active] + FirstOther(rest, active)
  }

  /** close_tab: the tab and its panes are gone; if it was active, the tab that moves into its
      place becomes active, or the last one; and it is no longer among the recent ones. */
  lemma CloseTabExactly(w: Workspace, i: nat, env: Env)
    requires Inv(w) && i < |w.tabs|
    ensures var (z, outcome) := Apply(w, CloseTab(w.tabs[i].id), env);
            var id, rest := w.tabs[i].id, w.tabs[..i] + w.tabs[i + 1..];
            var active := if w.activeTab != id then w.activeTab
                          else if rest == [] then "" else rest[if i < |rest| then i else |rest| - 1].id;
            && outcome == Done
            && z == w.(tabs := rest, activeTab := active, recentTabs := RecentClosed(w, id, active),
                       panes := map q | q in w.panes && q !in w.tabs[i].paneIDs :: w.panes[q])
  {
    hide Inv, SetActive, Prune, FindTab, IdBag, Core, CoreBut, RecentClosed;
    TabIn(w, i);
    var id, rest := w.tabs[i].id, w.tabs[..i] + w.tabs[i + 1..];
    InvCoreBut(w, i);
    ClosedCore(w, i);
    var v := w.(panes := w.panes - (set p | p in w.tabs[i].paneIDs), tabs := rest);
    assert v.panes == map q | q in w.panes && q !in w.tabs[i].paneIDs :: w.panes[q];
    CloseTabEffect(w, i);
    ClosedLives(w, i);
    if w.activeTab == id && rest != [] {
      ClosedActivates(w, v, id, rest[Min(i, |rest| - 1)].id);
    } else if w.activeTab == id {
      ClosedEmpty(w, v, id);
    } else {
      ClosedPrunes(w, v, id);
    }
  }

  /** The closed tab is live no more, the others are. */
  lemma ClosedLives(w: Workspace, i: nat)
    requires Inv(w) && i < |w.tabs|
    ensures var id, rest := w.tabs[i].id, w.tabs[..i] + w.tabs[i + 1..];
            && id !in IdBag(rest) && TrimSpace(id) == id != ""
            && (forall x :: x in IdBag(w.tabs) ==> x == id || x in IdBag(rest))
            && (rest != [] ==> rest[Min(i, |rest| - 1)].id in IdBag(rest))
  {
    hide TabsOk, PanesOk, NumericID, TrimSpace;
    var id, rest := w.tabs[i].id, RemoveAt(w.tabs, i);
    BagAt(w.tabs, i);
    LiveTrimmed(w, id);
    assert IdBag(w.tabs)[id] == 1;
    if rest != [] {
      BagAt(rest, Min(i, |rest| - 1));
    }
    hide IdBag;
  }

  lemma ClosedActivates(w: Workspace, v: Workspace, id: string, next: string)
    requires Inv(w) && Core(v) && v.activeTab == w.activeTab == id && v.recentTabs == w.recentTabs
    requires id !in IdBag(v.tabs) && TrimSpace(id) == id && next in IdBag(v.tabs)
    requires forall x :: x in IdBag(w.tabs) ==> x == id || x in IdBag(v.tabs)
    ensures SetActive(v, next) == v.(activeTab := next, recentTabs := RecentClosed(w, id, next))
  {
    hide Inv, Core, IdBag, IdsOk, TrimSpace, FindTab, TakeRecent, SetActive, TabsOk;
    RecentsKnown(w);
    CoreIds(v);
    LiveTrimmed(v, next);
    FoundInBag(v.tabs, next);
    SetActiveLive(v, next);
    var candidates := [id] + w.recentTabs;
    forall k | 0 <= k < |candidates| ensures candidates[k] == id || candidates[k] in IdBag(v.tabs) {
      assert k > 0 ==> candidates[k] == w.recentTabs[k - 1];
    }
    TakeRest(v.tabs, v.nextTabID, next, candidates, id);
    Cons(id, w.recentTabs);
    Empty(Without(w.recentTabs, id));
  }

  lemma RecentsKnown(w: Workspace)
    requires Inv(w)
    ensures forall i :: 0 <= i < |w.recentTabs| ==> w.recentTabs[i] in IdBag(w.tabs)
    ensures |w.recentTabs| <= 2 && (|w.recentTabs| == 2 ==> w.recentTabs[0] != w.recentTabs[1])
  {}

  lemma ClosedPrunes(w: Workspace, v: Workspace, id: string)
    requires Inv(w) && Core(v) && v.recentTabs == w.recentTabs && w.activeTab != id
    requires id !in IdBag(v.tabs) && TrimSpace(id) == id
    requires forall x :: x in IdBag(w.tabs) ==> x == id || x in IdBag(v.tabs)
    ensures Prune(v) == v.(recentTabs := RecentClosed(w, id, w.activeTab))
  {
    RecentsKnown(w);
    CoreIds(v);
    hide Inv, Core, IdBag, IdsOk, TrimSpace, FindTab, TakeRecent, TabsOk;
    PruneRest(v.tabs, v.nextTabID, w.recentTabs, id);
  }

  lemma ClosedEmpty(w: Workspace, v: Workspace, id: string)
    requires Inv(w) && Core(v) && v.tabs == [] && v.recentTabs == w.recentTabs && v.activeTab == w.activeTab == id
    requires id !in IdBag(v.tabs) && TrimSpace(id) == id
    requires forall x :: x in IdBag(w.tabs) ==> x == id || x in IdBag(v.tabs)
    ensures SetActive(v, "") == v.(activeTab := "", recentTabs := RecentClosed(w, id, ""))
  {
    RecentsKnown(w);
    CoreIds(v);
    TrimNothing("");
    hide Inv, Core, IdBag, IdsOk, TrimSpace, FindTab, TakeRecent, TabsOk;
    PruneRest(v.tabs, v.nextTabID, w.recentTabs, id);
  }

  /** move_tab: where the tab goes; it becomes active if it moves. */
  lemma MoveTabExactly(w: Workspace, i: nat, position: Position, env: Env)
    requires Inv(w) && i < |w.tabs|
    ensures var (z, outcome) := Apply(w, MoveTab(w.tabs[i].id, position), env);
            var n := |w.tabs|;
            if n == 1 then (z, outcome) == (w, Done)
            else if position.OtherPosition? then (z, outcome) == (w, Failed(InvalidPosition))
            else
              var to := if position == First then 0 else if position == Last then n - 1
                        else if position == Left then (if i == 0 then 0 else i - 1)
                        else if i == n - 1 then i else i + 1;
              && outcome == Done && |z.tabs| == n && z.tabs[to] == w.tabs[i]
              && Others(z.tabs, w.tabs[i].id) == Others(w.tabs, w.tabs[i].id)
              && (if to == i then z == w else ActivatedIn(z, w.(tabs := z.tabs), w, w.tabs[i].id))
  {
    hide Inv, SetActive, Core, IdBag, FindTab, ActivatedIn, Others;
    TabIn(w, i);
    InvIsActive(w);
    if |w.tabs| > 1 && !position.OtherPosition? {
      var target := TargetIndex(i, |w.tabs|, position).value;
      if target != i {
        var moved := InsertAt(RemoveAt(w.tabs, i), target, w.tabs[i]);
        MovedKeeps(w, i, target);
        OthersMoved(w.tabs, i, target);
        Activated(w, w.(tabs := moved), w.tabs[i].id);
        SetActiveTabs(w.(tabs := moved), w.tabs[i].id);
      }
    }
  }

  /** reorder_tab: the tab goes right before the given one, or to the end. */
  lemma ReorderExactly(w: Workspace, i: nat, id: string, beforeID: string, env: Env)
    requires Inv(w) && i < |w.tabs| && TrimSpace(id) == w.tabs[i].id
    ensures var (z, outcome) := Apply(w, ReorderTab(id, beforeID), env);
            var before := TrimSpace(beforeID);
            && (outcome == Failed(BeforeItself) <==> before == w.tabs[i].id)
            && (outcome == Failed(BeforeNotFound) <==> before != "" && before !in IdBag(w.tabs))
            && (outcome == Done <==> before == "" || (before in IdBag(w.tabs) && before != w.tabs[i].id))
            && (outcome.Failed? ==> z == w)
            && (outcome == Done ==>
                  && |z.tabs| == |w.tabs| && z == w.(tabs := z.tabs) && Others(z.tabs, w.tabs[i].id) == Others(w.tabs, w.tabs[i].id)
                  && (before == "" ==> z.tabs[|w.tabs| - 1] == w.tabs[i])
                  && (before != "" ==> exists k :: 0 <= k < |w.tabs| - 1 && z.tabs[k] == w.tabs[i] && z.tabs[k + 1].id == before))
  {
    hide Inv, IdBag, FindTab, Others, TrimSpace, InsertAt, RemoveAt;
    TabIn(w, i);
    LiveIds(w, i);
    FoundInBag(w.tabs, TrimSpace(beforeID));
    if ReorderTabOf(w, id, beforeID).1 == Done {
      ReorderEffect(w, id, beforeID);
    }
  }

  /** close_other_tabs: only that tab is left, with its panes, active and the only recent one. */
  lemma CloseOtherTabsExactly(w: Workspace, i: nat, env: Env)
    requires Inv(w) && i < |w.tabs|
    ensures var (z, outcome) := Apply(w, CloseOtherTabs(w.tabs[i].id), env);
            && outcome == Done && z.tabs == [w.tabs[i]] && z.activeTab == w.tabs[i].id
            && (forall q :: q in z.panes <==> q in w.tabs[i].paneIDs)
            && z.nextPaneID == w.nextPaneID
  {
    hide Inv, FindTab, CloseOthers, SetActive, IdBag;
    TabIn(w, i);
    CloseOtherTabsKeeps(w, w.tabs[i].id);
    var z := CloseOtherTabsOf(w, w.tabs[i].id).0;
    OnlyPanes(z, w.tabs[i]);
    CloseOthersShrinks(w, w.tabs[i].id, |w.tabs|);
    SetActivePanes(CloseOthers(w, w.tabs[i].id, |w.tabs|), w.tabs[i].id);
  }

  lemma OnlyPanes(z: Workspace, t: Tab)
    requires Inv(z) && z.tabs == [t]
    ensures forall q :: q in z.panes <==> q in t.paneIDs
  {
    BagOne(t);
    forall q ensures q in z.panes <==> q in t.paneIDs {
      assert q in z.panes.Keys <==> q in multiset(z.panes.Keys);
      assert q in t.paneIDs <==> q in multiset(t.paneIDs);
    }
  }

  /** The tab an action names. */
  function Named(action: Action): string
  {
    match action
    case CreateTab(tabID, _) => tabID
    case RenameTab(tabID, _) => tabID
    case CloseTab(tabID) => tabID
    case CloseOtherTabs(tabID) => tabID
    case SplitPane(tabID, _, _) => tabID
    case ClosePane(tabID, _) => tabID
    case RestartPane(tabID, _) => tabID
    case MovePaneToTab(tabID, _) => tabID
    case MoveTab(tabID, _) => tabID
    case ReorderTab(tabID, _) => TrimSpace(tabID)
    case ActivateTab(tabID, _) => tabID
    case ActivatePane(tabID, _) => tabID
    case UpdateLayout(tabID, _, _) => tabID
    case OtherAction(name) => name
  }

  /** An action on a tab that does not exist fails and changes nothing; so does one that is
      not known. */
  lemma UnknownTabExactly(w: Workspace, action: Action, env: Env)
    requires !action.CreateTab? && Named(action) !in IdBag(w.tabs)
    ensures Apply(w, action, env) ==
              (w, Failed(if action.OtherAction? then UnknownAction else if action.RestartPane? then RestartGone else TabNotFound))
  {
    FoundInBag(w.tabs, Named(action));
    hide IdBag, TrimSpace, FindTab;
  }
}
