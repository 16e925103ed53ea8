/** The workspace object (core/workspace.go, core/workspace_actions.go,
    core/workspace_restart.go): its methods carry out the actions in place. */
module TerminalWorkspace {
  import opened Bytes
  import opened Names
  import opened Layout
  import opened LayoutCheck
  import opened Workspace
  import opened WorkspaceInvariant
  import opened WorkspaceKeeps

  class TerminalWorkspace {
    var tabs: seq<Tab>
    var activeTab: string
    var recentTabs: seq<string>
    var panes: map<string, PaneInfo>
    var nextTabID: nat
    var nextPaneID: nat

    ghost function View(): Workspace
      reads this
    {
      Workspace(tabs, activeTab, recentTabs, panes, nextTabID, nextPaneID)
    }

    ghost predicate Valid()
      reads this
    {
      Inv(View())
    }

    constructor ()
      ensures Valid() && View() == NEW_WORKSPACE
    {
      tabs, activeTab, recentTabs, panes, nextTabID, nextPaneID := [], "", [], map[], 1, 1;
      new;
      NewWorkspaceOk();
    }

    method FindTabIndex(id: string) returns (found: Option<nat>)
      ensures found == FindTab(tabs, id)
    {
      for i := 0 to |tabs|
        invariant forall j :: 0 <= j < i ==> tabs[j].id != id
      {
        if tabs[i].id == id {
          return Some(i);
        }
      }
      return None;
    }

    method AppendRecentTab(items: seq<string>, id: string) returns (next: seq<string>)
      ensures next == AppendRecent(tabs, items, id)
    {
      var trimmed := TrimSpace(id);
      if trimmed == "" {
        return items;
      }
      var found := FindTabIndex(trimmed);
      if found.None? {
        return items;
      }
      for i := 0 to |items|
        invariant forall j :: 0 <= j < i ==> items[j] != trimmed
      {
        if items[i] == trimmed {
          return items;
        }
      }
      return items + [trimmed];
    }

    method SetRecentTabs(ids: seq<string>)
      modifies this`recentTabs
      ensures View() == SetRecent(old(View()), ids)
    {
      var next: seq<string> := [];
      ghost var want := TakeRecent(tabs, [], ids);
      var i := 0;
      assert ids[0..] == ids;
      while i < |ids|
        invariant 0 <= i <= |ids| && recentTabs == old(recentTabs)
        invariant TakeRecent(tabs, next, ids[i..]) == want
      {
        TakeRecentStep(tabs, next, ids, i);
        next := AppendRecentTab(next, ids[i]);
        if |next| >= 2 {
          recentTabs := next;
          return;
        }
        i := i + 1;
      }
      recentTabs := next;
    }

    method PruneRecentTabs()
      modifies this`recentTabs
      ensures View() == Prune(old(View()))
    {
      SetRecentTabs(recentTabs);
    }

    method SetActiveTab(id: string)
      modifies this`activeTab, this`recentTabs
      ensures View() == SetActive(old(View()), id)
    {
      hide TakeRecent, TrimSpace;
      var trimmed := TrimSpace(id);
      if trimmed == "" {
        activeTab := "";
        PruneRecentTabs();
        return;
      }
      var found := FindTabIndex(trimmed);
      if found.None? {
        PruneRecentTabs();
        return;
      }
      SetRecentTabs([trimmed, activeTab] + recentTabs);
      activeTab := trimmed;
    }

    method StartPane(env: Env) returns (id: Option<string>)
      modifies this`panes, this`nextPaneID
      ensures (View(), id) == NewPane(old(View()), env)
    {
      var name := PaneName(nextPaneID);
      nextPaneID := nextPaneID + 1;
      if !env.starts {
        return None;
      }
      panes := panes[name := PaneInfo(false, false, env.startCWD)];
      return Some(name);
    }

    method InsertTabAfterSource(tab: Tab, source: string)
      modifies this`tabs
      ensures View() == old(View()).(tabs := InsertAt(old(tabs), InsertPosition(old(View()), source), tab))
    {
      hide TrimSpace;
      var insertAt := |tabs|;
      var sourceFound := false;
      var trimmed := TrimSpace(source);
      if trimmed != "" {
        var index := FindTabIndex(trimmed);
        if index.Some? {
          insertAt := index.value + 1;
          sourceFound := true;
        }
      }
      if !sourceFound {
        var index := FindTabIndex(activeTab);
        if index.Some? {
          insertAt := index.value + 1;
        }
      }
      if insertAt >= |tabs| {
        assert insertAt == |tabs| && tabs[..insertAt] == tabs && tabs[insertAt..] == [];
        assert tabs + [tab] + [] == tabs + [tab];
        tabs := tabs + [tab];
        return;
      }
      tabs := tabs[..insertAt] + [tab] + tabs[insertAt..];
    }

    method InsertNewTab(source: string, title: string, paneID: string)
      modifies this`tabs, this`activeTab, this`recentTabs, this`nextTabID
      ensures View() == AddTab(old(View()), source, title, paneID)
    {
      hide InsertPosition, SetActive, TrimSpace;
      var tab := Tab(TabName(nextTabID), title, false, paneID, Leaf(paneID, 0.0), [paneID]);
      InsertTabAfterSource(tab, source);
      nextTabID := nextTabID + 1;
      SetActiveTab(tab.id);
    }

    method CreateTab(source: string, env: Env) returns (outcome: Outcome)
      modifies this
      ensures (View(), outcome) == CreateTabOf(old(View()), source, env)
    {
      hide AddTab;
      var pane := StartPane(env);
      if pane.None? {
        return Failed(StartFailed);
      }
      InsertNewTab(source, if env.pathLabel == "" then "Shell " + Decimal(nextTabID) else env.pathLabel, pane.value);
      return Done;
    }

    method RenameTab(id: string, title: string) returns (outcome: Outcome)
      modifies this`tabs
      ensures (View(), outcome) == RenameTabOf(old(View()), id, title)
    {
      hide TrimSpace, FindTab;
      var index := FindTabIndex(id);
      if index.None? {
        return Failed(TabNotFound);
      }
      var trimmed := TrimSpace(title);
      if trimmed == "" {
        return Failed(LabelRequired);
      }
      tabs := tabs[index.value := tabs[index.value].(title := trimmed, customLabel := true)];
      return Done;
    }

    method DropPanes(ids: seq<string>)
      modifies this`panes
      ensures panes == old(panes) - (set p | p in ids)
    {
      for i := 0 to |ids|
        invariant panes == old(panes) - (set p | p in ids[..i])
      {
        assert ids[..i + 1] == ids[..i] + [ids[i]];
        if ids[i] in panes {
          panes := panes - {ids[i]};
        }
      }
      assert ids[..|ids|] == ids;
    }

    method CloseTab(id: string) returns (outcome: Outcome)
      modifies this
      ensures (View(), outcome) == CloseTabOf(old(View()), id)
    {
      hide SetActive, Prune, FindTab;
      var index := FindTabIndex(id);
      if index.None? {
        return Failed(TabNotFound);
      }
      var i := index.value;
      DropPanes(tabs[i].paneIDs);
      tabs := tabs[..i] + tabs[i + 1..];
      if activeTab == id {
        var next := "";
        if |tabs| > 0 {
          next := tabs[Min(i, |tabs| - 1)].id;
        }
        SetActiveTab(next);
      } else {
        PruneRecentTabs();
      }
      return Done;
    }

    method CloseOtherTabs(id: string) returns (outcome: Outcome)
      requires Valid()
      modifies this
      ensures (View(), outcome) == CloseOtherTabsOf(old(View()), id)
    {
      hide Inv, SetActive, CloseTabOf, FindTab, CloseOthers;
      var found := FindTabIndex(id);
      if found.None? {
        return Failed(TabNotFound);
      }
      ghost var w := View();
      var i := |tabs|;
      while i > 0
        invariant 0 <= i <= |tabs| && Inv(View())
        invariant CloseOthers(View(), id, i) == CloseOthers(w, id, |w.tabs|)
        decreases i
      {
        i := i - 1;
        CloseOthersUnfold(View(), id, i + 1);
        if tabs[i].id != id {
          CloseOneKeeps(View(), i);
          var closed := CloseTab(tabs[i].id);
          if closed.Failed? {
            return closed;
          }
        }
      }
      CloseOthersUnfold(View(), id, 0);
      SetActiveTab(id);
      return Done;
    }

    method RemovePaneFromTab(i: nat, paneID: string)
      requires i < |tabs|
      modifies this`tabs
      ensures tabs == old(tabs)[i := TabWithout(old(tabs)[i], paneID)]
    {
      var tab := tabs[i];
      var next := tab.activePane;
      if tab.activePane == paneID {
        next := Adjacent(tab.layout, paneID).0;
      }
      var kept := RemovePane(tab.paneIDs, paneID);
      var layout := RemoveNode(tab.layout, paneID);
      var ids := Leaves(layout);
      var active := FirstExisting(next, ids);
      if active == "" && |ids| > 0 {
        active := ids[0];
      }
      tabs := tabs[i := tab.(paneIDs := kept, layout := layout, activePane := active)];
    }

    method ClosePaneInTab(i: nat, paneID: string) returns (outcome: Outcome)
      requires i < |tabs|
      modifies this
      ensures (View(), outcome) == ClosePaneAt(old(View()), i, paneID)
    {
      hide TabWithout, CloseTabOf;
      if paneID !in tabs[i].paneIDs {
        return Failed(PaneNotFound);
      }
      panes := panes - {paneID};
      RemovePaneFromTab(i, paneID);
      if |tabs[i].paneIDs| == 0 || tabs[i].layout == Nil {
        outcome := CloseTab(tabs[i].id);
        return;
      }
      return Done;
    }

    method ClosePane(id: string, paneID: string) returns (outcome: Outcome)
      modifies this
      ensures (View(), outcome) == ClosePaneOf(old(View()), id, paneID)
    {
      hide ClosePaneAt, FindTab;
      var index := FindTabIndex(id);
      if index.None? {
        return Failed(TabNotFound);
      }
      outcome := ClosePaneInTab(index.value, paneID);
    }

    method SplitPane(id: string, paneID: string, direction: Direction, env: Env) returns (outcome: Outcome)
      modifies this
      ensures (View(), outcome) == SplitPaneOf(old(View()), id, paneID, direction, env)
    {
      hide SetActive, FindTab, SplitNode, TrimSpace;
      var index := FindTabIndex(id);
      if index.None? {
        return Failed(TabNotFound);
      }
      var i := index.value;
      if paneID !in tabs[i].paneIDs {
        return Failed(PaneNotFound);
      }
      if !IsDirection(direction) {
        return Failed(BadSplitDirection);
      }
      var pane := StartPane(env);
      if pane.None? {
        return Failed(StartFailed);
      }
      var tab := tabs[i];
      var (layout, found) := SplitNode(tab.layout, paneID, direction, pane.value);
      if !found {
        layout := Node(SplitKind, direction, "", [Leaf(paneID, 50.0), Leaf(pane.value, 50.0)], 0.0);
      }
      tabs := tabs[i := tab.(layout := layout, paneIDs := tab.paneIDs + [pane.value], activePane := pane.value)];
      SetActiveTab(tab.id);
      return Done;
    }

    method RestartExitedPane(id: string, paneID: string, env: Env) returns (outcome: Outcome)
      modifies this
      ensures (View(), outcome) == RestartPaneOf(old(View()), id, paneID, env)
    {
      hide SetActive, FindTab, ReplaceNode, TrimSpace;
      var index := FindTabIndex(id);
      if index.None? || paneID !in panes || paneID !in tabs[index.value].paneIDs {
        return Failed(RestartGone);
      }
      var i := index.value;
      if !panes[paneID].exited {
        return Failed(NotExited);
      }
      var pane := StartPane(env);
      if pane.None? {
        return Failed(StartFailed);
      }
      var tab := tabs[i];
      var ids := tab.paneIDs;
      for k := 0 to |ids|
        invariant |ids| == |tab.paneIDs|
        invariant forall j :: 0 <= j < |ids| ==> ids[j] == (if j < k && tab.paneIDs[j] == paneID then pane.value else tab.paneIDs[j])
      {
        if ids[k] == paneID {
          ids := ids[k := pane.value];
        }
      }
      assert ids == Renamed(tab.paneIDs, paneID, pane.value);
      tabs := tabs[i := tab.(paneIDs := ids, layout := ReplaceNode(tab.layout, paneID, pane.value),
                             activePane := if tab.activePane == paneID then pane.value else tab.activePane)];
      panes := panes - {paneID};
      SetActiveTab(tab.id);
      return Done;
    }

    method MovePaneToTab(id: string, paneID: string) returns (outcome: Outcome)
      modifies this
      ensures (View(), outcome) == MovePaneToTabOf(old(View()), id, paneID)
    {
      hide AddTab, FindTab, TabWithout, Decimal;
      var index := FindTabIndex(id);
      if index.None? {
        return Failed(TabNotFound);
      }
      var i := index.value;
      if |tabs[i].paneIDs| <= 1 {
        return Failed(LastPane);
      }
      if paneID !in tabs[i].paneIDs {
        return Failed(PaneNotFound);
      }
      var source := tabs[i];
      RemovePaneFromTab(i, paneID);
      InsertNewTab(source.id, source.title + " " + Decimal(|tabs| + 1), paneID);
      return Done;
    }

    method MoveTab(id: string, position: Position) returns (outcome: Outcome)
      modifies this
      ensures (View(), outcome) == MoveTabOf(old(View()), id, position)
    {
      hide SetActive, FindTab;
      var index := FindTabIndex(id);
      if index.None? {
        return Failed(TabNotFound);
      }
      if |tabs| <= 1 {
        return Done;
      }
      var i: int := index.value;
      var target: int := i;
      match position {
        case First => target := 0;
        case Left => target := Max(0, i - 1);
        case Right => target := Min(|tabs| - 1, i + 1);
        case Last => target := |tabs| - 1;
        case OtherPosition(_) => return Failed(InvalidPosition);
      }
      if target == i {
        return Done;
      }
      var tab := tabs[i];
      tabs := tabs[..i] + tabs[i + 1..];
      tabs := tabs[..target] + [tab] + tabs[target..];
      SetActiveTab(tab.id);
      return Done;
    }

    method ReorderTab(id: string, beforeID: string) returns (outcome: Outcome)
      modifies this`tabs
      ensures (View(), outcome) == ReorderTabOf(old(View()), id, beforeID)
    {
      hide TrimSpace, FindTab;
      var index := FindTabIndex(TrimSpace(id));
      if index.None? {
        return Failed(TabNotFound);
      }
      var i := index.value;
      var tab := tabs[i];
      var before := TrimSpace(beforeID);
      if before == tab.id {
        return Failed(BeforeItself);
      }
      if before != "" {
        var found := FindTabIndex(before);
        if found.None? {
          return Failed(BeforeNotFound);
        }
      }
      tabs := tabs[..i] + tabs[i + 1..];
      if before == "" {
        assert tabs[..|tabs|] == tabs && tabs[|tabs|..] == [] && tabs + [tab] + [] == tabs + [tab];
        tabs := tabs + [tab];
        return Done;
      }
      var target := FindTabIndex(before);
      var at := if target.Some? then target.value else |tabs|;
      tabs := tabs[..at] + [tab] + tabs[at..];
      return Done;
    }

    method ActivateTab(id: string, recent: Option<seq<string>>) returns (outcome: Outcome)
      modifies this`activeTab, this`recentTabs
      ensures (View(), outcome) == ActivateTabOf(old(View()), id, recent)
    {
      hide SetActive, FindTab, TakeRecent;
      var index := FindTabIndex(id);
      if index.None? {
        return Failed(TabNotFound);
      }
      var tab := tabs[index.value];
      match recent {
        case Some(ids) =>
          SetRecentTabs([tab.id] + ids);
          activeTab := tab.id;
        case None =>
          SetActiveTab(tab.id);
      }
      return Done;
    }

    method ActivatePane(id: string, paneID: string) returns (outcome: Outcome)
      modifies this
      ensures (View(), outcome) == ActivatePaneOf(old(View()), id, paneID)
    {
      hide SetActive, FindTab;
      var index := FindTabIndex(id);
      if index.None? {
        return Failed(TabNotFound);
      }
      var i := index.value;
      if paneID !in tabs[i].paneIDs {
        return Failed(PaneNotFound);
      }
      tabs := tabs[i := tabs[i].(activePane := paneID)];
      SetActiveTab(tabs[i].id);
      return Done;
    }

    method UpdateLayout(id: string, layout: LayoutNode, activePane: string) returns (outcome: Outcome)
      modifies this`tabs
      ensures (View(), outcome) == UpdateLayoutOf(old(View()), id, layout, activePane)
    {
      hide FindTab, ValidateLayout;
      var index := FindTabIndex(id);
      if index.None? {
        return Failed(TabNotFound);
      }
      if layout == Nil {
        return Failed(LayoutRequired);
      }
      var i := index.value;
      match ValidateLayout(layout, tabs[i].paneIDs) {
        case Bad(reason) =>
          return Failed(LayoutRefused(reason));
        case Good(normalized, _) =>
          tabs := tabs[i := tabs[i].(layout := normalized)];
      }
      if activePane != "" {
        if activePane !in tabs[i].paneIDs {
          return Failed(ActivePaneNotFound);
        }
        tabs := tabs[i := tabs[i].(activePane := activePane)];
      }
      return Done;
    }

    method ApplyAction(action: Action, env: Env) returns (outcome: Outcome)
      requires Valid()
      modifies this
      ensures Valid() && (View(), outcome) == Apply(old(View()), action, env)
    {
      hide Inv, CreateTabOf, RenameTabOf, CloseTabOf, CloseOtherTabsOf, SplitPaneOf, ClosePaneOf, RestartPaneOf, MovePaneToTabOf,
           MoveTabOf, ReorderTabOf, ActivateTabOf, ActivatePaneOf, UpdateLayoutOf;
      ApplyKeeps(View(), action, env);
      match action {
        case CreateTab(tabID, _) => outcome := CreateTab(tabID, env);
        case RenameTab(tabID, title) => outcome := RenameTab(tabID, title);
        case CloseTab(tabID) => outcome := CloseTab(tabID);
        case CloseOtherTabs(tabID) => outcome := CloseOtherTabs(tabID);
        case SplitPane(tabID, paneID, direction) => outcome := SplitPane(tabID, paneID, direction, env);
        case ClosePane(tabID, paneID) => outcome := ClosePane(tabID, paneID);
        case RestartPane(tabID, paneID) => outcome := RestartExitedPane(tabID, paneID, env);
        case MovePaneToTab(tabID, paneID) => outcome := MovePaneToTab(tabID, paneID);
        case MoveTab(tabID, position) => outcome := MoveTab(tabID, position);
        case ReorderTab(tabID, beforeTabID) => outcome := ReorderTab(tabID, beforeTabID);
        case ActivateTab(tabID, recentTabIDs) => outcome := ActivateTab(tabID, recentTabIDs);
        case ActivatePane(tabID, paneID) => outcome := ActivatePane(tabID, paneID);
        case UpdateLayout(tabID, layout, activePaneID) => outcome := UpdateLayout(tabID, layout, activePaneID);
        case OtherAction(_) => outcome := Failed(UnknownAction);
      }
    }

    method RetainFailedFinalPane(paneID: string, exitCode: int) returns (retained: bool)
      modifies this`panes
      ensures (View(), retained) == RetainOf(old(View()), paneID, exitCode)
    {
      for i := 0 to |tabs|
        invariant forall j :: 0 <= j < i ==> paneID !in tabs[j].paneIDs
        invariant View() == old(View())
      {
        if paneID in tabs[i].paneIDs {
          if exitCode != 0 && |tabs| == 1 && |tabs[i].paneIDs| == 1 {
            if paneID in panes {
              panes := panes[paneID := panes[paneID].(retained := true)];
            }
            return true;
          }
          return false;
        }
      }
      return false;
    }

    method RemovePaneAfterExit(paneID: string)
      requires Valid()
      modifies this
      ensures Valid() && View() == RemoveAfterExitOf(old(View()), paneID)
    {
      hide ClosePaneAt, Inv;
      StepKeeps(View(), RemoveAfterExit(paneID));
      for i := 0 to |tabs|
        invariant forall j :: 0 <= j < i ==> paneID !in tabs[j].paneIDs
        invariant View() == old(View())
      {
        if paneID in tabs[i].paneIDs {
          var outcome := ClosePaneInTab(i, paneID);
          return;
        }
      }
    }

    method CloseAllPanes()
      requires Valid()
      modifies this
      ensures Valid() && View() == CloseAllOf(old(View()))
    {
      CloseAllKeeps(View());
      panes, tabs, activeTab, recentTabs := map[], [], "", [];
    }
  }

  lemma TakeRecentStep(tabs: seq<Tab>, items: seq<string>, ids: seq<string>, i: nat)
    requires i < |ids|
    ensures var next := AppendRecent(tabs, items, ids[i]);
            TakeRecent(tabs, items, ids[i..]) == if |next| >= 2 then next else TakeRecent(tabs, next, ids[i + 1..])
  {
    assert ids[i..][1..] == ids[i + 1..];
  }

  lemma CloseOneKeeps(w: Workspace, i: nat)
    requires Inv(w) && i < |w.tabs|
    ensures var (z, outcome) := CloseTabOf(w, w.tabs[i].id);
            outcome == Done && Inv(z) && |z.tabs| == |w.tabs| - 1
  {
    hide Inv, CloseAt;
    InvCoreBut(w, i);
    CoreButIds(w, i);
    FoundTab(w, i);
    CloseAtKeeps(w, i);
  }

  /** The panes other than the given one, in order (terminalTab.removePane). */
  method RemovePane(ids: seq<string>, paneID: string) returns (next: seq<string>)
    ensures next == Without(ids, paneID)
  {
    next := [];
    for i := 0 to |ids|
      invariant next + Without(ids[i..], paneID) == Without(ids, paneID)
    {
      assert ids[i..][1..] == ids[i + 1..];
      if ids[i] != paneID {
        Assoc(next, [ids[i]], Without(ids[i + 1..], paneID));
        next := next + [ids[i]];
      }
    }
    assert ids[|ids|..] == [];
  }
}
