/** The tabs and panes of a workspace and what each action does to them
    (core/workspace.go, core/workspace_actions.go, core/workspace_restart.go). */
module Workspace {
  import opened Bytes
  import opened Names
  import opened Layout
  import opened LayoutCheck

  datatype PaneInfo = PaneInfo(exited: bool, retained: bool, cwd: string)

  datatype Tab = Tab(id: string, title: string, customLabel: bool, activePane: string, layout: LayoutNode, paneIDs: seq<string>)

  datatype Workspace = Workspace(
    tabs: seq<Tab>, activeTab: string, recentTabs: seq<string>, panes: map<string, PaneInfo>,
    nextTabID: nat, nextPaneID: nat)

  datatype ActionError =
    | TabNotFound | PaneNotFound | LabelRequired | BadSplitDirection | LastPane | InvalidPosition
    | BeforeItself | BeforeNotFound | RestartGone | NotExited | StartFailed | LayoutRequired
    | LayoutRefused(reason: LayoutError) | ActivePaneNotFound | UnknownAction

  datatype Outcome = Done | Failed(error: ActionError)

  datatype Position = First | Left | Right | Last | OtherPosition(name: string)

  datatype Action =
    | CreateTab(tabID: string, paneID: string)
    | RenameTab(tabID: string, title: string)
    | CloseTab(tabID: string)
    | CloseOtherTabs(tabID: string)
    | SplitPane(tabID: string, paneID: string, direction: Direction)
    | ClosePane(tabID: string, paneID: string)
    | RestartPane(tabID: string, paneID: string)
    | MovePaneToTab(tabID: string, paneID: string)
    | MoveTab(tabID: string, position: Position)
    | ReorderTab(tabID: string, beforeTabID: string)
    | ActivateTab(tabID: string, recentTabIDs: Option<seq<string>>)
    | ActivatePane(tabID: string, paneID: string)
    | UpdateLayout(tabID: string, layout: LayoutNode, activePaneID: string)
    | OtherAction(name: string)

  /** What the outside contributes: whether a new pane's process starts, the
      directory it starts in, and the title shown for a directory. */
  datatype Env = Env(starts: bool, startCWD: string, pathLabel: string)

  // ---- looking things up ----------------------------------------------------------------

  function FindTab(tabs: seq<Tab>, id: string): (r: Option<nat>)
    ensures r.Some? ==> r.value < |tabs| && tabs[r.value].id == id
    ensures r.Some? ==> forall i :: 0 <= i < r.value ==> tabs[i].id != id
    ensures r.None? ==> forall i :: 0 <= i < |tabs| ==> tabs[i].id != id
  {
    if tabs == [] then None
    else if tabs[0].id == id then Some(0)
    else
      match FindTab(tabs[1..], id)
      case None => None
      case Some(i) => Some(i + 1)
  }

  function FindPaneTab(tabs: seq<Tab>, paneID: string): (r: Option<nat>)
    ensures r.Some? ==> r.value < |tabs| && paneID in tabs[r.value].paneIDs
    ensures r.Some? ==> forall i :: 0 <= i < r.value ==> paneID !in tabs[i].paneIDs
    ensures r.None? ==> forall i :: 0 <= i < |tabs| ==> paneID !in tabs[i].paneIDs
  {
    if tabs == [] then None
    else if paneID in tabs[0].paneIDs then Some(0)
    else
      match FindPaneTab(tabs[1..], paneID)
      case None => None
      case Some(i) => Some(i + 1)
  }

  function RemoveAt(tabs: seq<Tab>, i: nat): seq<Tab>
    requires i < |tabs|
  {
    tabs[..i] + tabs[i + 1..]
  }

  function InsertAt(tabs: seq<Tab>, i: nat, tab: Tab): seq<Tab>
    requires i <= |tabs|
  {
    tabs[..i] + [tab] + tabs[i..]
  }

  // ---- recent tabs and the active tab ---------------------------------------------------

  function AppendRecent(tabs: seq<Tab>, items: seq<string>, id: string): seq<string>
  {
    var t := TrimSpace(id);
    if t == "" || FindTab(tabs, t).None? || t in items then items else items + [t]
  }

  /** Adds candidates in order until there are two. */
  function TakeRecent(tabs: seq<Tab>, items: seq<string>, candidates: seq<string>): seq<string>
    decreases |candidates|
  {
    if candidates == [] then items
    else
      var next := AppendRecent(tabs, items, candidates[0]);
      if |next| >= 2 then next else TakeRecent(tabs, next, candidates[1..])
  }

  function Prune(w: Workspace): Workspace
  {
    w.(recentTabs := TakeRecent(w.tabs, [], w.recentTabs))
  }

  function SetRecent(w: Workspace, ids: seq<string>): Workspace
  {
    w.(recentTabs := TakeRecent(w.tabs, [], ids))
  }

  function SetActive(w: Workspace, id: string): Workspace
  {
    var t := TrimSpace(id);
    if t == "" then Prune(w.(activeTab := ""))
    else if FindTab(w.tabs, t).None? then Prune(w)
    else SetRecent(w, [t, w.activeTab] + w.recentTabs).(activeTab := t)
  }

  // ---- new panes and tabs ---------------------------------------------------------------

  /** The counter advances even if the pane's process does not start. */
  function NewPane(w: Workspace, env: Env): (Workspace, Option<string>)
  {
    var id := PaneName(w.nextPaneID);
    var v := w.(nextPaneID := w.nextPaneID + 1);
    if env.starts then (v.(panes := v.panes[id := PaneInfo(false, false, env.startCWD)]), Some(id)) else (v, None)
  }

  function InsertPosition(w: Workspace, source: string): (i: nat)
    ensures i <= |w.tabs|
  {
    var s := TrimSpace(source);
    if s != "" && FindTab(w.tabs, s).Some? then FindTab(w.tabs, s).value + 1
    else if FindTab(w.tabs, w.activeTab).Some? then FindTab(w.tabs, w.activeTab).value + 1
    else |w.tabs|
  }

  /** A new tab with one pane, behind its source, becomes active. */
  function AddTab(w: Workspace, source: string, title: string, paneID: string): Workspace
  {
    var tab := Tab(TabName(w.nextTabID), title, false, paneID, Leaf(paneID, 0.0), [paneID]);
    SetActive(w.(tabs := InsertAt(w.tabs, InsertPosition(w, source), tab), nextTabID := w.nextTabID + 1), tab.id)
  }

  function CreateTabOf(w: Workspace, source: string, env: Env): (Workspace, Outcome)
  {
    var (v, pane) := NewPane(w, env);
    match pane
    case None => (v, Failed(StartFailed))
    case Some(id) => (AddTab(v, source, if env.pathLabel == "" then "Shell " + Decimal(v.nextTabID) else env.pathLabel, id), Done)
  }

  function RenameTabOf(w: Workspace, id: string, title: string): (Workspace, Outcome)
  {
    match FindTab(w.tabs, id)
    case None => (w, Failed(TabNotFound))
    case Some(i) =>
      if TrimSpace(title) == "" then (w, Failed(LabelRequired))
      else (w.(tabs := w.tabs[i := w.tabs[i].(title := TrimSpace(title), customLabel := true)]), Done)
  }

  // ---- closing --------------------------------------------------------------------------

  function CloseAt(w: Workspace, i: nat): Workspace
    requires i < |w.tabs|
  {
    var tab := w.tabs[i];
    var v := w.(panes := w.panes - (set p | p in tab.paneIDs), tabs := RemoveAt(w.tabs, i));
    if w.activeTab == tab.id then SetActive(v, if |v.tabs| > 0 then v.tabs[Min(i, |v.tabs| - 1)].id else "") else Prune(v)
  }

  function CloseTabOf(w: Workspace, id: string): (Workspace, Outcome)
  {
    match FindTab(w.tabs, id)
    case None => (w, Failed(TabNotFound))
    case Some(i) => (CloseAt(w, i), Done)
  }

  /** Closes, from the last to the first, the first `n` tabs other than `id`. */
  function CloseOthers(w: Workspace, id: string, n: nat): Workspace
    decreases n
  {
    if n == 0 then w
    else if n <= |w.tabs| && w.tabs[n - 1].id != id then CloseOthers(CloseTabOf(w, w.tabs[n - 1].id).0, id, n - 1)
    else CloseOthers(w, id, n - 1)
  }

  function CloseOtherTabsOf(w: Workspace, id: string): (Workspace, Outcome)
  {
    if FindTab(w.tabs, id).None? then (w, Failed(TabNotFound))
    else (SetActive(CloseOthers(w, id, |w.tabs|), id), Done)
  }

  function FirstExisting(current: string, ids: seq<string>): string
  {
    if current in ids then current else if ids == [] then "" else ids[0]
  }

  /** The tab without a pane; the neighbour of an active pane becomes active. */
  function TabWithout(tab: Tab, paneID: string): Tab
  {
    var layout := RemoveNode(tab.layout, paneID);
    var next := if tab.activePane == paneID then Adjacent(tab.layout, paneID).0 else tab.activePane;
    var ids := Leaves(layout);
    var active := FirstExisting(next, ids);
    tab.(paneIDs := Without(tab.paneIDs, paneID), layout := layout, activePane := if active == "" && ids != [] then ids[0] else active)
  }

  function ClosePaneAt(w: Workspace, i: nat, paneID: string): (Workspace, Outcome)
    requires i < |w.tabs|
  {
    if paneID !in w.tabs[i].paneIDs then (w, Failed(PaneNotFound))
    else
      var tab := TabWithout(w.tabs[i], paneID);
      var v := w.(panes := w.panes - {paneID}, tabs := w.tabs[i := tab]);
      if tab.paneIDs == [] || tab.layout == Nil then CloseTabOf(v, tab.id) else (v, Done)
  }

  function ClosePaneOf(w: Workspace, id: string, paneID: string): (Workspace, Outcome)
  {
    match FindTab(w.tabs, id)
    case None => (w, Failed(TabNotFound))
    case Some(i) => ClosePaneAt(w, i, paneID)
  }

  // ---- splitting, restarting and moving panes -------------------------------------------

  function SplitPaneOf(w: Workspace, id: string, paneID: string, direction: Direction, env: Env): (Workspace, Outcome)
  {
    match FindTab(w.tabs, id)
    case None => (w, Failed(TabNotFound))
    case Some(i) =>
      if paneID !in w.tabs[i].paneIDs then (w, Failed(PaneNotFound))
      else if !IsDirection(direction) then (w, Failed(BadSplitDirection))
      else
        var (v, pane) := NewPane(w, env);
        match pane
        case None => (v, Failed(StartFailed))
        case Some(newID) => (SetActive(v.(tabs := v.tabs[i := TabSplit(v.tabs[i], paneID, direction, newID)]), v.tabs[i].id), Done)
  }

  function TabSplit(tab: Tab, paneID: string, direction: Direction, newID: string): Tab
  {
    var (split, ok) := SplitNode(tab.layout, paneID, direction, newID);
    tab.(layout := if ok then split else Node(SplitKind, direction, "", [Leaf(paneID, 50.0), Leaf(newID, 50.0)], 0.0),
         paneIDs := tab.paneIDs + [newID], activePane := newID)
  }

  function TabReplaced(tab: Tab, paneID: string, newID: string): Tab
  {
    tab.(paneIDs := Renamed(tab.paneIDs, paneID, newID), layout := ReplaceNode(tab.layout, paneID, newID),
         activePane := if tab.activePane == paneID then newID else tab.activePane)
  }

  function RestartPaneOf(w: Workspace, id: string, paneID: string, env: Env): (Workspace, Outcome)
  {
    match FindTab(w.tabs, id)
    case None => (w, Failed(RestartGone))
    case Some(i) =>
      if paneID !in w.panes || paneID !in w.tabs[i].paneIDs then (w, Failed(RestartGone))
      else if !w.panes[paneID].exited then (w, Failed(NotExited))
      else
        var (v, pane) := NewPane(w, env);
        match pane
        case None => (v, Failed(StartFailed))
        case Some(newID) =>
          (SetActive(v.(tabs := v.tabs[i := TabReplaced(v.tabs[i], paneID, newID)], panes := v.panes - {paneID}), v.tabs[i].id), Done)
  }

  function MovePaneToTabOf(w: Workspace, id: string, paneID: string): (Workspace, Outcome)
  {
    match FindTab(w.tabs, id)
    case None => (w, Failed(TabNotFound))
    case Some(i) =>
      if |w.tabs[i].paneIDs| <= 1 then (w, Failed(LastPane))
      else if paneID !in w.tabs[i].paneIDs then (w, Failed(PaneNotFound))
      else
        var title := w.tabs[i].title + " " + Decimal(|w.tabs| + 1);
        (AddTab(w.(tabs := w.tabs[i := TabWithout(w.tabs[i], paneID)]), w.tabs[i].id, title, paneID), Done)
  }

  // ---- ordering and activating ----------------------------------------------------------

  function TargetIndex(i: nat, n: nat, position: Position): Option<nat>
    requires i < n
  {
    match position
    case First => Some(0)
    case Left => Some(Max(0, i - 1))
    case Right => Some(Min(n - 1, i + 1))
    case Last => Some(n - 1)
    case OtherPosition(_) => None
  }

  function MoveTabOf(w: Workspace, id: string, position: Position): (Workspace, Outcome)
  {
    match FindTab(w.tabs, id)
    case None => (w, Failed(TabNotFound))
    case Some(i) =>
      if |w.tabs| <= 1 then (w, Done)
      else
        match TargetIndex(i, |w.tabs|, position)
        case None => (w, Failed(InvalidPosition))
        case Some(target) =>
          if target == i then (w, Done)
          else (SetActive(w.(tabs := InsertAt(RemoveAt(w.tabs, i), target, w.tabs[i])), w.tabs[i].id), Done)
  }

  function ReorderTabOf(w: Workspace, id: string, beforeID: string): (Workspace, Outcome)
  {
    match FindTab(w.tabs, TrimSpace(id))
    case None => (w, Failed(TabNotFound))
    case Some(i) =>
      var before := TrimSpace(beforeID);
      if before == w.tabs[i].id then (w, Failed(BeforeItself))
      else if before != "" && FindTab(w.tabs, before).None? then (w, Failed(BeforeNotFound))
      else
        var rest := RemoveAt(w.tabs, i);
        var target := if before == "" || FindTab(rest, before).None? then |rest| else FindTab(rest, before).value;
        (w.(tabs := InsertAt(rest, target, w.tabs[i])), Done)
  }

  function ActivateTabOf(w: Workspace, id: string, recent: Option<seq<string>>): (Workspace, Outcome)
  {
    match FindTab(w.tabs, id)
    case None => (w, Failed(TabNotFound))
    case Some(i) =>
      match recent
      case None => (SetActive(w, w.tabs[i].id), Done)
      case Some(ids) => (SetRecent(w, [w.tabs[i].id] + ids).(activeTab := w.tabs[i].id), Done)
  }

  function ActivatePaneOf(w: Workspace, id: string, paneID: string): (Workspace, Outcome)
  {
    match FindTab(w.tabs, id)
    case None => (w, Failed(TabNotFound))
    case Some(i) =>
      if paneID !in w.tabs[i].paneIDs then (w, Failed(PaneNotFound))
      else (SetActive(w.(tabs := w.tabs[i := w.tabs[i].(activePane := paneID)]), w.tabs[i].id), Done)
  }

  /** The layout is replaced before the active pane is checked. */
  function UpdateLayoutOf(w: Workspace, id: string, layout: LayoutNode, activePane: string): (Workspace, Outcome)
  {
    match FindTab(w.tabs, id)
    case None => (w, Failed(TabNotFound))
    case Some(i) =>
      if layout == Nil then (w, Failed(LayoutRequired))
      else
        match ValidateLayout(layout, w.tabs[i].paneIDs)
        case Bad(reason) => (w, Failed(LayoutRefused(reason)))
        case Good(normalized, _) =>
          var v := w.(tabs := w.tabs[i := w.tabs[i].(layout := normalized)]);
          if activePane == "" then (v, Done)
          else if activePane !in w.tabs[i].paneIDs then (v, Failed(ActivePaneNotFound))
          else (v.(tabs := v.tabs[i := v.tabs[i].(activePane := activePane)]), Done)
  }

  function Apply(w: Workspace, action: Action, env: Env): (Workspace, Outcome)
  {
    match action
    case CreateTab(tabID, _) => CreateTabOf(w, tabID, env)
    case RenameTab(tabID, title) => RenameTabOf(w, tabID, title)
    case CloseTab(tabID) => CloseTabOf(w, tabID)
    case CloseOtherTabs(tabID) => CloseOtherTabsOf(w, tabID)
    case SplitPane(tabID, paneID, direction) => SplitPaneOf(w, tabID, paneID, direction, env)
    case ClosePane(tabID, paneID) => ClosePaneOf(w, tabID, paneID)
    case RestartPane(tabID, paneID) => RestartPaneOf(w, tabID, paneID, env)
    case MovePaneToTab(tabID, paneID) => MovePaneToTabOf(w, tabID, paneID)
    case MoveTab(tabID, position) => MoveTabOf(w, tabID, position)
    case ReorderTab(tabID, beforeTabID) => ReorderTabOf(w, tabID, beforeTabID)
    case ActivateTab(tabID, recentTabIDs) => ActivateTabOf(w, tabID, recentTabIDs)
    case ActivatePane(tabID, paneID) => ActivatePaneOf(w, tabID, paneID)
    case UpdateLayout(tabID, layout, activePaneID) => UpdateLayoutOf(w, tabID, layout, activePaneID)
    case OtherAction(_) => (w, Failed(UnknownAction))
  }

  // ---- exits ----------------------------------------------------------------------------

  function ExitOf(w: Workspace, paneID: string): Workspace
  {
    if paneID in w.panes then w.(panes := w.panes[paneID := w.panes[paneID].(exited := true)]) else w
  }

  /** Whether an exited pane is kept, and the workspace that records it. */
  function RetainOf(w: Workspace, paneID: string, exitCode: int): (Workspace, bool)
  {
    match FindPaneTab(w.tabs, paneID)
    case None => (w, false)
    case Some(i) =>
      if exitCode != 0 && |w.tabs| == 1 && |w.tabs[i].paneIDs| == 1 then
        (if paneID in w.panes then w.(panes := w.panes[paneID := w.panes[paneID].(retained := true)]) else w, true)
      else (w, false)
  }

  function RemoveAfterExitOf(w: Workspace, paneID: string): Workspace
  {
    match FindPaneTab(w.tabs, paneID)
    case None => w
    case Some(i) => ClosePaneAt(w, i, paneID).0
  }

  function CloseAllOf(w: Workspace): Workspace
  {
    w.(panes := map[], tabs := [], activeTab := "", recentTabs := [])
  }

  const NEW_WORKSPACE := Workspace([], "", [], map[], 1, 1)
}
