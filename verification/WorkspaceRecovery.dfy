/** Saving a workspace and rebuilding it (core/workspace_recovery.go). */
module WorkspaceRecovery {
  import opened Bytes
  import opened Names
  import opened RecoveryPath
  import opened Layout
  import opened LayoutCheck
  import opened Workspace
  import opened WorkspaceInvariant

  const RECOVERY_VERSION := 1
  const MAX_TABS: nat := 64
  const MAX_PANES: nat := 256
  const MAX_DEPTH: nat := 32
  const MAX_TITLE_BYTES: nat := 16 * 1024
  const MAX_TOKEN_BYTES: nat := 128

  datatype RecoveryPane = RecoveryPane(id: string, cwd: string)

  datatype RecoveryTab = RecoveryTab(
    id: string, title: string, customLabel: bool, activePane: string, layout: LayoutNode, panes: seq<RecoveryPane>)

  datatype Document = Document(
    version: int, epoch: string, generation: string, activeTab: string, recentTabs: seq<string>, tabs: seq<RecoveryTab>)

  // ---- saving ---------------------------------------------------------------------------

  function PaneDocuments(panes: map<string, PaneInfo>, ids: seq<string>): seq<RecoveryPane>
  {
    if ids == [] then []
    else
      (if ids[0] in panes then [RecoveryPane(TrimSpace(ids[0]), NormalizeCWD(panes[ids[0]].cwd))] else [])
      + PaneDocuments(panes, ids[1..])
  }

  function TabDocument(panes: map<string, PaneInfo>, t: Tab): RecoveryTab
  {
    RecoveryTab(TrimSpace(t.id), t.title, t.customLabel, TrimSpace(t.activePane), t.layout, PaneDocuments(panes, t.paneIDs))
  }

  function TabDocuments(panes: map<string, PaneInfo>, tabs: seq<Tab>): seq<RecoveryTab>
  {
    if tabs == [] then [] else [TabDocument(panes, tabs[0])] + TabDocuments(panes, tabs[1..])
  }

  /** The document of a workspace's state. */
  function DocumentOf(epoch: string, generation: string, w: Workspace): Document
  {
    Document(RECOVERY_VERSION, TrimSpace(epoch), TrimSpace(generation), TrimSpace(w.activeTab), Prune(w).recentTabs,
             TabDocuments(w.panes, w.tabs))
  }

  // ---- checking -------------------------------------------------------------------------

  datatype RecoveryError =
    | UnsupportedVersion | InvalidEpoch | InvalidGeneration | TooManyTabs | InvalidEmptyState
    | InvalidTabID | InvalidTab | InvalidPaneID | InvalidDirectory | InvalidActivePane | InvalidDepth
    | InvalidLayout(reason: LayoutError) | InvalidActiveTab | InvalidRecentTab

  datatype Check<T> = Wrong(error: RecoveryError) | Passed(value: T)

  function IdsOf(panes: seq<RecoveryPane>): seq<string>
  {
    if panes == [] then [] else [panes[0].id] + IdsOf(panes[1..])
  }

  predicate CwdAccepted(cwd: string)
  {
    cwd == "" || NormalizeCWD(cwd) == cwd
  }

  function CheckPanes(panes: seq<RecoveryPane>, seen: set<string>): Check<set<string>>
  {
    if panes == [] then Passed(seen)
    else if NumericID(panes[0].id, PANE_PREFIX).None? || panes[0].id in seen then Wrong(InvalidPaneID)
    else if !CwdAccepted(panes[0].cwd) then Wrong(InvalidDirectory)
    else CheckPanes(panes[1..], seen + {panes[0].id})
  }

  predicate DepthOk(n: LayoutNode, depth: nat)
  {
    n.Node? && depth <= MAX_DEPTH && AllDepthOk(n.children, depth + 1)
  }

  predicate AllDepthOk(cs: seq<LayoutNode>, depth: nat)
  {
    cs == [] || (DepthOk(cs[0], depth) && AllDepthOk(cs[1..], depth))
  }

  function CheckTab(t: RecoveryTab, tabIDs: set<string>, paneIDs: set<string>): Check<set<string>>
  {
    if NumericID(t.id, TAB_PREFIX).None? || t.id in tabIDs then Wrong(InvalidTabID)
    else if ByteLen(t.title) > MAX_TITLE_BYTES || t.panes == [] || |paneIDs| + |t.panes| > MAX_PANES then Wrong(InvalidTab)
    else
      match CheckPanes(t.panes, paneIDs)
      case Wrong(error) => Wrong(error)
      case Passed(seen) =>
        if t.activePane !in IdsOf(t.panes) then Wrong(InvalidActivePane)
        else if !DepthOk(t.layout, 0) then Wrong(InvalidDepth)
        else
          match ValidateLayout(t.layout, IdsOf(t.panes))
          case Bad(reason) => Wrong(InvalidLayout(reason))
          case Good(_, _) => Passed(seen)
  }

  function CheckTabs(tabs: seq<RecoveryTab>, tabIDs: set<string>, paneIDs: set<string>): Check<set<string>>
  {
    if tabs == [] then Passed(tabIDs)
    else
      match CheckTab(tabs[0], tabIDs, paneIDs)
      case Wrong(error) => Wrong(error)
      case Passed(seen) => CheckTabs(tabs[1..], tabIDs + {tabs[0].id}, seen)
  }

  predicate TokenOk(s: string)
  {
    TrimSpace(s) != "" && ByteLen(s) <= MAX_TOKEN_BYTES
  }

  /** What is wrong with a document, if anything. */
  function Validate(d: Document): Option<RecoveryError>
  {
    if d.version != RECOVERY_VERSION then Some(UnsupportedVersion)
    else if !TokenOk(d.epoch) then Some(InvalidEpoch)
    else if !TokenOk(d.generation) then Some(InvalidGeneration)
    else if |d.tabs| > MAX_TABS then Some(TooManyTabs)
    else if d.tabs == [] then (if d.activeTab != "" || d.recentTabs != [] then Some(InvalidEmptyState) else None)
    else
      match CheckTabs(d.tabs, {}, {})
      case Wrong(error) => Some(error)
      case Passed(ids) =>
        if d.activeTab !in ids then Some(InvalidActiveTab)
        else if exists i :: 0 <= i < |d.recentTabs| && d.recentTabs[i] !in ids then Some(InvalidRecentTab)
        else None
  }

  // ---- rebuilding -----------------------------------------------------------------------

  function Restored(t: RecoveryTab): Tab
  {
    Tab(t.id, t.title, t.customLabel, t.activePane, t.layout, IdsOf(t.panes))
  }

  function RestoredTabs(tabs: seq<RecoveryTab>): seq<Tab>
  {
    if tabs == [] then [] else [Restored(tabs[0])] + RestoredTabs(tabs[1..])
  }

  function Above(counter: nat, id: string, prefix: string): nat
  {
    match NumericID(id, prefix)
    case None => counter
    case Some(n) => if n >= counter then n + 1 else counter
  }

  function RestorePanes(w: Workspace, panes: seq<RecoveryPane>, home: string): Workspace
    decreases |panes|
  {
    if panes == [] then w
    else
      var p := panes[0];
      var cwd := if TrimSpace(p.cwd) == "" then home else TrimSpace(p.cwd);
      RestorePanes(w.(panes := w.panes[p.id := PaneInfo(false, false, cwd)], nextPaneID := Above(w.nextPaneID, p.id, PANE_PREFIX)),
                   panes[1..], home)
  }

  function RestoreTabs(w: Workspace, tabs: seq<RecoveryTab>, home: string): Workspace
    decreases |tabs|
  {
    if tabs == [] then w
    else
      var v := RestorePanes(w, tabs[0].panes, home);
      RestoreTabs(v.(tabs := v.tabs + [Restored(tabs[0])], nextTabID := Above(v.nextTabID, tabs[0].id, TAB_PREFIX)), tabs[1..], home)
  }

  datatype Rebuilt = Rebuilt(w: Workspace) | Invalid(error: RecoveryError) | PaneStartFailed

  /** `starts` says whether the processes of all panes start, `home` is where a
      pane without a directory starts. */
  function Rebuild(d: Document, starts: bool, home: string, env: Env): Rebuilt
  {
    match Validate(d)
    case Some(error) => Invalid(error)
    case None =>
      if d.tabs == [] then
        var (v, outcome) := CreateTabOf(NEW_WORKSPACE, "", env);
        if outcome == Done then Rebuilt(v) else PaneStartFailed
      else if !starts then PaneStartFailed
      else
        var v := RestoreTabs(NEW_WORKSPACE, d.tabs, home);
        Rebuilt(SetRecent(v.(activeTab := d.activeTab), d.recentTabs))
  }

  // ---- which documents are valid ----------------------------------------------------------

  ghost predicate Distinct(bag: multiset<string>)
  {
    forall x :: bag[x] <= 1
  }

  predicate PanesFit(panes: seq<RecoveryPane>)
  {
    forall i :: 0 <= i < |panes| ==> NumericID(panes[i].id, PANE_PREFIX).Some? && CwdAccepted(panes[i].cwd)
  }

  /** A tab that could stand in a workspace of its own. */
  ghost predicate TabFits(t: RecoveryTab)
  {
    && NumericID(t.id, TAB_PREFIX).Some? && ByteLen(t.title) <= MAX_TITLE_BYTES && t.panes != [] && PanesFit(t.panes)
    && t.activePane in IdsOf(t.panes) && DepthOk(t.layout, 0)
    && Shape(t.layout) && multiset(Leaves(t.layout)) == multiset(IdsOf(t.panes))
  }

  ghost predicate AllFit(tabs: seq<RecoveryTab>)
  {
    forall i :: 0 <= i < |tabs| ==> TabFits(tabs[i])
  }

  /** The tabs of a valid document: each fits, no id occurs twice, no more than 256 panes. */
  ghost predicate TabsFit(tabs: seq<RecoveryTab>)
  {
    var ts := RestoredTabs(tabs);
    AllFit(tabs) && Distinct(IdBag(ts)) && Distinct(PaneBag(ts)) && |PaneBag(ts)| <= MAX_PANES
  }

  ghost predicate DocumentOk(d: Document)
  {
    var ids := IdBag(RestoredTabs(d.tabs));
    && d.version == RECOVERY_VERSION && TokenOk(d.epoch) && TokenOk(d.generation) && |d.tabs| <= MAX_TABS
    && (d.tabs == [] ==> d.activeTab == "" && d.recentTabs == [])
    && (d.tabs != [] ==> TabsFit(d.tabs) && d.activeTab in ids && forall i :: 0 <= i < |d.recentTabs| ==> d.recentTabs[i] in ids)
  }

  lemma {:induction false} IdsLength(panes: seq<RecoveryPane>)
    ensures |IdsOf(panes)| == |panes|
    ensures forall i :: 0 <= i < |panes| ==> IdsOf(panes)[i] == panes[i].id
  {
    if panes != [] {
      IdsLength(panes[1..]);
    }
  }

  lemma {:induction false} CheckPanesSpec(panes: seq<RecoveryPane>, seen: set<string>)
    ensures var r := CheckPanes(panes, seen);
            && (r.Passed? <==> PanesFit(panes) && NoDup(IdsOf(panes)) && Members(IdsOf(panes)) !! seen)
            && (r.Passed? ==> r.value == seen + Members(IdsOf(panes)))
  {
    hide PanesFit, CwdAccepted, NumericID, CheckPanes, NoDup;
    if panes == [] {
      NoPanes(seen);
    } else {
      var p, rest := panes[0], panes[1..];
      CheckPanesSpec(rest, seen + {p.id});
      PanesFitCons(p, rest);
      assert [p] + rest == panes;
      CheckPanesUnfold(panes, seen);
      NoDupAppend([p.id], IdsOf(rest));
      OneId(p.id);
      assert Members([p.id] + IdsOf(rest)) == {p.id} + Members(IdsOf(rest));
      assert Members([p.id]) == {p.id};
    }
  }

  lemma NoPanes(seen: set<string>)
    ensures CheckPanes([], seen) == Passed(seen) && PanesFit([]) && NoDup([]) && Members([]) == {}
  {}

  lemma OneId(id: string)
    ensures NoDup([id])
  {}

  lemma PanesFitCons(p: RecoveryPane, rest: seq<RecoveryPane>)
    ensures PanesFit([p] + rest) <==> NumericID(p.id, PANE_PREFIX).Some? && CwdAccepted(p.cwd) && PanesFit(rest)
  {
    hide NumericID, CwdAccepted;
    var all := [p] + rest;
    assert all[0] == p;
    assert forall i :: 0 <= i < |rest| ==> all[i + 1] == rest[i];
    assert forall i :: 0 < i < |all| ==> all[i] == rest[i - 1];
  }

  predicate PaneFits(p: RecoveryPane, seen: set<string>)
  {
    NumericID(p.id, PANE_PREFIX).Some? && p.id !in seen && CwdAccepted(p.cwd)
  }

  lemma CheckPanesUnfold(panes: seq<RecoveryPane>, seen: set<string>)
    requires panes != []
    ensures CheckPanes(panes, seen).Passed? ==> PaneFits(panes[0], seen)
    ensures PaneFits(panes[0], seen) ==> CheckPanes(panes, seen) == CheckPanes(panes[1..], seen + {panes[0].id})
  {
    hide NumericID, CwdAccepted;
  }

  lemma CheckTabSpec(t: RecoveryTab, tabIDs: set<string>, paneIDs: set<string>)
    ensures var r := CheckTab(t, tabIDs, paneIDs);
            var ids := IdsOf(t.panes);
            && (r.Passed? <==> TabFits(t) && t.id !in tabIDs && NoDup(ids) && Members(ids) !! paneIDs && |paneIDs| + |ids| <= MAX_PANES)
            && (r.Passed? ==> r.value == paneIDs + Members(ids))
  {
    hide NumericID, ByteLen, DepthOk, ValidateLayout, CheckPanes, PanesFit, NoDup, IdsOf;
    CheckPanesSpec(t.panes, paneIDs);
    IdsLength(t.panes);
    if NoDup(IdsOf(t.panes)) {
      LayoutAccepted(t.layout, IdsOf(t.panes));
    }
  }

  lemma DistinctAdd(seen: set<string>, ids: seq<string>, rest: multiset<string>)
    ensures Distinct(multiset(seen) + (multiset(ids) + rest))
       <==> NoDup(ids) && Members(ids) !! seen && Distinct(multiset(seen + Members(ids)) + rest)
  {
    var all := multiset(seen) + (multiset(ids) + rest);
    forall x ensures all[x] == (if x in seen then 1 else 0) + multiset(ids)[x] + rest[x] {}
    if Distinct(all) {
      AtMostOnce(ids);
      forall x | x in ids ensures x !in seen {
        assert multiset(ids)[x] > 0;
      }
    }
    if NoDup(ids) && Members(ids) !! seen {
      forall x ensures all[x] == (multiset(seen + Members(ids)) + rest)[x] {
        CountOnce(ids, x);
      }
    }
  }

  lemma DistinctAddOne(seen: set<string>, id: string, rest: multiset<string>)
    ensures Distinct(multiset(seen) + (multiset{id} + rest)) <==> id !in seen && Distinct(multiset(seen + {id}) + rest)
  {
    DistinctAdd(seen, [id], rest);
    assert multiset([id]) == multiset{id} && Members([id]) == {id} && NoDup([id]);
  }

  /** Adding these ids to those already seen repeats none and stays in bounds. */
  ghost predicate Room(tabIDs: set<string>, moreTabs: multiset<string>, paneIDs: set<string>, morePanes: multiset<string>)
  {
    && Distinct(multiset(tabIDs) + moreTabs) && Distinct(multiset(paneIDs) + morePanes)
    && |paneIDs| + |morePanes| <= MAX_PANES
  }

  lemma {:induction false} CheckTabsSpec(tabs: seq<RecoveryTab>, tabIDs: set<string>, paneIDs: set<string>)
    requires |paneIDs| <= MAX_PANES
    ensures var r := CheckTabs(tabs, tabIDs, paneIDs);
            var ts := RestoredTabs(tabs);
            && (r.Passed? <==> AllFit(tabs) && Room(tabIDs, IdBag(ts), paneIDs, PaneBag(ts)))
            && (r.Passed? ==> forall id :: id in r.value <==> id in tabIDs || id in IdBag(ts))
  {
    hide TabFits, CheckTab, NoDup, Distinct, AllFit;
    if tabs == [] {
      NoTabsFit(tabIDs, paneIDs);
    } else {
      var t, rest := tabs[0], tabs[1..];
      var ids := IdsOf(t.panes);
      CheckTabSpec(t, tabIDs, paneIDs);
      AllFitCons(t, rest);
      assert tabs == [t] + rest;
      assert RestoredTabs(tabs)[1..] == RestoredTabs(rest);
      DistinctAddOne(tabIDs, t.id, IdBag(RestoredTabs(rest)));
      DistinctAdd(paneIDs, ids, PaneBag(RestoredTabs(rest)));
      BagSize(ids, PaneBag(RestoredTabs(rest)));
      if CheckTab(t, tabIDs, paneIDs).Passed? {
        DisjointSize(paneIDs, ids);
        CheckTabsSpec(rest, tabIDs + {t.id}, paneIDs + Members(ids));
      }
    }
  }

  lemma NoTabsFit(tabIDs: set<string>, paneIDs: set<string>)
    ensures AllFit([]) && Distinct(multiset(tabIDs) + multiset{}) && Distinct(multiset(paneIDs) + multiset{})
  {}

  lemma AllFitCons(t: RecoveryTab, rest: seq<RecoveryTab>)
    ensures AllFit([t] + rest) <==> TabFits(t) && AllFit(rest)
  {
    hide TabFits;
    var all := [t] + rest;
    assert all[0] == t;
    assert forall i :: 0 <= i < |rest| ==> all[i + 1] == rest[i];
    assert forall i :: 0 < i < |all| ==> all[i] == rest[i - 1];
  }

  lemma BagSize(ids: seq<string>, rest: multiset<string>)
    ensures |multiset(ids) + rest| == |ids| + |rest|
  {}

  lemma DisjointSize(a: set<string>, ids: seq<string>)
    requires NoDup(ids) && Members(ids) !! a
    ensures |a + Members(ids)| == |a| + |ids|
  {
    NoDupSize(ids);
  }

  /** The checks, in their order and with their running sets, accept exactly the
      documents whose every part fits. */
  lemma ValidateSpec(d: Document)
    ensures Validate(d).None? <==> DocumentOk(d)
  {
    hide AllFit, CheckTabs, TokenOk, IdBag, PaneBag;
    CheckTabsSpec(d.tabs, {}, {});
    var ts := RestoredTabs(d.tabs);
    EmptyPlus(IdBag(ts));
    EmptyPlus(PaneBag(ts));
  }

  // ---- the same in numbers ------------------------------------------------------------------

  /** How deep a layout is nested. */
  function Depth(n: LayoutNode): nat
    decreases n, 1
  {
    if n == Nil then 0 else DepthBelow(n.children)
  }

  function DepthBelow(cs: seq<LayoutNode>): nat
    decreases cs, 0
  {
    if cs == [] then 0 else Max(1 + Depth(cs[0]), DepthBelow(cs[1..]))
  }

  predicate Complete(n: LayoutNode)
    decreases n, 1
  {
    n != Nil && AllComplete(n.children)
  }

  predicate AllComplete(cs: seq<LayoutNode>)
    decreases cs, 0
  {
    cs == [] || (Complete(cs[0]) && AllComplete(cs[1..]))
  }

  lemma {:induction false} DepthExactly(n: LayoutNode, depth: nat)
    requires depth <= 32
    ensures DepthOk(n, depth) <==> Complete(n) && depth + Depth(n) <= 32
    decreases n, 1
  {
    if n.Node? {
      if depth < 32 {
        AllDepthExactly(n.children, depth + 1);
      } else {
        TooDeep(n.children);
      }
    }
  }

  lemma {:induction false} AllDepthExactly(cs: seq<LayoutNode>, depth: nat)
    requires 0 < depth <= 32
    ensures AllDepthOk(cs, depth) <==> AllComplete(cs) && depth - 1 + DepthBelow(cs) <= 32
    decreases cs, 0
  {
    if cs != [] {
      DepthExactly(cs[0], depth);
      AllDepthExactly(cs[1..], depth);
    }
  }

  lemma TooDeep(cs: seq<LayoutNode>)
    ensures AllDepthOk(cs, 33) <==> cs == []
    ensures cs == [] <==> DepthBelow(cs) == 0
  {}

  /** A tab of a valid document, with the limits as numbers. */
  ghost predicate FitsExactly(t: RecoveryTab)
  {
    && NumericID(t.id, "tab-").Some? && ByteLen(t.title) <= 16384 && t.panes != []
    && (forall i :: 0 <= i < |t.panes| ==>
          NumericID(t.panes[i].id, "pane-").Some? && (t.panes[i].cwd == "" || NormalizeCWD(t.panes[i].cwd) == t.panes[i].cwd))
    && (exists i :: 0 <= i < |t.panes| && t.panes[i].id == t.activePane)
    && Complete(t.layout) && Depth(t.layout) <= 32
    && Shape(t.layout) && multiset(Leaves(t.layout)) == multiset(IdsOf(t.panes))
  }

  lemma FitsAreExact(t: RecoveryTab)
    ensures TabFits(t) <==> FitsExactly(t)
  {
    hide NumericID, NormalizeCWD, Shape, Complete, Depth, Leaves, ByteLen, DepthOk;
    IdsLength(t.panes);
    DepthExactly(t.layout, 0);
  }

  /** Valid is a document of version 1 with its two tokens of at most 128 bytes, at most 64
      tabs and 256 panes, and live active and recent tabs. */
  lemma ValidExactly(d: Document)
    ensures Validate(d).None? <==>
              && d.version == 1 && |d.tabs| <= 64
              && TrimSpace(d.epoch) != "" && ByteLen(d.epoch) <= 128 && TrimSpace(d.generation) != "" && ByteLen(d.generation) <= 128
              && (if d.tabs == [] then d.activeTab == "" && d.recentTabs == []
                  else
                    && (forall i :: 0 <= i < |d.tabs| ==> FitsExactly(d.tabs[i]))
                    && Distinct(IdBag(RestoredTabs(d.tabs))) && Distinct(PaneBag(RestoredTabs(d.tabs)))
                    && |PaneBag(RestoredTabs(d.tabs))| <= 256
                    && d.activeTab in IdBag(RestoredTabs(d.tabs))
                    && forall i :: 0 <= i < |d.recentTabs| ==> d.recentTabs[i] in IdBag(RestoredTabs(d.tabs)))
  {
    hide TabFits, FitsExactly, TrimSpace, ByteLen, IdBag, PaneBag, Distinct, RestoredTabs, Validate;
    ValidateSpec(d);
    forall i | 0 <= i < |d.tabs| ensures TabFits(d.tabs[i]) <==> FitsExactly(d.tabs[i]) {
      FitsAreExact(d.tabs[i]);
    }
  }

  lemma EmptyPlus(bag: multiset<string>)
    ensures multiset(NO_IDS) + bag == bag
  {}

  const NO_IDS: set<string> := {}

  // ---- the loops ------------------------------------------------------------------------

  method CheckPanesLoop(panes: seq<RecoveryPane>, seen0: set<string>) returns (r: Check<set<string>>)
    ensures r == CheckPanes(panes, seen0)
  {
    var seen := seen0;
    for i := 0 to |panes|
      invariant CheckPanes(panes[i..], seen) == CheckPanes(panes, seen0)
    {
      assert panes[i..][1..] == panes[i + 1..];
      if NumericID(panes[i].id, PANE_PREFIX).None? || panes[i].id in seen {
        return Wrong(InvalidPaneID);
      }
      if panes[i].cwd != "" && NormalizeCWD(panes[i].cwd) != panes[i].cwd {
        return Wrong(InvalidDirectory);
      }
      seen := seen + {panes[i].id};
    }
    return Passed(seen);
  }

  method CheckTabLoop(t: RecoveryTab, tabIDs: set<string>, paneIDs: set<string>) returns (r: Check<set<string>>)
    ensures r == CheckTab(t, tabIDs, paneIDs)
  {
    hide CheckPanes, DepthOk, ValidateLayout, NumericID, ByteLen;
    if NumericID(t.id, TAB_PREFIX).None? || t.id in tabIDs {
      return Wrong(InvalidTabID);
    }
    if ByteLen(t.title) > MAX_TITLE_BYTES || |t.panes| == 0 || |paneIDs| + |t.panes| > MAX_PANES {
      return Wrong(InvalidTab);
    }
    var checked := CheckPanesLoop(t.panes, paneIDs);
    if checked.Wrong? {
      return checked;
    }
    if t.activePane !in IdsOf(t.panes) {
      return Wrong(InvalidActivePane);
    }
    if !DepthOk(t.layout, 0) {
      return Wrong(InvalidDepth);
    }
    match ValidateLayout(t.layout, IdsOf(t.panes)) {
      case Bad(reason) => return Wrong(InvalidLayout(reason));
      case Good(_, _) => return checked;
    }
  }

  method ValidateDocument(d: Document) returns (error: Option<RecoveryError>)
    ensures error == Validate(d)
  {
    hide CheckTab, TokenOk;
    if d.version != RECOVERY_VERSION {
      return Some(UnsupportedVersion);
    }
    if !TokenOk(d.epoch) {
      return Some(InvalidEpoch);
    }
    if !TokenOk(d.generation) {
      return Some(InvalidGeneration);
    }
    if |d.tabs| > MAX_TABS {
      return Some(TooManyTabs);
    }
    if |d.tabs| == 0 {
      if d.activeTab != "" || |d.recentTabs| != 0 {
        return Some(InvalidEmptyState);
      }
      return None;
    }
    var tabIDs, paneIDs := NO_IDS, NO_IDS;
    for i := 0 to |d.tabs|
      invariant CheckTabs(d.tabs[i..], tabIDs, paneIDs) == CheckTabs(d.tabs, {}, {})
    {
      assert d.tabs[i..][1..] == d.tabs[i + 1..];
      var checked := CheckTabLoop(d.tabs[i], tabIDs, paneIDs);
      match checked {
        case Wrong(e) => return Some(e);
        case Passed(seen) => paneIDs := seen;
      }
      tabIDs := tabIDs + {d.tabs[i].id};
    }
    if d.activeTab !in tabIDs {
      return Some(InvalidActiveTab);
    }
    for i := 0 to |d.recentTabs|
      invariant forall j :: 0 <= j < i ==> d.recentTabs[j] in tabIDs
    {
      if d.recentTabs[i] !in tabIDs {
        return Some(InvalidRecentTab);
      }
    }
    return None;
  }

  /** The new workspace is built up tab by tab and pane by pane. */
  method RecoverWorkspace(d: Document, starts: bool, home: string, env: Env) returns (r: Rebuilt)
    ensures r == Rebuild(d, starts, home, env)
  {
    hide Validate, NumericID, TrimSpace, SetRecent, CreateTabOf;
    var error := ValidateDocument(d);
    if error.Some? {
      return Invalid(error.value);
    }
    var w := NEW_WORKSPACE;
    if |d.tabs| == 0 {
      var (v, outcome) := CreateTabOf(w, "", env);
      return if outcome == Done then Rebuilt(v) else PaneStartFailed;
    }
    if !starts {
      return PaneStartFailed;
    }
    for i := 0 to |d.tabs|
      invariant RestoreTabs(w, d.tabs[i..], home) == RestoreTabs(NEW_WORKSPACE, d.tabs, home)
    {
      var t := d.tabs[i];
      assert d.tabs[i..][1..] == d.tabs[i + 1..];
      ghost var before := w;
      var ids: seq<string> := [];
      for k := 0 to |t.panes|
        invariant RestorePanes(w, t.panes[k..], home) == RestorePanes(before, t.panes, home)
        invariant ids + IdsOf(t.panes[k..]) == IdsOf(t.panes)
        invariant w.tabs == before.tabs && w.nextTabID == before.nextTabID
      {
        var p := t.panes[k];
        assert t.panes[k..][1..] == t.panes[k + 1..];
        var cwd := if TrimSpace(p.cwd) == "" then home else TrimSpace(p.cwd);
        w := w.(panes := w.panes[p.id := PaneInfo(false, false, cwd)], nextPaneID := Above(w.nextPaneID, p.id, PANE_PREFIX));
        Assoc(ids, [p.id], IdsOf(t.panes[k + 1..]));
        ids := ids + [p.id];
      }
      assert ids + [] == ids;
      w := w.(tabs := w.tabs + [Tab(t.id, t.title, t.customLabel, t.activePane, t.layout, ids)],
              nextTabID := Above(w.nextTabID, t.id, TAB_PREFIX));
    }
    return Rebuilt(SetRecent(w.(activeTab := d.activeTab), d.recentTabs));
  }
}
