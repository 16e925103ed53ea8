/** Two things that recovery does not do, shown on concrete workspaces. */
module RecoveryInstances {
  import opened Bytes
  import opened Names
  import opened RecoveryPath
  import opened Layout
  import opened LayoutCheck
  import opened Workspace
  import opened WorkspaceInvariant
  import opened WorkspaceKeeps
  import opened WorkspaceEffects
  import opened WorkspaceRecovery
  import opened RecoveryRoundTrip

  /** A workspace whose document is refused: its only pane stands in a directory whose
      name is a space, inside one whose name ends with a space. */
  lemma RefusedDocument(epoch: string, generation: string, env: Env)
    requires env.starts
    ensures var w := Run(NEW_WORKSPACE, [Do(CreateTab("", ""), env)] + [DirectoryChanged("pane-1", "/x / ")]);
            Inv(w) && |w.tabs| == 1 && Validate(DocumentOf(epoch, generation, w)).Some?
  {
    hide Run, Inv, Validate, LastPartEndsInSpace;
    var first := [Do(CreateTab("", ""), env)];
    var moved := DirectoryChanged("pane-1", "/x / ");
    NewWorkspaceOk();
    RunKeeps(NEW_WORKSPACE, first + [moved]);
    FirstTab(env);
    RunSnoc(NEW_WORKSPACE, first, moved);
    var w := Run(NEW_WORKSPACE, first + [moved]);
    TrailingSpaceSurvives();
    assert "pane-1" in w.panes && w.panes["pane-1"].cwd == "/x / ";
    DocumentValid(epoch, generation, w);
  }

  /** A document with one tab of two panes, in whose layout a copy of the second pane is
      hidden inside the leaf of the first. */
  function HidingDocument(epoch: string, generation: string): Document
  {
    Document(RECOVERY_VERSION, epoch, generation, "tab-1", [],
             [RecoveryTab("tab-1", "", false, "pane-1", HidingLayout("pane-1", "pane-2"),
                          [RecoveryPane("pane-1", ""), RecoveryPane("pane-2", "")])])
  }

  lemma HidingAccepted(epoch: string, generation: string)
    requires TokenOk(epoch) && TokenOk(generation)
    ensures Validate(HidingDocument(epoch, generation)).None?
  {
    hide TokenOk, CheckTab, HidingLayout;
    var d := HidingDocument(epoch, generation);
    var t := d.tabs[0];
    var none: set<string> := {};
    HidingChecked(t);
    assert d.tabs[1..] == [];
    assert CheckTabs(d.tabs, none, none) == CheckTabs([], none + {"tab-1"}, CheckTab(t, none, none).value);
  }

  predicate IsHiding(t: RecoveryTab)
  {
    && t.id == "tab-1" && t.title == "" && t.activePane == "pane-1" && t.layout == HidingLayout("pane-1", "pane-2")
    && t.panes == [RecoveryPane("pane-1", ""), RecoveryPane("pane-2", "")]
  }

  lemma HidingIds(t: RecoveryTab)
    requires IsHiding(t)
    ensures IdsOf(t.panes) == ["pane-1", "pane-2"]
  {
    hide HidingLayout;
    assert t.panes[1..] == [RecoveryPane("pane-2", "")] && t.panes[1..][1..] == [];
    assert IdsOf(t.panes[1..]) == ["pane-2"] + [];
    assert IdsOf(t.panes) == ["pane-1"] + ["pane-2"];
  }

  lemma HidingPanes(t: RecoveryTab)
    requires IsHiding(t)
    ensures CheckPanes(t.panes, {}).Passed?
  {
    hide HidingLayout, NumericID;
    FirstNames();
    NameNumber(PANE_PREFIX, 1);
    NameNumber(PANE_PREFIX, 2);
    var none: set<string> := {};
    assert t.panes[1..] == [RecoveryPane("pane-2", "")] && t.panes[1..][1..] == [];
    assert CheckPanes(t.panes, none) == CheckPanes(t.panes[1..], none + {"pane-1"});
    assert CheckPanes(t.panes[1..], none + {"pane-1"}) == CheckPanes([], none + {"pane-1"} + {"pane-2"});
  }

  lemma HidingChecked(t: RecoveryTab)
    requires IsHiding(t)
    ensures CheckTab(t, {}, {}).Passed?
  {
    hide HidingLayout, NumericID, ValidateLayout, CheckPanes, IdsOf, DepthOk, SplitNode, Leaves, Decimal;
    FirstNames();
    NameNumber(TAB_PREFIX, 1);
    HidingIds(t);
    HidingPanes(t);
    HidingDepth("pane-1", "pane-2");
    HiddenCopyTakesTheSplit("pane-1", "pane-2", "pane-3");
    assert "pane-1" == ["pane-1", "pane-2"][0];
  }

  lemma HidingDepth(a: string, b: string)
    ensures DepthOk(HidingLayout(a, b), 0)
  {
    var leaf := Leaf(b, 50.0);
    var first := Node(LeafKind, NoDirection, a, [leaf], 50.0);
    LeafDepth(leaf, 1);
    LeafDepth(leaf, 2);
    assert DepthOk(first, 1);
    assert [first, leaf][1..] == [leaf];
    assert AllDepthOk([first, leaf], 1);
  }

  lemma LeafDepth(leaf: LayoutNode, depth: nat)
    requires leaf.Node? && leaf.children == [] && depth <= MAX_DEPTH
    ensures AllDepthOk([leaf], depth)
  {
    assert [leaf][1..] == [];
    assert DepthOk(leaf, depth);
  }

  /** A valid document, rebuilt, and split: the new pane is a live and active pane of its
      tab, but the layout shows it nowhere, so the workspace is no longer consistent. */
  lemma HiddenPane(epoch: string, generation: string, home: string, env: Env)
    requires TokenOk(epoch) && TokenOk(generation) && env.starts
    ensures var d := HidingDocument(epoch, generation);
            && Validate(d).None? && Rebuild(d, true, home, env).Rebuilt?
            && var (z, outcome) := SplitPaneOf(Rebuild(d, true, home, env).w, "tab-1", "pane-2", Horizontal, env);
            && outcome == Done && |z.tabs| == 1
            && z.tabs[0].activePane in z.panes && z.tabs[0].activePane in z.tabs[0].paneIDs
            && z.tabs[0].activePane !in Leaves(z.tabs[0].layout) && !Inv(z)
  {
    hide Validate, Rebuild, HidingLayout, SplitPaneOf, Leaves, TokenOk, BareLayouts;
    var d := HidingDocument(epoch, generation);
    HidingAccepted(epoch, generation);
    RebuiltWorkspace(d, home, env);
    OneRestored(d.tabs[0]);
    SplitIsHidden(Rebuild(d, true, home, env).w, d.tabs[0], env);
    NotShown(SplitPaneOf(Rebuild(d, true, home, env).w, "tab-1", "pane-2", Horizontal, env).0);
  }

  lemma SplitIsHidden(w: Workspace, t: RecoveryTab, env: Env)
    requires Skeleton(w) && w.tabs == [Restored(t)] && IsHiding(t) && env.starts
    ensures var (z, outcome) := SplitPaneOf(w, "tab-1", "pane-2", Horizontal, env);
            && outcome == Done && |z.tabs| == 1
            && z.tabs[0].activePane in z.panes && z.tabs[0].activePane in z.tabs[0].paneIDs
            && z.tabs[0].activePane !in Leaves(z.tabs[0].layout)
  {
    hide HidingLayout, SplitNode, Leaves, ValidateLayout, NumericID, SetActive, Decimal, Skeleton;
    var newID := PaneName(w.nextPaneID);
    HidingIds(t);
    NewIsFresh(w, Restored(t));
    var ids := Restored(t).paneIDs;
    assert ids[0] == "pane-1" && ids[1] == "pane-2" && ids[0] in ids && ids[1] in ids;
    HiddenCopyTakesTheSplit("pane-1", "pane-2", newID);
    var v := NewPane(w, env).0;
    var tab := TabSplit(v.tabs[0], "pane-2", Horizontal, newID);
    assert FindTab(w.tabs, "tab-1") == Some(0);
    SetActiveTabs(v.(tabs := v.tabs[0 := tab]), "tab-1");
  }

  lemma OneRestored(t: RecoveryTab)
    ensures RestoredTabs([t]) == [Restored(t)]
  {
    assert [t][1..] == [];
    assert RestoredTabs([t]) == [Restored(t)] + [];
  }

  lemma NewIsFresh(w: Workspace, t: Tab)
    requires Skeleton(w) && w.tabs == [t]
    ensures forall p :: p in t.paneIDs ==> PaneName(w.nextPaneID) != p
  {
    hide IdsOk, PaneBag, IdBag, NumericID, Decimal;
    NameNumber(PANE_PREFIX, w.nextPaneID);
    BagOne(t);
    forall p | p in t.paneIDs ensures PaneName(w.nextPaneID) != p {
      assert p in multiset(t.paneIDs) && p in multiset(w.panes.Keys);
    }
  }

  lemma NotShown(z: Workspace)
    requires |z.tabs| == 1 && z.tabs[0].activePane !in Leaves(z.tabs[0].layout)
    ensures !Inv(z)
  {
    hide Leaves, WellFormed, IdsOk, PanesOk, ActiveOk, RecentOk;
    var t := z.tabs[0];
    assert t.activePane !in multiset(Leaves(t.layout));
    assert t.activePane in t.paneIDs ==> t.activePane in multiset(t.paneIDs);
    assert !TabOk(t);
  }
}
