/** What rebuilding a workspace from a document gives back. */
module RecoveryRoundTrip {
  import opened Bytes
  import opened Names
  import opened RecoveryPath
  import opened Layout
  import opened LayoutCheck
  import opened Workspace
  import opened WorkspaceInvariant
  import opened WorkspaceRecovery

  // ---- rebuilding -----------------------------------------------------------------------

  /** Part of the core invariant: everything but the tabs' own shape. */
  ghost predicate Skeleton(w: Workspace)
  {
    CountersOk(w) && IdsOk(IdBag(w.tabs), w.nextTabID) && PanesOk(w.tabs, w.panes.Keys, w.nextPaneID)
  }

  /** The same while the panes `extra` are not yet in a tab. */
  ghost predicate Partly(w: Workspace, extra: seq<string>)
  {
    && CountersOk(w) && IdsOk(IdBag(w.tabs), w.nextTabID)
    && PaneBag(w.tabs) + multiset(extra) == multiset(w.panes.Keys)
    && forall p :: p in w.panes.Keys ==> Numbered(p, PANE_PREFIX, w.nextPaneID)
  }

  lemma {:induction false} RestorePanesKeeps(w: Workspace, done: seq<string>, panes: seq<RecoveryPane>, home: string)
    requires Partly(w, done) && PanesFit(panes) && NoDup(IdsOf(panes)) && Members(IdsOf(panes)) !! w.panes.Keys
    ensures var z := RestorePanes(w, panes, home);
            && Partly(z, done + IdsOf(panes)) && z == w.(panes := z.panes, nextPaneID := z.nextPaneID)
            && z.panes.Keys == w.panes.Keys + Members(IdsOf(panes))
    decreases |panes|
  {
    if panes == [] {
      assert done + [] == done;
    } else {
      hide IdsOk, PaneBag, IdBag, NoDup, PanesFit, CwdAccepted;
      var p, rest := panes[0], panes[1..];
      assert panes == [p] + rest;
      PanesFitCons(p, rest);
      NoDupAppend([p.id], IdsOf(rest));
      assert Members([p.id]) == {p.id} && Members(IdsOf(panes)) == {p.id} + Members(IdsOf(rest));
      var cwd := if TrimSpace(p.cwd) == "" then home else TrimSpace(p.cwd);
      var v := w.(panes := w.panes[p.id := PaneInfo(false, false, cwd)], nextPaneID := Above(w.nextPaneID, p.id, PANE_PREFIX));
      RestoreOne(w, done, p, v);
      RestorePanesKeeps(v, done + [p.id], rest, home);
      Assoc(done, [p.id], IdsOf(rest));
    }
  }

  lemma RestoreOne(w: Workspace, done: seq<string>, p: RecoveryPane, v: Workspace)
    requires Partly(w, done) && NumericID(p.id, PANE_PREFIX).Some? && p.id !in w.panes
    requires v == w.(panes := v.panes, nextPaneID := Above(w.nextPaneID, p.id, PANE_PREFIX)) && v.panes.Keys == w.panes.Keys + {p.id}
    ensures Partly(v, done + [p.id])
  {
    hide IdsOk, PaneBag, IdBag, NumericID;
    assert multiset(done + [p.id]) == multiset(done) + multiset{p.id};
    assert multiset(w.panes.Keys + {p.id}) == multiset(w.panes.Keys) + multiset{p.id};
    BagAssoc(PaneBag(w.tabs), multiset(done), multiset{p.id});
  }

  lemma AddRestored(w: Workspace, t: RecoveryTab, v: Workspace)
    requires Partly(w, IdsOf(t.panes)) && NumericID(t.id, TAB_PREFIX).Some? && t.id !in IdBag(w.tabs)
    requires v == w.(tabs := w.tabs + [Restored(t)], nextTabID := Above(w.nextTabID, t.id, TAB_PREFIX))
    ensures Skeleton(v) && IdBag(v.tabs) == IdBag(w.tabs) + multiset{t.id}
  {
    hide PaneBag, IdBag, NumericID;
    BagAppend(w.tabs, [Restored(t)]);
    BagOne(Restored(t));
    var ids := IdBag(w.tabs) + multiset{t.id};
    forall id | id in ids ensures ids[id] == 1 && Numbered(id, TAB_PREFIX, v.nextTabID) {
      assert id == t.id || id in IdBag(w.tabs);
    }
  }

  lemma SkeletonPartly(w: Workspace)
    requires Skeleton(w)
    ensures Partly(w, [])
  {
    hide IdsOk, PaneBag;
    PlusNothing(PaneBag(w.tabs));
  }

  lemma PlusNothing(bag: multiset<string>)
    ensures bag + multiset([]) == bag
  {}

  /** The tabs come back as they are, and the counters end above every id. */
  lemma {:induction false} RestoreTabsKeeps(w: Workspace, tabs: seq<RecoveryTab>, home: string)
    requires Skeleton(w) && AllFit(tabs)
    requires Distinct(IdBag(w.tabs) + IdBag(RestoredTabs(tabs))) && Distinct(PaneBag(w.tabs) + PaneBag(RestoredTabs(tabs)))
    ensures var z := RestoreTabs(w, tabs, home);
            && Skeleton(z) && z.tabs == w.tabs + RestoredTabs(tabs)
            && z.activeTab == w.activeTab && z.recentTabs == w.recentTabs
    decreases |tabs|
  {
    hide IdsOk, PaneBag, IdBag, TabFits, Distinct, Partly, RestorePanes;
    if tabs == [] {
      assert w.tabs + [] == w.tabs;
    } else {
      var t, rest := tabs[0], tabs[1..];
      var ts := RestoredTabs(rest);
      assert RestoredTabs(tabs) == [Restored(t)] + ts;
      BagCons(Restored(t), ts);
      TabStep(w, t, ts, home);
      var v := RestorePanes(w, t.panes, home);
      var u := v.(tabs := v.tabs + [Restored(t)], nextTabID := Above(v.nextTabID, t.id, TAB_PREFIX));
      assert AllFit(rest);
      RestoreTabsKeeps(u, rest, home);
      Assoc(w.tabs, [Restored(t)], ts);
    }
  }

  lemma TabStep(w: Workspace, t: RecoveryTab, ts: seq<Tab>, home: string)
    requires Skeleton(w) && TabFits(t)
    requires Distinct(IdBag(w.tabs) + (multiset{t.id} + IdBag(ts))) && Distinct(PaneBag(w.tabs) + (multiset(IdsOf(t.panes)) + PaneBag(ts)))
    ensures var v := RestorePanes(w, t.panes, home);
            var u := v.(tabs := v.tabs + [Restored(t)], nextTabID := Above(v.nextTabID, t.id, TAB_PREFIX));
            && Skeleton(u) && v.tabs == w.tabs && v.activeTab == w.activeTab && v.recentTabs == w.recentTabs
            && Distinct(IdBag(u.tabs) + IdBag(ts)) && Distinct(PaneBag(u.tabs) + PaneBag(ts))
  {
    hide IdsOk, PaneBag, IdBag, Shape, DepthOk, NumericID, Partly, RestorePanes, PanesFit;
    var ids := IdsOf(t.panes);
    SkeletonPartly(w);
    NewPanes(w.panes.Keys, PaneBag(w.tabs), ids, PaneBag(ts));
    NewTab(IdBag(w.tabs), t.id, IdBag(ts));
    RestorePanesKeeps(w, [], t.panes, home);
    assert [] + ids == ids;
    var v := RestorePanes(w, t.panes, home);
    AddRestored(v, t, v.(tabs := v.tabs + [Restored(t)], nextTabID := Above(v.nextTabID, t.id, TAB_PREFIX)));
    BagAppend(w.tabs, [Restored(t)]);
    BagOne(Restored(t));
    BagAssoc(IdBag(w.tabs), multiset{t.id}, IdBag(ts));
    BagAssoc(PaneBag(w.tabs), multiset(ids), PaneBag(ts));
  }

  lemma NewPanes(keys: set<string>, bag: multiset<string>, ids: seq<string>, rest: multiset<string>)
    requires bag == multiset(keys) && Distinct(bag + (multiset(ids) + rest))
    ensures NoDup(ids) && Members(ids) !! keys
  {
    DistinctAdd(keys, ids, rest);
  }

  lemma NewTab(bag: multiset<string>, id: string, rest: multiset<string>)
    requires Distinct(bag + (multiset{id} + rest))
    ensures id !in bag
  {
    assert (bag + (multiset{id} + rest))[id] == bag[id] + 1 + rest[id];
  }

  lemma {:induction false} ShapesRestored(tabs: seq<RecoveryTab>)
    requires AllFit(tabs)
    ensures |RestoredTabs(tabs)| == |tabs|
    ensures forall i :: 0 <= i < |tabs| ==> RestoredTabs(tabs)[i] == Restored(tabs[i])
  {
    hide TabFits;
    if tabs != [] {
      assert AllFit(tabs[1..]);
      ShapesRestored(tabs[1..]);
    }
  }

  /** No leaf carries children of its own. */
  predicate Bare(n: LayoutNode)
  {
    n.Node? ==> if n.kind == LeafKind then n.children == [] else AllBare(n.children)
  }

  predicate AllBare(cs: seq<LayoutNode>)
  {
    cs == [] || (Bare(cs[0]) && AllBare(cs[1..]))
  }

  lemma {:induction false} WellFormedIsBare(n: LayoutNode)
    ensures WellFormed(n) <==> Shape(n) && Bare(n)
    decreases n, 1
  {
    if n.Node? {
      AllWellFormedIsBare(n.children);
    }
  }

  lemma {:induction false} AllWellFormedIsBare(cs: seq<LayoutNode>)
    ensures AllWellFormed(cs) <==> AllShape(cs) && AllBare(cs)
    decreases cs, 0
  {
    if cs != [] {
      WellFormedIsBare(cs[0]);
      AllWellFormedIsBare(cs[1..]);
    }
  }

  /** The layouts of a document carry nothing inside their leaves. */
  predicate BareLayouts(tabs: seq<RecoveryTab>)
  {
    forall i :: 0 <= i < |tabs| ==> Bare(tabs[i].layout)
  }

  lemma TabsOkIffBare(tabs: seq<RecoveryTab>)
    requires AllFit(tabs)
    ensures TabsOk(RestoredTabs(tabs)) <==> BareLayouts(tabs)
  {
    hide TabFits, TabOk, Bare;
    ShapesRestored(tabs);
    forall i | 0 <= i < |tabs| ensures TabOk(Restored(tabs[i])) <==> Bare(tabs[i].layout) {
      TabOkIffBare(tabs[i]);
    }
  }

  lemma TabOkIffBare(t: RecoveryTab)
    requires TabFits(t)
    ensures TabOk(Restored(t)) <==> Bare(t.layout)
  {
    hide Shape, Bare, WellFormed, Leaves, DepthOk, NumericID, PanesFit, ByteLen;
    WellFormedIsBare(t.layout);
  }

  lemma EmptySkeleton()
    ensures Skeleton(NEW_WORKSPACE)
  {
    BagNothing();
  }

  /** A workspace rebuilt from a valid document has its tabs, panes and active tab,
      new ids will be above all of its ids, and it satisfies the workspace
      invariant exactly if no layout hides anything inside a leaf: the check
      ignores what a leaf carries, but the layout is kept as it was sent. */
  lemma RebuiltWorkspace(d: Document, home: string, env: Env)
    requires Validate(d).None? && d.tabs != []
    ensures Rebuild(d, true, home, env).Rebuilt?
    ensures var w := Rebuild(d, true, home, env).w;
            && Skeleton(w) && w.tabs == RestoredTabs(d.tabs) && w.activeTab == d.activeTab
            && (Inv(w) <==> BareLayouts(d.tabs))
  {
    hide IdsOk, PaneBag, IdBag, TabFits, RestoreTabs, TakeRecent, TokenOk, BareLayouts, TabsOk, RecentOk, Validate;
    ValidateSpec(d);
    BagNothing();
    EmptySkeleton();
    EmptyFirst(IdBag(RestoredTabs(d.tabs)));
    EmptyFirst(PaneBag(RestoredTabs(d.tabs)));
    RestoreTabsKeeps(NEW_WORKSPACE, d.tabs, home);
    TabsOkIffBare(d.tabs);
    var v := RestoreTabs(NEW_WORKSPACE, d.tabs, home);
    assert v.tabs == RestoredTabs(d.tabs);
    ShapesRestored(d.tabs);
    NoRecent(v.tabs);
    TakeRecentOk(v.tabs, [], d.recentTabs);
    SetRecentKeeps(v.(activeTab := d.activeTab), d.recentTabs);
  }

  lemma EmptyFirst(bag: multiset<string>)
    ensures multiset{} + bag == bag
  {}

  lemma SetRecentKeeps(w: Workspace, ids: seq<string>)
    requires Skeleton(w)
    ensures Skeleton(SetRecent(w, ids))
  {
    hide IdsOk, PanesOk, TakeRecent;
  }

  // ---- the round trip -------------------------------------------------------------------

  lemma {:induction false} PanesRestored(w: Workspace, ids: seq<string>)
    requires forall p :: p in ids ==> p in w.panes && Numbered(p, PANE_PREFIX, w.nextPaneID)
    ensures IdsOf(PaneDocuments(w.panes, ids)) == ids
  {
    if ids != [] {
      var p, rest := ids[0], ids[1..];
      assert p in ids && forall q :: q in rest ==> q in ids;
      NumericTrimmed(p, PANE_PREFIX);
      PanesRestored(w, rest);
      hide NormalizeCWD, TrimSpace, NumericID, Numbered;
      var docs := PaneDocuments(w.panes, ids);
      assert docs == [RecoveryPane(p, NormalizeCWD(w.panes[p].cwd))] + PaneDocuments(w.panes, rest);
      assert docs[1..] == PaneDocuments(w.panes, rest);
      assert [p] + rest == ids;
    }
  }

  ghost predicate TabReady(w: Workspace, t: Tab)
  {
    && TrimSpace(t.id) == t.id && TrimSpace(t.activePane) == t.activePane
    && forall p :: p in t.paneIDs ==> p in w.panes && Numbered(p, PANE_PREFIX, w.nextPaneID)
  }

  lemma InvReady(w: Workspace, i: nat)
    requires Inv(w) && i < |w.tabs|
    ensures TabReady(w, w.tabs[i])
  {
    hide TabsOk, NumericID, NoDup, TrimSpace, PaneBag, IdBag;
    var t := w.tabs[i];
    PanesOnce(w, i);
    BagAt(w.tabs, i);
    assert t.id in IdBag(w.tabs);
    NumericTrimmed(t.id, TAB_PREFIX);
    ActiveIn(w, i);
    NumericTrimmed(t.activePane, PANE_PREFIX);
  }

  lemma ActiveIn(w: Workspace, i: nat)
    requires Inv(w) && i < |w.tabs|
    ensures w.tabs[i].activePane in w.tabs[i].paneIDs
  {}

  lemma {:induction false} TabsRestored(w: Workspace, tabs: seq<Tab>)
    requires forall i :: 0 <= i < |tabs| ==> TabReady(w, tabs[i])
    ensures RestoredTabs(TabDocuments(w.panes, tabs)) == tabs
  {
    hide TabReady, TrimSpace;
    if tabs != [] {
      var t, rest := tabs[0], tabs[1..];
      TabRestored(w, t);
      TabsRestored(w, rest);
      var docs := TabDocuments(w.panes, tabs);
      assert docs[1..] == TabDocuments(w.panes, rest);
      assert [t] + rest == tabs;
    }
  }

  lemma TabRestored(w: Workspace, t: Tab)
    requires TabReady(w, t)
    ensures Restored(TabDocument(w.panes, t)) == t
  {
    hide TrimSpace, Numbered;
    PanesRestored(w, t.paneIDs);
  }

  lemma RecentStable(w: Workspace)
    requires Inv(w)
    ensures TakeRecent(w.tabs, [], w.recentTabs) == w.recentTabs
  {
    hide Inv, FindTab, TrimSpace, TakeRecent;
    RecentLive(w);
    RecentKept(w.tabs, w.recentTabs);
  }

  lemma RecentKept(tabs: seq<Tab>, r: seq<string>)
    requires |r| <= 2 && (|r| == 2 ==> r[0] != r[1])
    requires forall i :: 0 <= i < |r| ==> TrimSpace(r[i]) == r[i] != "" && FindTab(tabs, r[i]).Some?
    ensures TakeRecent(tabs, [], r) == r
  {
    hide FindTab, TrimSpace;
    if |r| > 0 {
      Uncons(r);
      var first, rest := r[0], r[1..];
      assert AppendRecent(tabs, [], first) == [first];
      assert TakeRecent(tabs, [], r) == TakeRecent(tabs, [first], rest);
      if |r| == 1 {
        assert rest == [];
      } else {
        SecondKept(tabs, first, r[1], rest);
      }
    }
  }

  lemma SecondKept(tabs: seq<Tab>, first: string, second: string, rest: seq<string>)
    requires rest == [second] && first != second && TrimSpace(second) == second != "" && FindTab(tabs, second).Some?
    ensures TakeRecent(tabs, [first], rest) == [first] + rest
  {
    hide FindTab, TrimSpace;
    assert AppendRecent(tabs, [first], second) == [first, second];
  }

  lemma RecentLive(w: Workspace)
    requires Inv(w)
    ensures |w.recentTabs| <= 2 && (|w.recentTabs| == 2 ==> w.recentTabs[0] != w.recentTabs[1])
    ensures forall i :: 0 <= i < |w.recentTabs| ==> TrimSpace(w.recentTabs[i]) == w.recentTabs[i] != "" && FindTab(w.tabs, w.recentTabs[i]).Some?
  {
    hide TabsOk, PanesOk, ActiveOk, TrimSpace;
    forall i | 0 <= i < |w.recentTabs|
      ensures TrimSpace(w.recentTabs[i]) == w.recentTabs[i] != "" && FindTab(w.tabs, w.recentTabs[i]).Some?
    {
      LiveTrimmed(w, w.recentTabs[i]);
      FoundInBag(w.tabs, w.recentTabs[i]);
    }
  }

  /** What a caller can check of a workspace before saving it. */
  ghost predicate WithinLimits(epoch: string, generation: string, w: Workspace)
  {
    && TokenOk(TrimSpace(epoch)) && TokenOk(TrimSpace(generation))
    && |w.tabs| <= MAX_TABS && |w.panes| <= MAX_PANES
    && (forall i :: 0 <= i < |w.tabs| ==> ByteLen(w.tabs[i].title) <= MAX_TITLE_BYTES && DepthOk(w.tabs[i].layout, 0))
    && (forall p :: p in w.panes ==> !LastPartEndsInSpace(w.panes[p].cwd))
  }

  lemma CwdFits(cwd: string)
    ensures CwdAccepted(NormalizeCWD(cwd)) <==> !LastPartEndsInSpace(cwd)
  {
    TrimNothing("");
    assert NormalizeCWD("") == "";
    hide LastPartEndsInSpace, NormalizeCWD;
    NormalTwice(cwd);
  }

  lemma {:induction false} PanesFitIff(w: Workspace, ids: seq<string>)
    requires forall p :: p in ids ==> p in w.panes && Numbered(p, PANE_PREFIX, w.nextPaneID)
    ensures PanesFit(PaneDocuments(w.panes, ids)) <==> forall p :: p in ids ==> !LastPartEndsInSpace(w.panes[p].cwd)
  {
    if ids != [] {
      var p, rest := ids[0], ids[1..];
      assert p in ids && forall q :: q in rest ==> q in ids;
      NumericTrimmed(p, PANE_PREFIX);
      PanesFitIff(w, rest);
      CwdFits(w.panes[p].cwd);
      hide NormalizeCWD, TrimSpace, NumericID, CwdAccepted, PanesFit, LastPartEndsInSpace;
      PanesFitCons(RecoveryPane(p, NormalizeCWD(w.panes[p].cwd)), PaneDocuments(w.panes, rest));
      assert forall q :: q in ids <==> q == p || q in rest;
    } else {
      assert PaneDocuments(w.panes, ids) == [];
    }
  }

  lemma TabFitsIff(w: Workspace, t: Tab)
    requires TabReady(w, t) && TabOk(t) && NumericID(t.id, TAB_PREFIX).Some?
    ensures TabFits(TabDocument(w.panes, t)) <==>
            ByteLen(t.title) <= MAX_TITLE_BYTES && DepthOk(t.layout, 0) && forall p :: p in t.paneIDs ==> !LastPartEndsInSpace(w.panes[p].cwd)
  {
    hide TrimSpace, NumericID, NormalizeCWD, LastPartEndsInSpace, DepthOk, ByteLen, PanesFit, WellFormed, Shape, Bare, Leaves;
    PanesRestored(w, t.paneIDs);
    PanesFitIff(w, t.paneIDs);
    WellFormedIsBare(t.layout);
    IdsLength(PaneDocuments(w.panes, t.paneIDs));
  }

  lemma {:induction false} TabDocumentsAt(panes: map<string, PaneInfo>, tabs: seq<Tab>)
    ensures |TabDocuments(panes, tabs)| == |tabs|
    ensures forall i :: 0 <= i < |tabs| ==> TabDocuments(panes, tabs)[i] == TabDocument(panes, tabs[i])
  {
    hide TabDocument;
    if tabs != [] {
      TabDocumentsAt(panes, tabs[1..]);
    }
  }

  /** The document of a live workspace is valid exactly if the workspace is within
      the limits and no directory's last part ends in white space. */
  lemma DocumentValid(epoch: string, generation: string, w: Workspace)
    requires Inv(w) && w.tabs != []
    ensures Validate(DocumentOf(epoch, generation, w)).None? <==> WithinLimits(epoch, generation, w)
  {
    hide IdsOk, IdBag, PaneBag, TabFits, TokenOk, ByteLen, DepthOk, LastPartEndsInSpace, NormalizeCWD, TrimSpace, TabDocument, TabReady, TakeRecent, Inv, Validate;
    var d := DocumentOf(epoch, generation, w);
    ValidateSpec(d);
    AllReady(w);
    TabsRestored(w, w.tabs);
    TabDocumentsAt(w.panes, w.tabs);
    RecentStable(w);
    LiveParts(w);
    forall i | 0 <= i < |w.tabs|
      ensures TabFits(d.tabs[i]) <==> TabWithinLimits(w, w.tabs[i])
    {
      TabFitsHere(w, i);
    }
    AllPanesListed(w);
    if WithinLimits(epoch, generation, w) {
      forall i | 0 <= i < |w.tabs| ensures TabWithinLimits(w, w.tabs[i]) {
        TabPanesLive(w, i);
      }
    }
    if AllFit(d.tabs) {
      forall i | 0 <= i < |w.tabs| ensures TabWithinLimits(w, w.tabs[i]) {
        assert TabFits(d.tabs[i]);
      }
      forall p | p in w.panes ensures !LastPartEndsInSpace(w.panes[p].cwd) {
        var i :| 0 <= i < |w.tabs| && p in w.tabs[i].paneIDs;
        assert TabWithinLimits(w, w.tabs[i]);
      }
    }
  }

  ghost predicate TabWithinLimits(w: Workspace, t: Tab)
  {
    && ByteLen(t.title) <= MAX_TITLE_BYTES && DepthOk(t.layout, 0)
    && (forall p :: p in t.paneIDs ==> p in w.panes && !LastPartEndsInSpace(w.panes[p].cwd))
  }

  lemma TabPanesLive(w: Workspace, i: nat)
    requires Inv(w) && i < |w.tabs|
    ensures forall p :: p in w.tabs[i].paneIDs ==> p in w.panes
  {
    PanesOnce(w, i);
  }

  lemma TabFitsHere(w: Workspace, i: nat)
    requires Inv(w) && i < |w.tabs|
    ensures TabFits(TabDocument(w.panes, w.tabs[i])) <==> TabWithinLimits(w, w.tabs[i])
  {
    hide TabFits, ByteLen, DepthOk, LastPartEndsInSpace, NormalizeCWD, TrimSpace, TabDocument, NumericID, PaneBag, IdBag, TabOk, NoDup;
    InvReady(w, i);
    PanesOnce(w, i);
    BagAt(w.tabs, i);
    assert w.tabs[i].id in IdBag(w.tabs);
    TabFitsIff(w, w.tabs[i]);
  }

  lemma AllReady(w: Workspace)
    requires Inv(w)
    ensures forall i :: 0 <= i < |w.tabs| ==> TabReady(w, w.tabs[i])
  {
    hide Inv, TabReady;
    forall i | 0 <= i < |w.tabs| ensures TabReady(w, w.tabs[i]) {
      InvReady(w, i);
    }
  }

  lemma AllPanesListed(w: Workspace)
    requires Inv(w)
    ensures forall p :: p in w.panes ==> exists i :: 0 <= i < |w.tabs| && p in w.tabs[i].paneIDs
  {
    hide TabsOk, IdsOk, ActiveOk, RecentOk, FindPaneTab, PaneBag;
    forall p | p in w.panes ensures exists i :: 0 <= i < |w.tabs| && p in w.tabs[i].paneIDs {
      assert p in multiset(w.panes.Keys);
      PaneListed(w.tabs, p);
    }
  }

  lemma {:induction false} PaneListed(tabs: seq<Tab>, p: string)
    requires p in PaneBag(tabs)
    ensures exists i :: 0 <= i < |tabs| && p in tabs[i].paneIDs
  {
    if p in tabs[0].paneIDs {
    } else {
      assert p !in multiset(tabs[0].paneIDs);
      PaneListed(tabs[1..], p);
      var i :| 0 <= i < |tabs[1..]| && p in tabs[1..][i].paneIDs;
      assert tabs[i + 1] == tabs[1..][i];
    }
  }

  /** What the invariant gives for the document as a whole. */
  lemma LiveParts(w: Workspace)
    requires Inv(w) && w.tabs != []
    ensures Distinct(IdBag(w.tabs)) && Distinct(PaneBag(w.tabs)) && |PaneBag(w.tabs)| == |w.panes|
    ensures w.activeTab in IdBag(w.tabs) && TrimSpace(w.activeTab) == w.activeTab
    ensures forall i :: 0 <= i < |w.recentTabs| ==> w.recentTabs[i] in IdBag(w.tabs)
  {
    hide TabsOk, IdBag, PaneBag, TrimSpace, NumericID;
    LiveTrimmed(w, w.activeTab);
    assert |multiset(w.panes.Keys)| == |w.panes.Keys| == |w.panes|;
  }

  // ---- directories ------------------------------------------------------------------------

  /** What a pane is after it was saved and started again. */
  function Started(panes: map<string, PaneInfo>, p: string, home: string): PaneInfo
    requires p in panes
  {
    var cwd := NormalizeCWD(panes[p].cwd);
    PaneInfo(false, false, if cwd == "" then home else cwd)
  }

  ghost predicate StartedFrom(z: Workspace, panes: map<string, PaneInfo>, home: string)
  {
    forall p :: p in z.panes && p in panes ==> z.panes[p] == Started(panes, p, home)
  }

  predicate SavedFrom(doc: RecoveryPane, panes: map<string, PaneInfo>)
  {
    doc.id in panes ==> doc.cwd == NormalizeCWD(panes[doc.id].cwd) && TrimSpace(doc.cwd) == doc.cwd
  }

  predicate PanesSaved(docs: seq<RecoveryPane>, panes: map<string, PaneInfo>)
  {
    forall i :: 0 <= i < |docs| ==> SavedFrom(docs[i], panes)
  }

  lemma {:induction false} PanesStarted(z: Workspace, docs: seq<RecoveryPane>, panes: map<string, PaneInfo>, home: string)
    requires StartedFrom(z, panes, home) && PanesSaved(docs, panes)
    ensures StartedFrom(RestorePanes(z, docs, home), panes, home)
    decreases |docs|
  {
    hide NormalizeCWD, TrimSpace, Above;
    if docs != [] {
      var d := docs[0];
      var cwd := if TrimSpace(d.cwd) == "" then home else TrimSpace(d.cwd);
      assert SavedFrom(d, panes);
      var v := z.(panes := z.panes[d.id := PaneInfo(false, false, cwd)], nextPaneID := Above(z.nextPaneID, d.id, PANE_PREFIX));
      assert StartedFrom(v, panes, home);
      PanesStarted(v, docs[1..], panes, home);
    }
  }

  lemma {:induction false} TabsStarted(z: Workspace, docs: seq<RecoveryTab>, panes: map<string, PaneInfo>, home: string)
    requires StartedFrom(z, panes, home) && forall i :: 0 <= i < |docs| ==> PanesSaved(docs[i].panes, panes)
    ensures StartedFrom(RestoreTabs(z, docs, home), panes, home)
    decreases |docs|
  {
    hide PanesSaved, RestorePanes, Above, Started;
    if docs != [] {
      PanesStarted(z, docs[0].panes, panes, home);
      var v := RestorePanes(z, docs[0].panes, home);
      TabsStarted(v.(tabs := v.tabs + [Restored(docs[0])], nextTabID := Above(v.nextTabID, docs[0].id, TAB_PREFIX)),
                  docs[1..], panes, home);
    }
  }

  lemma {:induction false} DocumentsSaved(panes: map<string, PaneInfo>, ids: seq<string>)
    requires forall p :: p in ids && p in panes ==> TrimSpace(p) == p && !LastPartEndsInSpace(panes[p].cwd)
    ensures PanesSaved(PaneDocuments(panes, ids), panes)
  {
    hide NormalizeCWD, TrimSpace, LastPartEndsInSpace;
    if ids != [] {
      assert ids[0] in ids && forall p :: p in ids[1..] ==> p in ids;
      DocumentsSaved(panes, ids[1..]);
      if ids[0] in panes {
        NormalTrims(panes[ids[0]].cwd);
      }
    }
  }

  lemma PanesTrimmed(w: Workspace)
    requires Inv(w)
    ensures forall p :: p in w.panes ==> TrimSpace(p) == p
  {
    hide TabsOk, IdsOk, ActiveOk, RecentOk, PaneBag, TrimSpace, NumericID;
    forall p | p in w.panes ensures TrimSpace(p) == p {
      NumericTrimmed(p, PANE_PREFIX);
    }
  }

  lemma DirectoriesRestored(epoch: string, generation: string, w: Workspace, home: string, env: Env)
    requires Inv(w) && w.tabs != [] && WithinLimits(epoch, generation, w)
    requires Rebuild(DocumentOf(epoch, generation, w), true, home, env).Rebuilt? && Validate(DocumentOf(epoch, generation, w)).None?
    ensures StartedFrom(Rebuild(DocumentOf(epoch, generation, w), true, home, env).w, w.panes, home)
  {
    hide Inv, TrimSpace, LastPartEndsInSpace, RestoreTabs, PanesSaved, Validate, SetRecent, Started, PaneDocuments;
    var d := DocumentOf(epoch, generation, w);
    PanesTrimmed(w);
    TabDocumentsAt(w.panes, w.tabs);
    forall i | 0 <= i < |d.tabs| ensures PanesSaved(d.tabs[i].panes, w.panes) {
      DocumentsSaved(w.panes, w.tabs[i].paneIDs);
    }
    TabsStarted(NEW_WORKSPACE, d.tabs, w.panes, home);
    RecentPanes(RestoreTabs(NEW_WORKSPACE, d.tabs, home).(activeTab := d.activeTab), d.recentTabs);
  }

  lemma RecentPanes(w: Workspace, ids: seq<string>)
    ensures SetRecent(w, ids).panes == w.panes
  {
    hide TakeRecent;
  }

  // ---- both ways --------------------------------------------------------------------------

  /** Saving and rebuilding a workspace gives back the same tabs, in the same order,
      with the same titles, layouts, panes and active panes, the same active and
      recent tabs and the same panes, each started where it was (without a directory,
      at home); the invariant holds again, so no id that is in use can be handed out. */
  lemma RoundTrip(epoch: string, generation: string, w: Workspace, home: string, env: Env)
    requires Inv(w) && w.tabs != [] && WithinLimits(epoch, generation, w)
    ensures Rebuild(DocumentOf(epoch, generation, w), true, home, env).Rebuilt?
    ensures var z := Rebuild(DocumentOf(epoch, generation, w), true, home, env).w;
            && Inv(z) && z.tabs == w.tabs && z.activeTab == w.activeTab && z.recentTabs == w.recentTabs
            && z.panes.Keys == w.panes.Keys && forall p :: p in w.panes ==> z.panes[p] == Started(w.panes, p, home)
  {
    hide IdsOk, IdBag, PaneBag, TabFits, WithinLimits, TrimSpace, TabReady, TakeRecent, RestoreTabs, Inv, Validate, TabDocument, BareLayouts, Bare, TabsOk, Started;
    var d := DocumentOf(epoch, generation, w);
    DocumentValid(epoch, generation, w);
    RebuiltWorkspace(d, home, env);
    AllReady(w);
    TabsRestored(w, w.tabs);
    TabDocumentsAt(w.panes, w.tabs);
    RecentStable(w);
    LiveParts(w);
    LiveBare(w, d.tabs);
    DirectoriesRestored(epoch, generation, w, home, env);
    var z := Rebuild(d, true, home, env).w;
    SameKeys(w, z);
  }

  lemma LiveBare(w: Workspace, docs: seq<RecoveryTab>)
    requires Inv(w) && docs == TabDocuments(w.panes, w.tabs)
    ensures BareLayouts(docs)
  {
    hide IdsOk, PanesOk, ActiveOk, RecentOk, Bare, WellFormed, Shape, TrimSpace;
    TabDocumentsAt(w.panes, w.tabs);
    forall i | 0 <= i < |docs| ensures Bare(docs[i].layout) {
      WellFormedIsBare(w.tabs[i].layout);
    }
  }

  lemma SameKeys(w: Workspace, z: Workspace)
    requires Inv(w) && Skeleton(z) && z.tabs == w.tabs
    ensures z.panes.Keys == w.panes.Keys
  {
    hide TabsOk, IdsOk, ActiveOk, RecentOk, PaneBag;
    forall p ensures p in z.panes.Keys <==> p in w.panes.Keys {
      assert p in z.panes.Keys <==> multiset(z.panes.Keys)[p] > 0;
      assert p in w.panes.Keys <==> multiset(w.panes.Keys)[p] > 0;
    }
  }

  // ---- a layout that hides something ------------------------------------------------------

  /** A valid layout with a copy of pane `b` hidden inside the leaf of pane `a`. */
  function HidingLayout(a: string, b: string): LayoutNode
  {
    Node(SplitKind, Vertical, "", [Node(LeafKind, NoDirection, a, [Leaf(b, 50.0)], 50.0), Leaf(b, 50.0)], 0.0)
  }

  /** Such a layout passes the check, but splitting pane `b` in it changes the hidden
      copy: the new pane appears nowhere in the layout. */
  lemma HiddenCopyTakesTheSplit(a: string, b: string, newID: string)
    requires a != b && newID != a && newID != b
    ensures ValidateLayout(HidingLayout(a, b), [a, b]).Good?
    ensures var (n, ok) := SplitNode(HidingLayout(a, b), b, Horizontal, newID);
            ok && Leaves(n) == [a, b] && newID !in Leaves(n)
  {
    var n := HidingLayout(a, b);
    var cs := n.children;
    var leaf := Leaf(b, 50.0);
    PairLeaves(cs[0], leaf, a, b);
    LayoutAccepted(n, [a, b]);
    LeafSplits(leaf, b, newID);
    assert cs[0].children == [leaf];
    var c := SplitNode(cs[0], b, Horizontal, newID).0;
    assert SplitNode(cs[0], b, Horizontal, newID).1 && c == cs[0].(children := c.children);
    PairLeaves(c, leaf, a, b);
    assert [c] + cs[1..] == [c, leaf];
    assert SplitNode(n, b, Horizontal, newID) == (n.(children := [c, leaf]), true);
  }

  lemma PairLeaves(first: LayoutNode, second: LayoutNode, a: string, b: string)
    requires first.Node? && first.kind == LeafKind && first.paneID == a && second == Leaf(b, 50.0)
    ensures AllShape([first, second]) && LeavesOf([first, second]) == [a, b]
  {
    assert [first, second][1..] == [second] && [second][1..] == [];
    assert AllShape([second]) && LeavesOf([second]) == [b] + [];
  }

  lemma LeafSplits(leaf: LayoutNode, b: string, newID: string)
    requires leaf == Leaf(b, 50.0)
    ensures SplitFirst([leaf], b, Horizontal, newID).1
  {}
}
