/** Every action and every exit keeps the workspace invariant. */
module WorkspaceKeeps {
  import opened Bytes
  import opened Names
  import opened Layout
  import opened LayoutCheck
  import opened Workspace
  import opened WorkspaceInvariant

  // ---- one tab ------------------------------------------------------------------------

  lemma NewTabOk(paneID: string, id: string, title: string)
    ensures TabOk(Tab(id, title, false, paneID, Leaf(paneID, 0.0), [paneID]))
  {}

  /** Taking a pane out of a tab leaves a good tab, or nothing. */
  lemma TabWithoutOk(t: Tab, p: string)
    requires TabOk(t) && NoDup(t.paneIDs) && p in t.paneIDs
    ensures var z := TabWithout(t, p);
            && z.id == t.id && multiset(z.paneIDs) == multiset(t.paneIDs) - multiset{p}
            && (z.paneIDs == [] <==> z.layout == Nil)
            && (z.paneIDs != [] ==> TabOk(z))
  {
    hide RemoveNode, Leaves, WellFormed, Without, Adjacent, NoDup;
    RemoveSpec(t.layout, p);
    WithoutContents(Leaves(t.layout), p);
    WithoutContents(t.paneIDs, p);
    CountOnce(t.paneIDs, p);
    var z := TabWithout(t, p);
    var ids := Leaves(z.layout);
    assert multiset(ids) == multiset(z.paneIDs);
    SameEmptiness(ids, z.paneIDs);
    if ids != [] {
      assert z.activePane in ids;
      assert multiset(ids)[z.activePane] > 0;
    }
  }

  lemma SameEmptiness(a: seq<string>, b: seq<string>)
    requires multiset(a) == multiset(b)
    ensures |a| == |b|
  {
    assert |multiset(a)| == |a| && |multiset(b)| == |b|;
  }

  lemma {:induction false} InsertAfterBag(s: seq<string>, target: string, x: string)
    requires target in s
    ensures multiset(InsertAfter(s, target, x)) == multiset(s) + multiset{x}
  {
    var rest := s[1..];
    assert s == [s[0]] + rest;
    assert multiset(s) == multiset{s[0]} + multiset(rest);
    if s[0] != target {
      InsertAfterBag(rest, target, x);
    }
  }

  /** The split always finds its leaf; the new pane becomes active. */
  lemma TabSplitOk(t: Tab, p: string, direction: Direction, newID: string)
    requires TabOk(t) && p in t.paneIDs && IsDirection(direction)
    ensures SplitNode(t.layout, p, direction, newID).1
    ensures var z := TabSplit(t, p, direction, newID);
            TabOk(z) && z.id == t.id && multiset(z.paneIDs) == multiset(t.paneIDs) + multiset{newID}
  {
    SplitSpec(t.layout, p, direction, newID);
    assert multiset(t.paneIDs)[p] > 0 && multiset(Leaves(t.layout))[p] > 0;
    InsertAfterBag(Leaves(t.layout), p, newID);
    hide SplitNode, Leaves, WellFormed, InsertAfter;
    var z := TabSplit(t, p, direction, newID);
    assert z.paneIDs[|t.paneIDs|] == newID;
  }

  lemma {:induction false} RenamedBag(s: seq<string>, p: string, q: string)
    requires multiset(s)[p] <= 1
    ensures multiset(Renamed(s, p, q)) == if p in s then multiset(s) - multiset{p} + multiset{q} else multiset(s)
  {
    if p !in s {
      assert Renamed(s, p, q) == s;
    } else {
      var i :| 0 <= i < |s| && s[i] == p;
      var a, b := s[..i], s[i + 1..];
      assert s == a + [p] + b;
      assert multiset(s)[p] == multiset(a)[p] + 1 + multiset(b)[p];
      assert p !in a && p !in b;
      assert Renamed(s, p, q) == a + [q] + b;
      SwapOne(multiset(a), multiset(b), p, q);
    }
  }

  lemma SwapOne(a: multiset<string>, b: multiset<string>, p: string, q: string)
    ensures a + multiset{q} + b == a + multiset{p} + b - multiset{p} + multiset{q}
  {}

  lemma TabReplacedOk(t: Tab, p: string, q: string)
    requires TabOk(t) && NoDup(t.paneIDs) && p in t.paneIDs
    ensures var z := TabReplaced(t, p, q);
            TabOk(z) && z.id == t.id && multiset(z.paneIDs) == multiset(t.paneIDs) - multiset{p} + multiset{q}
  {
    CountOnce(t.paneIDs, p);
    ReplaceSpec(t.layout, p, q);
    RenamedBag(t.paneIDs, p, q);
    assert multiset(Leaves(t.layout))[p] == 1;
    RenamedBag(Leaves(t.layout), p, q);
    hide ReplaceNode, Leaves, WellFormed, NoDup;
    var z := TabReplaced(t, p, q);
    var i :| 0 <= i < |t.paneIDs| && t.paneIDs[i] == t.activePane;
    assert z.paneIDs[i] == z.activePane;
  }

  // ---- panes that belong to no tab yet ----------------------------------------------------

  /** The core invariant but for pane `p`, which exists and is in no tab. */
  ghost predicate Spare(w: Workspace, p: string)
  {
    && CountersOk(w) && TabsOk(w.tabs) && IdsOk(IdBag(w.tabs), w.nextTabID)
    && PaneBag(w.tabs) + multiset{p} == multiset(w.panes.Keys)
    && forall q :: q in w.panes.Keys ==> Numbered(q, PANE_PREFIX, w.nextPaneID)
  }

  lemma KeysPlus(keys: set<string>, p: string)
    requires p !in keys
    ensures multiset(keys + {p}) == multiset(keys) + multiset{p}
  {}

  lemma KeysMinus(keys: set<string>, p: string)
    requires p in keys
    ensures multiset(keys - {p}) == multiset(keys) - multiset{p}
  {}

  /** A new pane's id was never used before. */
  lemma NewPaneSpare(w: Workspace, env: Env)
    requires Core(w)
    ensures var (v, id) := NewPane(w, env);
            && v.tabs == w.tabs && v.activeTab == w.activeTab && v.recentTabs == w.recentTabs && v.nextTabID == w.nextTabID
            && (id.Some? ==> id.value !in w.panes && Spare(v, id.value) && v.panes.Keys == w.panes.Keys + {id.value})
            && (id.None? ==> Core(v) && v.panes == w.panes)
  {
    var name := PaneName(w.nextPaneID);
    NameNumber(PANE_PREFIX, w.nextPaneID);
    hide TabsOk, IdsOk, PaneBag, IdBag, NumericID;
    if env.starts {
      KeysPlus(w.panes.Keys, name);
      assert NewPane(w, env).0.panes.Keys == w.panes.Keys + {name};
    }
  }

  lemma IdsOkNew(ids: multiset<string>, next: nat)
    requires IdsOk(ids, next) && next > 0
    ensures TabName(next) !in ids && IdsOk(ids + multiset{TabName(next)}, next + 1)
  {
    NameNumber(TAB_PREFIX, next);
    var name := TabName(next);
    var all := ids + multiset{name};
    forall id | id in all ensures all[id] == 1 && Numbered(id, TAB_PREFIX, next + 1) {
      assert id in ids || id == name;
    }
  }

  /** A spare pane gets its own tab, under a fresh id, which becomes active. */
  lemma AddTabKeeps(w: Workspace, source: string, title: string, p: string)
    requires Spare(w, p)
    ensures Inv(AddTab(w, source, title, p)) && AddTab(w, source, title, p).activeTab == TabName(w.nextTabID)
    ensures TabName(w.nextTabID) !in IdBag(w.tabs)
  {
    var tab := Tab(TabName(w.nextTabID), title, false, p, Leaf(p, 0.0), [p]);
    var i := InsertPosition(w, source);
    NewTabOk(p, tab.id, title);
    BagInsert(w.tabs, i, tab);
    TabsOkInsert(w.tabs, i, tab);
    IdsOkNew(IdBag(w.tabs), w.nextTabID);
    hide PaneBag, IdBag, TabsOk, IdsOk, InsertPosition, SetActive, Inv, TabOk;
    var v := w.(tabs := InsertAt(w.tabs, i, tab), nextTabID := w.nextTabID + 1);
    assert v.tabs[i] == tab;
    ActivateLive(v, i);
  }

  // ---- closing --------------------------------------------------------------------------

  lemma {:induction false} KeysWithout(keys: set<string>, ids: seq<string>)
    requires NoDup(ids) && forall p :: p in ids ==> p in keys
    ensures multiset(keys - (set p | p in ids)) == multiset(keys) - multiset(ids)
  {
    forall p ensures multiset(keys - (set q | q in ids))[p] == (multiset(keys) - multiset(ids))[p] {
      CountOnce(ids, p);
    }
  }

  /** The core invariant with tab `i` excused from its own. */
  ghost predicate CoreBut(w: Workspace, i: nat)
  {
    && i < |w.tabs| && CountersOk(w) && TabsOk(RemoveAt(w.tabs, i)) && IdsOk(IdBag(w.tabs), w.nextTabID)
    && PanesOk(w.tabs, w.panes.Keys, w.nextPaneID) && w.activeTab in IdBag(w.tabs)
  }

  lemma IdsOkLess(ids: multiset<string>, id: string, next: nat)
    requires IdsOk(ids + multiset{id}, next)
    ensures IdsOk(ids, next) && id !in ids
  {
    assert (ids + multiset{id})[id] == ids[id] + 1;
    assert id in ids + multiset{id};
    forall x | x in ids ensures ids[x] == 1 && Numbered(x, TAB_PREFIX, next) {
      assert x in ids + multiset{id};
    }
  }

  /** Without tab `i` and its panes the core invariant holds. */
  lemma ClosedCore(w: Workspace, i: nat)
    requires CoreBut(w, i)
    ensures var tab := w.tabs[i];
            Core(w.(panes := w.panes - (set p | p in tab.paneIDs), tabs := RemoveAt(w.tabs, i)))
  {
    hide PaneBag, IdBag, TabsOk, NoDup, Numbered;
    var ids := w.tabs[i].paneIDs;
    PanesOnce(w, i);
    KeysWithout(w.panes.Keys, ids);
    BagAt(w.tabs, i);
    var rest := RemoveAt(w.tabs, i);
    IdsOkLess(IdBag(rest), w.tabs[i].id, w.nextTabID);
    assert (w.panes - (set p | p in ids)).Keys == w.panes.Keys - (set p | p in ids);
    CancelBag(PaneBag(rest), multiset(ids));
  }

  lemma CancelBag(a: multiset<string>, b: multiset<string>)
    ensures a + b - b == a
  {}

  lemma CloseAtKeeps(w: Workspace, i: nat)
    requires CoreBut(w, i)
    ensures Inv(CloseAt(w, i)) && CloseAt(w, i).tabs == RemoveAt(w.tabs, i)
    ensures CloseAt(w, i).panes == w.panes - (set p | p in w.tabs[i].paneIDs)
  {
    hide PaneBag, IdBag, TabsOk, IdsOk, PanesOk, Inv, TakeRecent, Core, FindTab;
    ClosedCore(w, i);
    CloseActive(w, w.(panes := w.panes - (set p | p in w.tabs[i].paneIDs), tabs := RemoveAt(w.tabs, i)), i);
  }

  lemma CloseActive(w: Workspace, v: Workspace, i: nat)
    requires i < |w.tabs| && v.tabs == RemoveAt(w.tabs, i) && v.activeTab == w.activeTab && Core(v)
    requires w.activeTab in IdBag(w.tabs)
    ensures Inv(if w.activeTab == w.tabs[i].id then SetActive(v, if |v.tabs| > 0 then v.tabs[Min(i, |v.tabs| - 1)].id else "") else Prune(v))
  {
    hide PaneBag, IdBag, TabsOk, IdsOk, PanesOk, Inv, TakeRecent, Core, FindTab, SetActive, Prune;
    BagAt(w.tabs, i);
    if w.activeTab == w.tabs[i].id {
      if |v.tabs| > 0 { ActivateLive(v, Min(i, |v.tabs| - 1)); } else { NoTabs(v); }
    } else {
      assert w.activeTab in IdBag(v.tabs);
      StillActive(v);
    }
  }

  lemma StillActive(v: Workspace)
    requires Core(v) && v.activeTab in IdBag(v.tabs)
    ensures Inv(Prune(v))
  {
    hide TabsOk, IdsOk, PanesOk;
    PruneKeeps(v);
  }

  lemma NoTabs(v: Workspace)
    requires Core(v) && v.tabs == []
    ensures Inv(SetActive(v, ""))
  {
    SetActiveKeeps(v, "");
  }

  lemma InvCoreBut(w: Workspace, i: nat)
    requires Inv(w) && i < |w.tabs|
    ensures CoreBut(w, i) && Core(w)
  {
    TabsOkRemove(w.tabs, i);
    hide PanesOk, IdsOk, TabsOk;
  }

  lemma FoundTab(w: Workspace, i: nat)
    requires IdsOk(IdBag(w.tabs), w.nextTabID) && i < |w.tabs|
    ensures FindTab(w.tabs, w.tabs[i].id) == Some(i)
  {
    var id := w.tabs[i].id;
    BagAt(w.tabs, i);
    FoundInBag(w.tabs, id);
    var j := FindTab(w.tabs, id).value;
    if j != i {
      IdsOkLess(IdBag(RemoveAt(w.tabs, i)), id, w.nextTabID);
      var rest := RemoveAt(w.tabs, i);
      assert rest[j] == w.tabs[j];
      BagAt(rest, j);
      assert false;
    }
  }

  lemma ClosePaneKeeps(w: Workspace, i: nat, p: string)
    requires Inv(w) && i < |w.tabs|
    ensures Inv(ClosePaneAt(w, i, p).0)
    ensures ClosePaneAt(w, i, p).1 == if p in w.tabs[i].paneIDs then Done else Failed(PaneNotFound)
  {
    hide TabsOk, IdsOk, PanesOk, TabWithout, Prune, SetActive, CloseAt, ActiveOk, TabOk, IdBag;
    if p in w.tabs[i].paneIDs {
      InvCoreBut(w, i);
      WithoutPane(w, i, p);
      var tab := TabWithout(w.tabs[i], p);
      var v := w.(panes := w.panes - {p}, tabs := w.tabs[i := tab]);
      if tab.paneIDs == [] || tab.layout == Nil {
        FoundTab(v, i);
        CloseAtKeeps(v, i);
      } else {
        InvIsActive(w);
        SameTabs(w, v, i);
      }
    }
  }

  lemma InvIsActive(w: Workspace)
    requires Inv(w)
    ensures ActiveOk(w) && Core(w)
  {
    hide TabsOk, IdsOk, PanesOk, ActiveOk;
  }

  /** Replacing a tab under the same id keeps what refers to tabs. */
  lemma SameTabs(w: Workspace, v: Workspace, i: nat)
    requires Inv(w) && Core(v) && i < |w.tabs| == |v.tabs| && IdBag(v.tabs) == IdBag(w.tabs)
    requires v.activeTab == w.activeTab && v.recentTabs == w.recentTabs
    ensures Inv(v)
  {
    hide TabsOk, IdsOk, PanesOk, IdBag;
  }

  /** Tab `i` without pane `p`, and the workspace without it. */
  lemma WithoutPane(w: Workspace, i: nat, p: string)
    requires Core(w) && i < |w.tabs| && p in w.tabs[i].paneIDs && w.activeTab in IdBag(w.tabs)
    ensures var t := TabWithout(w.tabs[i], p);
            var v := w.(panes := w.panes - {p}, tabs := w.tabs[i := t]);
            && t.id == w.tabs[i].id && IdBag(v.tabs) == IdBag(w.tabs) && CoreBut(v, i)
            && (t.paneIDs == [] <==> t.layout == Nil)
            && (t.paneIDs != [] ==> Core(v) && Spare(w.(tabs := v.tabs), p))
            && PaneBag(v.tabs) + multiset{p} == PaneBag(w.tabs)
  {
    hide PaneBag, IdBag, TabWithout, TabOk, IdsOk, TabsOk, NoDup, Numbered;
    var t := TabWithout(w.tabs[i], p);
    PanesOnce(w, i);
    OneTabOk(w, i);
    TabWithoutOk(w.tabs[i], p);
    BagAt(w.tabs, i);
    BagReplace(w.tabs, i, t);
    TabsOkRemove(w.tabs, i);
    KeysMinus(w.panes.Keys, p);
    assert (w.panes - {p}).Keys == w.panes.Keys - {p};
    assert RemoveAt(w.tabs[i := t], i) == RemoveAt(w.tabs, i);
    TakeOne(PaneBag(RemoveAt(w.tabs, i)), multiset(w.tabs[i].paneIDs), p);
    if t.paneIDs != [] {
      TabsOkReplace(w.tabs, i, t);
    }
  }

  lemma OneTabOk(w: Workspace, i: nat)
    requires TabsOk(w.tabs) && i < |w.tabs|
    ensures TabOk(w.tabs[i])
  {}

  lemma TakeOne(rest: multiset<string>, ids: multiset<string>, p: string)
    requires p in ids
    ensures rest + (ids - multiset{p}) + multiset{p} == rest + ids
    ensures rest + (ids - multiset{p}) == rest + ids - multiset{p}
  {}

  // ---- the actions ------------------------------------------------------------------------

  lemma CloseTabKeeps(w: Workspace, id: string)
    requires Inv(w)
    ensures Inv(CloseTabOf(w, id).0)
  {
    hide Inv, CloseAt;
    match FindTab(w.tabs, id)
    case None =>
    case Some(i) =>
      InvCoreBut(w, i);
      CloseAtKeeps(w, i);
  }

  /** The tabs with the given id. */
  function Only(tabs: seq<Tab>, id: string): seq<Tab>
  {
    if tabs == [] then []
    else Only(tabs[..|tabs| - 1], id) + (if tabs[|tabs| - 1].id == id then [tabs[|tabs| - 1]] else [])
  }

  lemma {:induction false} CloseOthersKeeps(w: Workspace, id: string, n: nat)
    requires Inv(w) && n <= |w.tabs|
    ensures var z := CloseOthers(w, id, n);
            Inv(z) && z.tabs == Only(w.tabs[..n], id) + w.tabs[n..]
    decreases n
  {
    hide Inv, CloseAt, CloseOthers, Only, RemoveAt, FindTab, CoreBut, Core, IdsOk, IdBag;
    CloseOthersUnfold(w, id, n);
    OnlySnoc(w.tabs, n, id);
    if n > 0 {
      var k, front := n - 1, w.tabs[..n - 1];
      if w.tabs[k].id != id {
        InvCoreBut(w, k);
        CoreButIds(w, k);
        FoundTab(w, k);
        CloseAtKeeps(w, k);
        RemovedParts(w.tabs, k);
        CloseOthersKeeps(CloseAt(w, k), id, k);
      } else {
        CloseOthersKeeps(w, id, k);
        Assoc(Only(front, id), [w.tabs[k]], w.tabs[n..]);
      }
    } else {
      Empty(w.tabs);
    }
  }

  lemma RemovedParts(tabs: seq<Tab>, k: nat)
    requires k < |tabs|
    ensures RemoveAt(tabs, k)[..k] == tabs[..k] && RemoveAt(tabs, k)[k..] == tabs[k + 1..] && |RemoveAt(tabs, k)| == |tabs| - 1
  {}

  /** The last of the first `n` tabs. */
  lemma OnlySnoc(tabs: seq<Tab>, n: nat, id: string)
    requires n <= |tabs|
    ensures n == 0 ==> Only(tabs[..n], id) == []
    ensures n > 0 && tabs[n - 1].id != id ==> Only(tabs[..n], id) == Only(tabs[..n - 1], id)
    ensures n > 0 && tabs[n - 1].id == id ==> Only(tabs[..n], id) == Only(tabs[..n - 1], id) + [tabs[n - 1]]
    ensures n > 0 ==> [tabs[n - 1]] + tabs[n..] == tabs[n - 1..]
  {
    if n > 0 {
      TakeTwice(tabs, n, n - 1);
      Empty(Only(tabs[..n - 1], id));
    }
  }

  lemma CoreButIds(w: Workspace, i: nat)
    requires CoreBut(w, i)
    ensures IdsOk(IdBag(w.tabs), w.nextTabID)
  {
    hide IdsOk;
  }

  lemma CloseOthersUnfold(w: Workspace, id: string, n: nat)
    requires n <= |w.tabs|
    ensures n == 0 ==> CloseOthers(w, id, n) == w
    ensures n > 0 && w.tabs[n - 1].id != id ==> CloseOthers(w, id, n) == CloseOthers(CloseTabOf(w, w.tabs[n - 1].id).0, id, n - 1)
    ensures n > 0 && w.tabs[n - 1].id == id ==> CloseOthers(w, id, n) == CloseOthers(w, id, n - 1)
  {
    hide CloseTabOf;
  }

  lemma {:induction false} OnlyOne(tabs: seq<Tab>, i: nat)
    requires i < |tabs| && IdBag(tabs)[tabs[i].id] == 1
    ensures Only(tabs, tabs[i].id) == [tabs[i]]
  {
    hide IdBag, PaneBag, RemoveAt;
    var id := tabs[i].id;
    var front, t := tabs[..|tabs| - 1], tabs[|tabs| - 1];
    Uncons(tabs);
    IdBagAppend(front, [t]);
    BagOne(t);
    if i < |front| {
      assert front[i] == tabs[i];
      BagAt(front, i);
      assert IdBag(front)[id] >= 1;
      OnlyOne(front, i);
      Empty([tabs[i]]);
    } else {
      OnlyNone(front, id);
    }
  }

  lemma {:induction false} OnlyNone(tabs: seq<Tab>, id: string)
    requires id !in IdBag(tabs)
    ensures Only(tabs, id) == []
  {
    if tabs != [] {
      var front, t := tabs[..|tabs| - 1], tabs[|tabs| - 1];
      assert tabs == front + [t];
      IdBagAppend(front, [t]);
      BagOne(t);
      OnlyNone(front, id);
    }
  }

  /** Closing the others leaves exactly the one tab, its panes, and it is active. */
  lemma CloseOtherTabsKeeps(w: Workspace, id: string)
    requires Inv(w)
    ensures var (z, outcome) := CloseOtherTabsOf(w, id);
            && Inv(z)
            && (outcome == Done <==> FindTab(w.tabs, id).Some?)
            && (outcome == Done ==> z.tabs == [w.tabs[FindTab(w.tabs, id).value]] && z.activeTab == id)
  {
    hide Inv, SetActive, CloseOthers, IdBag, FindTab;
    match FindTab(w.tabs, id)
    case None =>
    case Some(i) =>
      TabFound(w, id, i);
      CloseOthersKeeps(w, id, |w.tabs|);
      InvCoreBut(w, i);
      CoreButIds(w, i);
      BagAt(w.tabs, i);
      assert id in IdBag(w.tabs) && IdBag(w.tabs)[id] == 1;
      OnlyOne(w.tabs, i);
      assert w.tabs[..|w.tabs|] == w.tabs && w.tabs[|w.tabs|..] == [];
      var v := CloseOthers(w, id, |w.tabs|);
      assert v.tabs == [w.tabs[i]] + [] == [w.tabs[i]];
      InvIsActive(v);
      ActivateLive(v, 0);
      SetActiveTabs(v, id);
  }

  lemma TabFound(w: Workspace, id: string, i: nat)
    requires FindTab(w.tabs, id) == Some(i)
    ensures i < |w.tabs| && w.tabs[i].id == id
  {}

  lemma SetActiveTabs(w: Workspace, id: string)
    ensures SetActive(w, id).tabs == w.tabs && SetActive(w, id).panes == w.panes
  {
    hide TakeRecent, FindTab, TrimSpace;
  }

  /** Replacing a tab by one with the same id and panes. */
  lemma ReplaceTabKeeps(w: Workspace, i: nat, t: Tab)
    requires Inv(w) && i < |w.tabs| && TabOk(t) && t.id == w.tabs[i].id && multiset(t.paneIDs) == multiset(w.tabs[i].paneIDs)
    ensures Inv(w.(tabs := w.tabs[i := t]))
  {
    hide PaneBag, IdBag, TabsOk, TabOk, IdsOk, ActiveOk, RecentOk, Numbered;
    var v := w.(tabs := w.tabs[i := t]);
    BagAt(w.tabs, i);
    BagReplace(w.tabs, i, t);
    TabsOkReplace(w.tabs, i, t);
    SameTabs(w, v, i);
  }

  /** Replacing a tab by one that also holds the spare pane `p`. */
  lemma TakeSpare(w: Workspace, i: nat, t: Tab, p: string)
    requires Spare(w, p) && i < |w.tabs| && TabOk(t) && t.id == w.tabs[i].id
    requires multiset(t.paneIDs) == multiset(w.tabs[i].paneIDs) + multiset{p}
    ensures Core(w.(tabs := w.tabs[i := t]))
  {
    hide PaneBag, IdBag, TabsOk, TabOk, IdsOk, Numbered;
    BagAt(w.tabs, i);
    BagReplace(w.tabs, i, t);
    TabsOkReplace(w.tabs, i, t);
    BagAssoc(PaneBag(RemoveAt(w.tabs, i)), multiset(w.tabs[i].paneIDs), multiset{p});
  }

  lemma SplitKeeps(w: Workspace, id: string, p: string, direction: Direction, env: Env)
    requires Inv(w)
    ensures Inv(SplitPaneOf(w, id, p, direction, env).0)
  {
    hide Inv, FindTab, Spare, SetActive, TabSplit, TabOk, NewPane, Core, TabsOk;
    InvIsActive(w);
    NewPaneSpare(w, env);
    match FindTab(w.tabs, id)
    case None =>
    case Some(i) =>
      TabFound(w, id, i);
      if p in w.tabs[i].paneIDs && IsDirection(direction) {
        var (v, pane) := NewPane(w, env);
        if pane.Some? {
          OneTabInv(w, i);
          TabSplitOk(w.tabs[i], p, direction, pane.value);
          var t := TabSplit(w.tabs[i], p, direction, pane.value);
          TakeSpare(v, i, t, pane.value);
          ActivateLive(v.(tabs := v.tabs[i := t]), i);
        } else {
          StartFailedKeeps(w, v);
        }
      }
  }

  lemma OneTabInv(w: Workspace, i: nat)
    requires Inv(w) && i < |w.tabs|
    ensures TabOk(w.tabs[i]) && NoDup(w.tabs[i].paneIDs)
    ensures forall p :: p in w.tabs[i].paneIDs ==> p in w.panes
  {
    hide TabOk, IdsOk;
    PanesOnce(w, i);
  }

  /** A pane that did not start only costs its number. */
  lemma StartFailedKeeps(w: Workspace, v: Workspace)
    requires Inv(w) && Core(v) && v.tabs == w.tabs && v.activeTab == w.activeTab && v.recentTabs == w.recentTabs
    ensures Inv(v)
  {
    hide TabsOk, IdsOk, PanesOk;
  }

  lemma RestartKeeps(w: Workspace, id: string, p: string, env: Env)
    requires Inv(w)
    ensures Inv(RestartPaneOf(w, id, p, env).0)
  {
    hide Inv, FindTab, Spare, SetActive, TabReplaced, TabOk, NewPane, Core, TabsOk, NoDup;
    InvIsActive(w);
    NewPaneSpare(w, env);
    match FindTab(w.tabs, id)
    case None =>
    case Some(i) =>
      TabFound(w, id, i);
      if p in w.panes && p in w.tabs[i].paneIDs && w.panes[p].exited {
        var (v, pane) := NewPane(w, env);
        if pane.Some? {
          OneTabInv(w, i);
          TabReplacedOk(w.tabs[i], p, pane.value);
          ReplacedCore(v, i, p, pane.value);
          ActivateLive(v.(tabs := v.tabs[i := TabReplaced(v.tabs[i], p, pane.value)], panes := v.panes - {p}), i);
        } else {
          StartFailedKeeps(w, v);
        }
      }
  }

  /** The new pane takes the place of the old one, which is gone. */
  lemma ReplacedCore(v: Workspace, i: nat, p: string, q: string)
    requires Spare(v, q) && i < |v.tabs| && p in v.tabs[i].paneIDs && p in v.panes && p != q
    requires var t := TabReplaced(v.tabs[i], p, q);
             TabOk(t) && t.id == v.tabs[i].id && multiset(t.paneIDs) == multiset(v.tabs[i].paneIDs) - multiset{p} + multiset{q}
    ensures Core(v.(tabs := v.tabs[i := TabReplaced(v.tabs[i], p, q)], panes := v.panes - {p}))
  {
    hide PaneBag, IdBag, TabsOk, TabOk, IdsOk, Numbered, TabReplaced;
    var t := TabReplaced(v.tabs[i], p, q);
    BagAt(v.tabs, i);
    BagReplace(v.tabs, i, t);
    TabsOkReplace(v.tabs, i, t);
    KeysMinus(v.panes.Keys, p);
    assert (v.panes - {p}).Keys == v.panes.Keys - {p};
    ExchangeOne(PaneBag(RemoveAt(v.tabs, i)), multiset(v.tabs[i].paneIDs), p, q);
  }

  lemma ExchangeOne(rest: multiset<string>, ids: multiset<string>, p: string, q: string)
    requires p in ids
    ensures rest + (ids - multiset{p} + multiset{q}) == rest + ids + multiset{q} - multiset{p}
  {}

  lemma CreateTabKeeps(w: Workspace, source: string, env: Env)
    requires Inv(w)
    ensures Inv(CreateTabOf(w, source, env).0)
  {
    hide Inv, Spare, AddTab, NewPane, Core;
    InvIsActive(w);
    NewPaneSpare(w, env);
    var (v, pane) := NewPane(w, env);
    if pane.Some? {
      AddTabKeeps(v, source, if env.pathLabel == "" then "Shell " + Decimal(v.nextTabID) else env.pathLabel, pane.value);
    } else {
      StartFailedKeeps(w, v);
    }
  }

  lemma MovePaneKeeps(w: Workspace, id: string, p: string)
    requires Inv(w)
    ensures Inv(MovePaneToTabOf(w, id, p).0)
  {
    hide Inv, FindTab, Spare, AddTab, TabWithout, Core, CoreBut, IdBag, PaneBag;
    match FindTab(w.tabs, id)
    case None =>
    case Some(i) =>
      TabFound(w, id, i);
      if |w.tabs[i].paneIDs| > 1 && p in w.tabs[i].paneIDs {
        InvCoreBut(w, i);
        InvActiveIn(w, i);
        WithoutPane(w, i, p);
        OneTabInv(w, i);
        MoreThanOne(w.tabs[i], p);
        AddTabKeeps(w.(tabs := w.tabs[i := TabWithout(w.tabs[i], p)]), w.tabs[i].id,
                    w.tabs[i].title + " " + Decimal(|w.tabs| + 1), p);
      }
  }

  lemma InvActiveIn(w: Workspace, i: nat)
    requires Inv(w) && i < |w.tabs|
    ensures w.activeTab in IdBag(w.tabs)
  {}

  lemma MoreThanOne(t: Tab, p: string)
    requires TabOk(t) && NoDup(t.paneIDs) && p in t.paneIDs && |t.paneIDs| > 1
    ensures TabWithout(t, p).paneIDs != []
  {
    hide TabOk, NoDup, TabWithout;
    TabWithoutOk(t, p);
    assert |multiset(t.paneIDs)| == |t.paneIDs| && |multiset(t.paneIDs) - multiset{p}| == |t.paneIDs| - 1;
  }

  /** Moving a tab to another place. */
  lemma MovedKeeps(w: Workspace, i: nat, target: nat)
    requires Core(w) && i < |w.tabs| && target < |w.tabs|
    ensures var v := w.(tabs := InsertAt(RemoveAt(w.tabs, i), target, w.tabs[i]));
            Core(v) && IdBag(v.tabs) == IdBag(w.tabs) && v.tabs[target] == w.tabs[i]
  {
    hide PaneBag, IdBag, TabsOk, IdsOk, Numbered;
    var rest := RemoveAt(w.tabs, i);
    BagAt(w.tabs, i);
    BagInsert(rest, target, w.tabs[i]);
    TabsOkRemove(w.tabs, i);
    OneTabOk(w, i);
    TabsOkInsert(rest, target, w.tabs[i]);
  }

  lemma MoveTabKeeps(w: Workspace, id: string, position: Position)
    requires Inv(w)
    ensures Inv(MoveTabOf(w, id, position).0)
  {
    hide Inv, FindTab, SetActive, Core, IdBag;
    InvIsActive(w);
    match FindTab(w.tabs, id)
    case None =>
    case Some(i) =>
      TabFound(w, id, i);
      match TargetIndex(i, |w.tabs|, position)
      case None =>
      case Some(target) =>
        if target != i {
          MovedKeeps(w, i, target);
          ActivateLive(w.(tabs := InsertAt(RemoveAt(w.tabs, i), target, w.tabs[i])), target);
        }
  }

  lemma ReorderKeeps(w: Workspace, id: string, before: string)
    requires Inv(w)
    ensures Inv(ReorderTabOf(w, id, before).0)
  {
    hide Inv, Core, IdBag, TrimSpace;
    InvIsActive(w);
    match FindTab(w.tabs, TrimSpace(id))
    case None =>
    case Some(i) =>
      var (z, outcome) := ReorderTabOf(w, id, before);
      if outcome == Done {
        var rest := RemoveAt(w.tabs, i);
        var b := TrimSpace(before);
        var target := if b == "" || FindTab(rest, b).None? then |rest| else FindTab(rest, b).value;
        MovedKeeps(w, i, target);
        SameIds(w, z);
      }
  }

  lemma SameIds(w: Workspace, z: Workspace)
    requires Inv(w) && Core(z) && IdBag(z.tabs) == IdBag(w.tabs) && |z.tabs| == |w.tabs|
    requires z.activeTab == w.activeTab && z.recentTabs == w.recentTabs
    ensures Inv(z)
  {
    hide TabsOk, IdsOk, PanesOk, IdBag;
  }

  lemma ActivateTabKeeps(w: Workspace, id: string, recent: Option<seq<string>>)
    requires Inv(w)
    ensures Inv(ActivateTabOf(w, id, recent).0)
  {
    hide Inv, FindTab, SetActive, Core, IdBag, TakeRecent, RecentOk;
    InvIsActive(w);
    match FindTab(w.tabs, id)
    case None =>
    case Some(i) =>
      TabFound(w, id, i);
      match recent
      case None => ActivateLive(w, i);
      case Some(ids) =>
        NoRecent(w.tabs);
        TakeRecentOk(w.tabs, [], [w.tabs[i].id] + ids);
        BagAt(w.tabs, i);
        WithRecent(w, TakeRecent(w.tabs, [], [w.tabs[i].id] + ids), w.tabs[i].id);
  }

  lemma WithRecent(w: Workspace, recent: seq<string>, id: string)
    requires Core(w) && RecentOk(recent, IdBag(w.tabs)) && id in IdBag(w.tabs)
    ensures Inv(w.(recentTabs := recent, activeTab := id))
  {
    hide TabsOk, IdsOk, PanesOk, RecentOk;
  }

  lemma ActivatePaneKeeps(w: Workspace, id: string, p: string)
    requires Inv(w)
    ensures Inv(ActivatePaneOf(w, id, p).0)
  {
    hide Inv, FindTab, SetActive, Core;
    match FindTab(w.tabs, id)
    case None =>
    case Some(i) =>
      TabFound(w, id, i);
      if p in w.tabs[i].paneIDs {
        OneTabInv(w, i);
        ReplaceTabKeeps(w, i, w.tabs[i].(activePane := p));
        var v := w.(tabs := w.tabs[i := w.tabs[i].(activePane := p)]);
        InvIsActive(v);
        ActivateLive(v, i);
      }
  }

  lemma UpdateLayoutKeeps(w: Workspace, id: string, layout: LayoutNode, active: string)
    requires Inv(w)
    ensures Inv(UpdateLayoutOf(w, id, layout, active).0)
  {
    hide Inv, FindTab, ValidateLayout, WellFormed, Leaves, Clamped, Shape;
    match FindTab(w.tabs, id)
    case None =>
    case Some(i) =>
      TabFound(w, id, i);
      OneTabInv(w, i);
      LayoutAccepted(layout, w.tabs[i].paneIDs);
      var r := ValidateLayout(layout, w.tabs[i].paneIDs);
      if r.Good? && layout != Nil {
        var t := w.tabs[i].(layout := r.value);
        ReplaceTabKeeps(w, i, t);
        if active in w.tabs[i].paneIDs {
          var v := w.(tabs := w.tabs[i := t]);
          ReplaceTabKeeps(v, i, t.(activePane := active));
        }
      }
  }

  lemma RenameKeeps(w: Workspace, id: string, title: string)
    requires Inv(w)
    ensures Inv(RenameTabOf(w, id, title).0)
  {
    hide Inv, FindTab, TrimSpace;
    match FindTab(w.tabs, id)
    case None =>
    case Some(i) =>
      TabFound(w, id, i);
      OneTabInv(w, i);
      ReplaceTabKeeps(w, i, w.tabs[i].(title := TrimSpace(title), customLabel := true));
  }

  lemma ClosePaneOfKeeps(w: Workspace, id: string, p: string)
    requires Inv(w)
    ensures Inv(ClosePaneOf(w, id, p).0)
  {
    hide Inv, ClosePaneAt, FindTab;
    match FindTab(w.tabs, id)
    case None =>
    case Some(i) =>
      TabFound(w, id, i);
      ClosePaneKeeps(w, i, p);
  }

  lemma ApplyKeeps(w: Workspace, action: Action, env: Env)
    requires Inv(w)
    ensures Inv(Apply(w, action, env).0)
  {
    hide Inv, CreateTabOf, RenameTabOf, CloseTabOf, CloseOtherTabsOf, SplitPaneOf, ClosePaneOf, RestartPaneOf, MovePaneToTabOf,
         MoveTabOf, ReorderTabOf, ActivateTabOf, ActivatePaneOf, UpdateLayoutOf;
    match action
    case CreateTab(tabID, _) => CreateTabKeeps(w, tabID, env);
    case RenameTab(tabID, title) => RenameKeeps(w, tabID, title);
    case CloseTab(tabID) => CloseTabKeeps(w, tabID);
    case CloseOtherTabs(tabID) => CloseOtherTabsKeeps(w, tabID);
    case SplitPane(tabID, paneID, direction) => SplitKeeps(w, tabID, paneID, direction, env);
    case ClosePane(tabID, paneID) => ClosePaneOfKeeps(w, tabID, paneID);
    case RestartPane(tabID, paneID) => RestartKeeps(w, tabID, paneID, env);
    case MovePaneToTab(tabID, paneID) => MovePaneKeeps(w, tabID, paneID);
    case MoveTab(tabID, position) => MoveTabKeeps(w, tabID, position);
    case ReorderTab(tabID, beforeTabID) => ReorderKeeps(w, tabID, beforeTabID);
    case ActivateTab(tabID, recentTabIDs) => ActivateTabKeeps(w, tabID, recentTabIDs);
    case ActivatePane(tabID, paneID) => ActivatePaneKeeps(w, tabID, paneID);
    case UpdateLayout(tabID, layout, activePaneID) => UpdateLayoutKeeps(w, tabID, layout, activePaneID);
    case OtherAction(_) =>
  }

  // ---- every run ------------------------------------------------------------------------

  datatype Event =
    | Do(action: Action, env: Env)
    | PaneExited(paneID: string)
    | Retain(paneID: string, exitCode: int)
    | RemoveAfterExit(paneID: string)
    | DirectoryChanged(paneID: string, cwd: string)
    | CloseAll

  function Step(w: Workspace, e: Event): Workspace
  {
    match e
    case Do(action, env) => Apply(w, action, env).0
    case PaneExited(p) => ExitOf(w, p)
    case Retain(p, exitCode) => RetainOf(w, p, exitCode).0
    case RemoveAfterExit(p) => RemoveAfterExitOf(w, p)
    case DirectoryChanged(p, cwd) => if p in w.panes then w.(panes := w.panes[p := w.panes[p].(cwd := cwd)]) else w
    case CloseAll => CloseAllOf(w)
  }

  function Run(w: Workspace, events: seq<Event>): Workspace
  {
    if events == [] then w else Step(Run(w, events[..|events| - 1]), events[|events| - 1])
  }

  /** Changing what is known about a pane. */
  lemma SamePanes(w: Workspace, z: Workspace)
    requires Inv(w) && z == w.(panes := z.panes) && z.panes.Keys == w.panes.Keys
    ensures Inv(z)
  {
    hide TabsOk, IdsOk, PanesOk, RecentOk;
  }

  lemma UpdateKeys(panes: map<string, PaneInfo>, p: string, info: PaneInfo)
    requires p in panes
    ensures panes[p := info].Keys == panes.Keys
  {}

  lemma CloseAllKeeps(w: Workspace)
    requires Inv(w)
    ensures Inv(CloseAllOf(w))
  {
    BagNothing();
  }

  lemma StepKeeps(w: Workspace, e: Event)
    requires Inv(w)
    ensures Inv(Step(w, e))
  {
    hide Inv, Apply, ClosePaneAt, FindPaneTab;
    match e
    case Do(action, env) => ApplyKeeps(w, action, env);
    case PaneExited(p) =>
      if p in w.panes { UpdateKeys(w.panes, p, w.panes[p].(exited := true)); }
      SamePanes(w, Step(w, e));
    case Retain(p, exitCode) =>
      if p in w.panes { UpdateKeys(w.panes, p, w.panes[p].(retained := true)); }
      SamePanes(w, Step(w, e));
    case RemoveAfterExit(p) =>
      match FindPaneTab(w.tabs, p) {
        case None =>
        case Some(i) => ClosePaneKeeps(w, i, p);
      }
    case DirectoryChanged(p, cwd) =>
      if p in w.panes { UpdateKeys(w.panes, p, w.panes[p].(cwd := cwd)); }
      SamePanes(w, Step(w, e));
    case CloseAll => CloseAllKeeps(w);
  }

  lemma NewWorkspaceOk()
    ensures Inv(NEW_WORKSPACE)
  {
    BagNothing();
  }

  /** After any actions, exits and removals the workspace is consistent. */
  lemma {:induction false} RunKeeps(w: Workspace, events: seq<Event>)
    requires Inv(w)
    ensures Inv(Run(w, events))
  {
    hide Inv, Step;
    if events != [] {
      RunKeeps(w, events[..|events| - 1]);
      StepKeeps(Run(w, events[..|events| - 1]), events[|events| - 1]);
    }
  }
}
