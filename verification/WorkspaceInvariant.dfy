/** What every workspace operation keeps. */
module WorkspaceInvariant {
  import opened Bytes
  import opened Names
  import opened Layout
  import opened LayoutCheck
  import opened Workspace

  // ---- the invariant ------------------------------------------------------------------

  /** The layout shows exactly the tab's panes, and the active pane is one of them. */
  ghost predicate TabOk(t: Tab)
  {
    WellFormed(t.layout) && multiset(Leaves(t.layout)) == multiset(t.paneIDs) && t.activePane in t.paneIDs
  }

  ghost predicate TabsOk(tabs: seq<Tab>)
  {
    forall i :: 0 <= i < |tabs| ==> TabOk(tabs[i])
  }

  function PaneBag(tabs: seq<Tab>): multiset<string>
  {
    if tabs == [] then multiset{} else multiset(tabs[0].paneIDs) + PaneBag(tabs[1..])
  }

  function IdBag(tabs: seq<Tab>): multiset<string>
  {
    if tabs == [] then multiset{} else multiset{tabs[0].id} + IdBag(tabs[1..])
  }

  /** Every tab has its own id, older than the counter. */
  ghost predicate IdsOk(ids: multiset<string>, next: nat)
  {
    forall id :: id in ids ==> ids[id] == 1 && Numbered(id, TAB_PREFIX, next)
  }

  predicate Numbered(id: string, prefix: string, next: nat)
  {
    NumericID(id, prefix).Some? && NumericID(id, prefix).value < next
  }

  /** The tabs partition the panes: each pane is in exactly one tab, once. */
  ghost predicate PanesOk(tabs: seq<Tab>, panes: set<string>, next: nat)
  {
    && PaneBag(tabs) == multiset(panes)
    && forall p :: p in panes ==> Numbered(p, PANE_PREFIX, next)
  }

  ghost predicate ActiveOk(w: Workspace)
  {
    if w.tabs == [] then w.activeTab == "" else w.activeTab in IdBag(w.tabs)
  }

  predicate RecentOk(recent: seq<string>, ids: multiset<string>)
  {
    && |recent| <= 2 && (forall i :: 0 <= i < |recent| ==> recent[i] in ids)
    && (|recent| == 2 ==> recent[0] != recent[1])
  }

  ghost predicate CountersOk(w: Workspace)
  {
    w.nextTabID > 0 && w.nextPaneID > 0
  }

  ghost predicate Inv(w: Workspace)
  {
    && CountersOk(w) && TabsOk(w.tabs) && IdsOk(IdBag(w.tabs), w.nextTabID) && PanesOk(w.tabs, w.panes.Keys, w.nextPaneID)
    && ActiveOk(w) && RecentOk(w.recentTabs, IdBag(w.tabs))
  }

  /** All of it except for the active and recent tabs. */
  ghost predicate Core(w: Workspace)
  {
    CountersOk(w) && TabsOk(w.tabs) && IdsOk(IdBag(w.tabs), w.nextTabID) && PanesOk(w.tabs, w.panes.Keys, w.nextPaneID)
  }

  // ---- bags ---------------------------------------------------------------------------

  lemma BagAssoc(a: multiset<string>, b: multiset<string>, c: multiset<string>)
    ensures a + (b + c) == (a + b) + c
  {}

  lemma BagSwap(a: multiset<string>, b: multiset<string>, c: multiset<string>)
    ensures a + b + c == a + c + b
  {}

  lemma {:induction false} PaneBagAppend(a: seq<Tab>, b: seq<Tab>)
    ensures PaneBag(a + b) == PaneBag(a) + PaneBag(b)
  {
    hide PaneBag;
    if a == [] {
      BagNothing();
      assert a + b == b;
    } else {
      var t, rest := a[0], a[1..];
      assert a == [t] + rest && a + b == [t] + (rest + b);
      PaneBagAppend(rest, b);
      BagCons(t, rest);
      BagCons(t, rest + b);
      BagAssoc(multiset(t.paneIDs), PaneBag(rest), PaneBag(b));
    }
  }

  lemma BagNothing()
    ensures PaneBag([]) == multiset{} && IdBag([]) == multiset{}
  {}

  lemma BagCons(t: Tab, tabs: seq<Tab>)
    ensures PaneBag([t] + tabs) == multiset(t.paneIDs) + PaneBag(tabs)
    ensures IdBag([t] + tabs) == multiset{t.id} + IdBag(tabs)
  {
    assert ([t] + tabs)[1..] == tabs;
  }

  lemma {:induction false} IdBagAppend(a: seq<Tab>, b: seq<Tab>)
    ensures IdBag(a + b) == IdBag(a) + IdBag(b)
  {
    hide IdBag;
    if a == [] {
      BagNothing();
      assert a + b == b;
    } else {
      var t, rest := a[0], a[1..];
      assert a == [t] + rest && a + b == [t] + (rest + b);
      IdBagAppend(rest, b);
      BagCons(t, rest);
      BagCons(t, rest + b);
      BagAssoc(multiset{t.id}, IdBag(rest), IdBag(b));
    }
  }

  lemma BagAppend(a: seq<Tab>, b: seq<Tab>)
    ensures PaneBag(a + b) == PaneBag(a) + PaneBag(b) && IdBag(a + b) == IdBag(a) + IdBag(b)
  {
    PaneBagAppend(a, b);
    IdBagAppend(a, b);
  }

  lemma BagOne(t: Tab)
    ensures PaneBag([t]) == multiset(t.paneIDs) && IdBag([t]) == multiset{t.id}
  {
    assert [t][1..] == [];
  }

  lemma AroundOne(tabs: seq<Tab>, i: nat)
    requires i < |tabs|
    ensures tabs[..i] + [tabs[i]] + tabs[i + 1..] == tabs
  {}

  /** Removing, inserting and replacing one tab. */
  lemma BagAt(tabs: seq<Tab>, i: nat)
    requires i < |tabs|
    ensures PaneBag(tabs) == PaneBag(RemoveAt(tabs, i)) + multiset(tabs[i].paneIDs)
    ensures IdBag(tabs) == IdBag(RemoveAt(tabs, i)) + multiset{tabs[i].id}
  {
    hide PaneBag, IdBag;
    var a, b := tabs[..i], tabs[i + 1..];
    AroundOne(tabs, i);
    BagOne(tabs[i]);
    BagAppend(a, [tabs[i]]);
    BagAppend(a + [tabs[i]], b);
    BagAppend(a, b);
    BagSwap(PaneBag(a), multiset(tabs[i].paneIDs), PaneBag(b));
    BagSwap(IdBag(a), multiset{tabs[i].id}, IdBag(b));
  }

  lemma BagInsert(tabs: seq<Tab>, i: nat, t: Tab)
    requires i <= |tabs|
    ensures PaneBag(InsertAt(tabs, i, t)) == PaneBag(tabs) + multiset(t.paneIDs)
    ensures IdBag(InsertAt(tabs, i, t)) == IdBag(tabs) + multiset{t.id}
  {
    hide PaneBag, IdBag;
    var z := InsertAt(tabs, i, t);
    BagAt(z, i);
    assert RemoveAt(z, i) == tabs[..i] + tabs[i..] == tabs;
  }

  lemma BagReplace(tabs: seq<Tab>, i: nat, t: Tab)
    requires i < |tabs|
    ensures var z := tabs[i := t];
            && PaneBag(z) == PaneBag(RemoveAt(tabs, i)) + multiset(t.paneIDs)
            && (t.id == tabs[i].id ==> IdBag(z) == IdBag(tabs))
  {
    hide PaneBag, IdBag;
    BagAt(tabs, i);
    BagAt(tabs[i := t], i);
    assert RemoveAt(tabs[i := t], i) == RemoveAt(tabs, i);
  }

  lemma {:induction false} FoundInBag(tabs: seq<Tab>, id: string)
    ensures FindTab(tabs, id).Some? <==> id in IdBag(tabs)
  {
    if tabs != [] {
      FoundInBag(tabs[1..], id);
    }
  }

  lemma TabsOkRemove(tabs: seq<Tab>, i: nat)
    requires TabsOk(tabs) && i < |tabs|
    ensures TabsOk(RemoveAt(tabs, i))
  {
    hide TabOk;
  }

  lemma TabsOkInsert(tabs: seq<Tab>, i: nat, t: Tab)
    requires TabsOk(tabs) && TabOk(t) && i <= |tabs|
    ensures TabsOk(InsertAt(tabs, i, t))
  {
    hide TabOk;
  }

  lemma TabsOkReplace(tabs: seq<Tab>, i: nat, t: Tab)
    requires TabsOk(tabs) && TabOk(t) && i < |tabs|
    ensures TabsOk(tabs[i := t])
  {
    hide TabOk;
  }

  /** No tab lists a pane twice. */
  lemma PanesOnce(w: Workspace, i: nat)
    requires PanesOk(w.tabs, w.panes.Keys, w.nextPaneID) && i < |w.tabs|
    ensures NoDup(w.tabs[i].paneIDs)
    ensures forall p :: p in w.tabs[i].paneIDs ==> p in w.panes
  {
    hide PaneBag, IdBag;
    var ids := w.tabs[i].paneIDs;
    BagAt(w.tabs, i);
    var rest := PaneBag(RemoveAt(w.tabs, i));
    forall p ensures multiset(ids)[p] <= (if p in w.panes then 1 else 0) {
      assert multiset(w.panes.Keys)[p] == rest[p] + multiset(ids)[p];
      assert multiset(w.panes.Keys)[p] == if p in w.panes.Keys then 1 else 0;
    }
    AtMostOnce(ids);
    forall p | p in ids ensures p in w.panes {
      assert multiset(ids)[p] > 0;
    }
  }

  lemma AtMostOnce(s: seq<string>)
    requires forall p :: multiset(s)[p] <= 1
    ensures NoDup(s)
  {
    forall j, k | 0 <= j < k < |s| ensures s[j] != s[k] {
      TwoCopies(s, j, k);
    }
  }

  lemma TwoCopies(s: seq<string>, j: nat, k: nat)
    requires j < k < |s|
    ensures s[j] == s[k] ==> multiset(s)[s[j]] >= 2
  {
    assert s == s[..j] + [s[j]] + s[j + 1..k] + [s[k]] + s[k + 1..];
  }

  // ---- recent tabs and the active tab ---------------------------------------------------

  lemma {:induction false} TakeRecentOk(tabs: seq<Tab>, items: seq<string>, candidates: seq<string>)
    requires RecentOk(items, IdBag(tabs)) && |items| < 2
    ensures RecentOk(TakeRecent(tabs, items, candidates), IdBag(tabs))
    decreases |candidates|
  {
    if candidates != [] {
      FoundInBag(tabs, TrimSpace(candidates[0]));
      var next := AppendRecent(tabs, items, candidates[0]);
      assert RecentOk(next, IdBag(tabs));
      if |next| < 2 {
        TakeRecentOk(tabs, next, candidates[1..]);
      }
    }
  }

  lemma NoRecent(tabs: seq<Tab>)
    ensures RecentOk([], IdBag(tabs))
  {}

  lemma PruneKeeps(w: Workspace)
    requires Core(w) && ActiveOk(w)
    ensures Inv(Prune(w))
  {
    hide TabsOk, IdsOk, PanesOk, IdBag, TakeRecent, RecentOk;
    NoRecent(w.tabs);
    TakeRecentOk(w.tabs, [], w.recentTabs);
  }

  /** Setting the active tab to a live one (or to none when there is none). */
  lemma SetActiveKeeps(w: Workspace, id: string)
    requires Core(w) && (if w.tabs == [] then id == "" else id in IdBag(w.tabs) && TrimSpace(id) == id && id != "")
    ensures Inv(SetActive(w, id))
    ensures SetActive(w, id).activeTab == id
  {
    hide TabsOk, IdsOk, PanesOk, IdBag, TakeRecent, RecentOk;
    NoRecent(w.tabs);
    FoundInBag(w.tabs, id);
    TakeRecentOk(w.tabs, [], [id, w.activeTab] + w.recentTabs);
    if w.tabs == [] {
      TrimNothing("");
      PruneKeeps(w.(activeTab := ""));
    }
  }

  lemma LiveTrimmed(w: Workspace, id: string)
    requires IdsOk(IdBag(w.tabs), w.nextTabID) && id in IdBag(w.tabs)
    ensures TrimSpace(id) == id && id != ""
  {
    NumericTrimmed(id, TAB_PREFIX);
  }

  lemma ActivateLive(w: Workspace, i: nat)
    requires Core(w) && i < |w.tabs|
    ensures Inv(SetActive(w, w.tabs[i].id)) && SetActive(w, w.tabs[i].id).activeTab == w.tabs[i].id
  {
    hide TabsOk, PanesOk;
    BagAt(w.tabs, i);
    LiveTrimmed(w, w.tabs[i].id);
    SetActiveKeeps(w, w.tabs[i].id);
  }
}
