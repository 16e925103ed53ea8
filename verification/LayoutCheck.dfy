/** Checking and normalising a layout that a client sent (core/layout.go,
    validateLayoutForTab and validateLayoutNode). */
module LayoutCheck {
  import opened Layout

  datatype LayoutError =
    | NodeRequired | UnknownPane | RepeatedPane | InvalidDirection | TooFewChildren | InvalidKind | PaneMissing | PanesDiffer

  datatype Checked<T> = Bad(error: LayoutError) | Good(value: T, seen: set<string>)

  function Clamp(n: LayoutNode): LayoutNode
    requires n.Node?
  {
    n.(size := if n.size < 5.0 then 5.0 else if n.size > 95.0 then 95.0 else n.size)
  }

  function ValidateNode(n: LayoutNode, ids: seq<string>, seen: set<string>): (r: Checked<LayoutNode>)
    ensures r.Good? ==> r.value.Node?
  {
    match n
    case Nil => Bad(NodeRequired)
    case Node(kind, direction, paneID, children, _) =>
      match kind
      case LeafKind =>
        if paneID !in ids then Bad(UnknownPane)
        else if paneID in seen then Bad(RepeatedPane)
        else Good(n.(direction := NoDirection, children := []), seen + {paneID})
      case SplitKind =>
        if !IsDirection(direction) then Bad(InvalidDirection)
        else if |children| < 2 then Bad(TooFewChildren)
        else
          (match ValidateAll(children, ids, seen)
           case Bad(error) => Bad(error)
           case Good(cs, after) => Good(n.(paneID := "", children := cs), after))
      case OtherKind(_) => Bad(InvalidKind)
  }

  /** The loop over the children of a split; each is clamped once it is valid. */
  function ValidateAll(cs: seq<LayoutNode>, ids: seq<string>, seen: set<string>): Checked<seq<LayoutNode>>
  {
    if cs == [] then Good([], seen)
    else
      match ValidateNode(cs[0], ids, seen)
      case Bad(error) => Bad(error)
      case Good(c, after) =>
        match ValidateAll(cs[1..], ids, after)
        case Bad(error) => Bad(error)
        case Good(rest, done) => Good([Clamp(c)] + rest, done)
  }

  /** The layout in the form it is kept, or why it is refused. */
  function ValidateLayout(n: LayoutNode, ids: seq<string>): Checked<LayoutNode>
  {
    match ValidateNode(n, ids, {})
    case Bad(error) => Bad(error)
    case Good(m, seen) =>
      if |seen| != |ids| then Bad(PaneMissing)
      else if exists i :: 0 <= i < |ids| && ids[i] !in seen then Bad(PanesDiffer)
      else Good(m, seen)
  }

  // ---- what is accepted -----------------------------------------------------------------

  /** Leaves and directed splits; what a leaf carries besides its pane is ignored. */
  predicate Shape(n: LayoutNode)
  {
    match n
    case Nil => false
    case Node(kind, direction, _, children, _) =>
      kind == LeafKind || (kind == SplitKind && IsDirection(direction) && |children| >= 2 && AllShape(children))
  }

  predicate AllShape(cs: seq<LayoutNode>)
  {
    cs == [] || (Shape(cs[0]) && AllShape(cs[1..]))
  }

  predicate NoDup(s: seq<string>)
  {
    forall i, j :: 0 <= i < j < |s| ==> s[i] != s[j]
  }

  ghost function Members(s: seq<string>): set<string>
  {
    set x | x in s
  }

  /** The leaves are new panes of the tab, each once. */
  ghost predicate Admissible(s: seq<string>, ids: seq<string>, seen: set<string>)
  {
    NoDup(s) && Members(s) <= Members(ids) && Members(s) !! seen
  }

  lemma AdmissibleAppend(a: seq<string>, b: seq<string>, ids: seq<string>, seen: set<string>)
    ensures Admissible(a + b, ids, seen) <==> Admissible(a, ids, seen) && Admissible(b, ids, seen + Members(a))
    ensures Members(a + b) == Members(a) + Members(b)
  {
    var s := a + b;
    NoDupAppend(a, b);
    assert Members(s) == Members(a) + Members(b);
    hide NoDup;
  }

  lemma NoDupAppend(a: seq<string>, b: seq<string>)
    ensures NoDup(a + b) <==> NoDup(a) && NoDup(b) && Members(a) !! Members(b)
  {
    var s := a + b;
    if NoDup(s) {
      assert NoDup(a) by {
        forall i, j | 0 <= i < j < |a| ensures a[i] != a[j] {
          assert s[i] == a[i] && s[j] == a[j];
        }
      }
      forall i, j | 0 <= i < j < |b| ensures b[i] != b[j] {
        assert s[|a| + i] == b[i] && s[|a| + j] == b[j];
      }
      forall i, j | 0 <= i < |a| && 0 <= j < |b| ensures a[i] != b[j] {
        assert s[i] == a[i] && s[|a| + j] == b[j];
      }
    }
    if NoDup(a) && NoDup(b) && Members(a) !! Members(b) {
      forall i, j | 0 <= i < j < |s| ensures s[i] != s[j] {
        if i < |a| <= j {
          assert s[i] in Members(a) && s[j] in Members(b);
        }
      }
    }
  }

  /** The sizes of all children are between 5 and 95. */
  predicate Clamped(n: LayoutNode)
  {
    n.Node? ==> AllClamped(n.children)
  }

  predicate AllClamped(cs: seq<LayoutNode>)
  {
    cs == [] || (cs[0].Node? && 5.0 <= cs[0].size <= 95.0 && Clamped(cs[0]) && AllClamped(cs[1..]))
  }

  lemma {:induction false} ValidateNodeSpec(n: LayoutNode, ids: seq<string>, seen: set<string>)
    ensures var r := ValidateNode(n, ids, seen);
            && (r.Good? <==> Shape(n) && Admissible(Leaves(n), ids, seen))
            && (r.Good? ==> WellFormed(r.value) && Clamped(r.value) && Leaves(r.value) == Leaves(n)
                            && r.value.size == n.size && r.seen == seen + Members(Leaves(n)))
    decreases n, 1
  {
    if n.Node? {
      if n.kind == LeafKind {
        assert Members([n.paneID]) == {n.paneID};
        assert Members(ids) >= {n.paneID} <==> n.paneID in ids;
      } else {
        ValidateAllSpec(n.children, ids, seen);
        hide Admissible;
      }
    }
  }

  lemma {:induction false} ValidateAllSpec(cs: seq<LayoutNode>, ids: seq<string>, seen: set<string>)
    ensures var r := ValidateAll(cs, ids, seen);
            && (r.Good? <==> AllShape(cs) && Admissible(LeavesOf(cs), ids, seen))
            && (r.Good? ==> |r.value| == |cs| && AllWellFormed(r.value) && AllClamped(r.value) && LeavesOf(r.value) == LeavesOf(cs)
                            && r.seen == seen + Members(LeavesOf(cs)))
    decreases cs, 0
  {
    if cs != [] {
      ValidateNodeSpec(cs[0], ids, seen);
      AdmissibleAppend(Leaves(cs[0]), LeavesOf(cs[1..]), ids, seen);
      var r := ValidateNode(cs[0], ids, seen);
      if r.Good? {
        ValidateAllSpec(cs[1..], ids, r.seen);
        if ValidateAll(cs, ids, seen).Good? {
          ClampKeeps(r.value);
          ConsSpec(cs, ids, seen);
        }
      }
    }
  }

  lemma ClampKeeps(n: LayoutNode)
    requires WellFormed(n) && Clamped(n)
    ensures WellFormed(Clamp(n)) && Clamped(Clamp(n)) && Leaves(Clamp(n)) == Leaves(n) && 5.0 <= Clamp(n).size <= 95.0
  {}

  lemma ConsSpec(cs: seq<LayoutNode>, ids: seq<string>, seen: set<string>)
    requires cs != [] && ValidateAll(cs, ids, seen).Good?
    ensures var ds := ValidateAll(cs, ids, seen).value;
            && ds != [] && ds[0] == Clamp(ValidateNode(cs[0], ids, seen).value)
            && ds[1..] == ValidateAll(cs[1..], ids, ValidateNode(cs[0], ids, seen).seen).value
  {}

  lemma {:induction false} CountOnce(s: seq<string>, x: string)
    requires NoDup(s)
    ensures multiset(s)[x] == if x in s then 1 else 0
  {
    if s != [] {
      assert s == [s[0]] + s[1..];
      assert multiset(s) == multiset{s[0]} + multiset(s[1..]);
      CountOnce(s[1..], x);
    }
  }

  lemma {:induction false} NoDupSize(s: seq<string>)
    requires NoDup(s)
    ensures |Members(s)| == |s|
  {
    if s != [] {
      NoDupSize(s[1..]);
      assert Members(s) == {s[0]} + Members(s[1..]);
    }
  }

  lemma SameMembers(a: seq<string>, b: seq<string>)
    requires NoDup(a) && NoDup(b)
    ensures multiset(a) == multiset(b) <==> Members(a) == Members(b)
  {
    forall x ensures multiset(a)[x] == (if x in a then 1 else 0) && multiset(b)[x] == (if x in b then 1 else 0) {
      CountOnce(a, x);
      CountOnce(b, x);
    }
    if multiset(a) == multiset(b) {
      forall x ensures x in a <==> x in b {
        assert x in a <==> multiset(a)[x] > 0;
        assert x in b <==> multiset(b)[x] > 0;
      }
    }
    if Members(a) == Members(b) {
      forall x ensures multiset(a)[x] == multiset(b)[x] {
        assert x in a <==> x in Members(a);
        assert x in b <==> x in Members(b);
      }
    }
  }

  lemma NoDupFrom(s: seq<string>, ids: seq<string>)
    requires NoDup(ids) && multiset(s) == multiset(ids)
    ensures NoDup(s)
  {
    forall i, j | 0 <= i < j < |s| ensures s[i] != s[j] {
      if s[i] == s[j] {
        assert s == s[..i] + [s[i]] + s[i + 1..j] + [s[j]] + s[j + 1..];
        assert multiset(s)[s[i]] >= 2;
        CountOnce(ids, s[i]);
      }
    }
  }

  /** A layout is accepted exactly if it is made of leaves and directed splits and
      its leaves are the tab's panes, each once; it is kept well-formed, with the
      same panes in the same order. */
  lemma LayoutAccepted(n: LayoutNode, ids: seq<string>)
    requires NoDup(ids)
    ensures var r := ValidateLayout(n, ids);
            && (r.Good? <==> Shape(n) && multiset(Leaves(n)) == multiset(ids))
            && (r.Good? ==> WellFormed(r.value) && Clamped(r.value) && Leaves(r.value) == Leaves(n))
  {
    ValidateNodeSpec(n, ids, {});
    var s := Leaves(n);
    hide ValidateNode, Shape, Leaves, WellFormed, Clamped;
    if multiset(s) == multiset(ids) {
      NoDupFrom(s, ids);
      SameMembers(s, ids);
    }
    NoDupSize(ids);
    if NoDup(s) {
      SameMembers(s, ids);
      NoDupSize(s);
    }
    hide NoDup;
    if ValidateNode(n, ids, {}).Good? {
      assert Members(s) <= Members(ids);
      if |Members(s)| == |Members(ids)| {
        SubsetSize(Members(s), Members(ids));
      }
      if exists i :: 0 <= i < |ids| && ids[i] !in Members(s) {
        var i :| 0 <= i < |ids| && ids[i] !in Members(s);
        assert ids[i] in Members(ids);
      }
    }
  }

  lemma SubsetSize(a: set<string>, b: set<string>)
    requires a <= b && |a| == |b|
    ensures a == b
  {
    if exists x :: x in b && x !in a {
      var x :| x in b && x !in a;
      SubsetBound(a, b - {x});
    }
  }

  lemma {:induction false} SubsetBound(a: set<string>, b: set<string>)
    requires a <= b
    ensures |a| <= |b|
  {
    if a != {} {
      var x :| x in a;
      SubsetBound(a - {x}, b - {x});
    }
  }

  function TotalSize(cs: seq<LayoutNode>): real
  {
    if cs == [] then 0.0 else (if cs[0].Node? then cs[0].size else 0.0) + TotalSize(cs[1..])
  }

  /** Once its children are clamped, a split's total is positive: the source's
      equal shares for a split without sizes are never used. */
  lemma {:induction false} TotalIsPositive(cs: seq<LayoutNode>)
    requires AllClamped(cs)
    ensures TotalSize(cs) >= 5.0 * (|cs| as real)
  {
    if cs != [] {
      TotalIsPositive(cs[1..]);
    }
  }

  // ---- what is kept of a layout ---------------------------------------------------------

  /** A size within bounds. */
  function Bounded(size: real): real
  {
    if size < 5.0 then 5.0 else if size > 95.0 then 95.0 else size
  }

  /** The form in which a layout is kept: the same leaves and splits in the same order and
      directions, without anything that does not belong to them, and below the top every
      size between 5 and 95. */
  predicate KeptAs(n: LayoutNode, m: LayoutNode)
    decreases n, 1
  {
    && n.Node? && m.Node? && m.kind == n.kind
    && (n.kind == LeafKind ==> m == Leaf(n.paneID, m.size))
    && (n.kind != LeafKind ==> m.direction == n.direction && m.paneID == "" && AllKeptAs(n.children, m.children))
  }

  predicate AllKeptAs(ns: seq<LayoutNode>, ms: seq<LayoutNode>)
    decreases ns, 0
  {
    if ns == [] then ms == []
    else ms != [] && KeptAs(ns[0], ms[0]) && ms[0].size == Bounded(ns[0].size) && AllKeptAs(ns[1..], ms[1..])
  }

  lemma {:induction false} NodeKept(n: LayoutNode, ids: seq<string>, seen: set<string>)
    requires ValidateNode(n, ids, seen).Good?
    ensures KeptAs(n, ValidateNode(n, ids, seen).value) && ValidateNode(n, ids, seen).value.size == n.size
    decreases n, 1
  {
    if n.kind == SplitKind {
      NodesKept(n.children, ids, seen);
    }
  }

  lemma {:induction false} NodesKept(cs: seq<LayoutNode>, ids: seq<string>, seen: set<string>)
    requires ValidateAll(cs, ids, seen).Good?
    ensures AllKeptAs(cs, ValidateAll(cs, ids, seen).value)
    decreases cs, 0
  {
    if cs != [] {
      var c := ValidateNode(cs[0], ids, seen);
      NodeKept(cs[0], ids, seen);
      NodesKept(cs[1..], ids, c.seen);
      ConsSpec(cs, ids, seen);
      SizeAside(cs[0], c.value);
    }
  }

  lemma SizeAside(n: LayoutNode, m: LayoutNode)
    requires KeptAs(n, m) && m.size == n.size
    ensures KeptAs(n, Clamp(m)) && Clamp(m).size == Bounded(n.size)
  {}

  lemma LayoutKept(n: LayoutNode, ids: seq<string>)
    requires ValidateLayout(n, ids).Good?
    ensures KeptAs(n, ValidateLayout(n, ids).value) && ValidateLayout(n, ids).value.size == n.size
  {
    NodeKept(n, ids, {});
  }
}
