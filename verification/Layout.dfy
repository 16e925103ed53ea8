/** The split tree of a tab (core/layout.go). */
module Layout {
  import opened Bytes

  datatype Kind = LeafKind | SplitKind | OtherKind(name: string)

  datatype Direction = NoDirection | Vertical | Horizontal | OtherDirection(name: string)

  /** A node as it is decoded from JSON: any field may have any value. */
  datatype LayoutNode =
    | Nil
    | Node(kind: Kind, direction: Direction, paneID: string, children: seq<LayoutNode>, size: real)

  function Leaf(paneID: string, size: real): LayoutNode
  {
    Node(LeafKind, NoDirection, paneID, [], size)
  }

  predicate IsDirection(d: Direction)
  {
    d == Vertical || d == Horizontal
  }

  /** A tree of leaves without children and directed splits of at least two. */
  predicate WellFormed(n: LayoutNode)
  {
    match n
    case Nil => false
    case Node(kind, direction, _, children, _) =>
      || (kind == LeafKind && children == [])
      || (kind == SplitKind && IsDirection(direction) && |children| >= 2 && AllWellFormed(children))
  }

  predicate AllWellFormed(cs: seq<LayoutNode>)
  {
    cs == [] || (WellFormed(cs[0]) && AllWellFormed(cs[1..]))
  }

  /** The panes of a layout, left to right (collectLayoutPaneIDs). */
  function Leaves(n: LayoutNode): seq<string>
  {
    match n
    case Nil => []
    case Node(kind, _, paneID, children, _) => if kind == LeafKind then [paneID] else LeavesOf(children)
  }

  function LeavesOf(cs: seq<LayoutNode>): seq<string>
  {
    if cs == [] then [] else Leaves(cs[0]) + LeavesOf(cs[1..])
  }

  lemma {:induction false} LeavesNonEmpty(n: LayoutNode)
    requires WellFormed(n)
    ensures Leaves(n) != []
  {
    if n.kind == SplitKind {
      LeavesNonEmpty(n.children[0]);
    }
  }

  // ---- splitting ----------------------------------------------------------------------

  function SplitNode(n: LayoutNode, target: string, direction: Direction, newID: string): (LayoutNode, bool)
  {
    match n
    case Nil => (n, false)
    case Node(kind, _, paneID, children, size) =>
      if kind == LeafKind && paneID == target then
        (Node(SplitKind, direction, "", [Leaf(target, 50.0), Leaf(newID, 50.0)], size), true)
      else
        var (cs, ok) := SplitFirst(children, target, direction, newID);
        (n.(children := cs), ok)
  }

  function SplitFirst(cs: seq<LayoutNode>, target: string, direction: Direction, newID: string): (seq<LayoutNode>, bool)
  {
    if cs == [] then ([], false)
    else
      var (c, ok) := SplitNode(cs[0], target, direction, newID);
      if ok then ([c] + cs[1..], true)
      else
        var (rest, found) := SplitFirst(cs[1..], target, direction, newID);
        ([c] + rest, found)
  }

  /** `x` put behind the first `target`. */
  function InsertAfter(s: seq<string>, target: string, x: string): seq<string>
  {
    if s == [] then []
    else if s[0] == target then [target, x] + s[1..]
    else [s[0]] + InsertAfter(s[1..], target, x)
  }

  lemma {:induction false} InsertAfterAppend(a: seq<string>, b: seq<string>, target: string, x: string)
    ensures InsertAfter(a + b, target, x) == if target in a then InsertAfter(a, target, x) + b else a + InsertAfter(b, target, x)
  {
    if a == [] {
      assert a + b == b;
    } else {
      assert (a + b)[1..] == a[1..] + b;
      if a[0] == target {
        assert (a + b)[0] == target;
        Assoc([target, x], a[1..], b);
      } else {
        InsertAfterAppend(a[1..], b, target, x);
        if target in a[1..] { Assoc([a[0]], InsertAfter(a[1..], target, x), b); }
        else { Assoc([a[0]], a[1..], InsertAfter(b, target, x)); }
        assert [a[0]] + a[1..] == a;
      }
    }
  }

  lemma PairSpec(a: string, b: string)
    ensures AllWellFormed([Leaf(a, 50.0), Leaf(b, 50.0)]) && LeavesOf([Leaf(a, 50.0), Leaf(b, 50.0)]) == [a, b]
  {
    var cs, ds := [Leaf(a, 50.0), Leaf(b, 50.0)], [Leaf(b, 50.0)];
    assert cs[1..] == ds && ds[1..] == [];
    assert AllWellFormed(ds) && LeavesOf(ds) == [b] + [];
  }

  /** Splitting puts the new pane right behind its target and changes nothing else;
      it fails exactly if there is no such leaf. */
  lemma {:induction false} SplitSpec(n: LayoutNode, target: string, direction: Direction, newID: string)
    requires WellFormed(n) && IsDirection(direction)
    ensures var (m, ok) := SplitNode(n, target, direction, newID);
            && (ok <==> target in Leaves(n))
            && (ok ==> WellFormed(m) && Leaves(m) == InsertAfter(Leaves(n), target, newID))
            && (!ok ==> m == n)
    decreases n, 1
  {
    if n.kind == LeafKind {
      if n.paneID == target {
        PairSpec(target, newID);
        assert [n.paneID][1..] == [];
      }
    } else {
      SplitFirstSpec(n.children, target, direction, newID);
    }
  }

  lemma {:induction false} SplitFirstSpec(cs: seq<LayoutNode>, target: string, direction: Direction, newID: string)
    requires AllWellFormed(cs) && IsDirection(direction)
    ensures var (ds, ok) := SplitFirst(cs, target, direction, newID);
            && |ds| == |cs|
            && (ok <==> target in LeavesOf(cs))
            && (ok ==> AllWellFormed(ds) && LeavesOf(ds) == InsertAfter(LeavesOf(cs), target, newID))
            && (!ok ==> ds == cs)
    decreases cs, 0
  {
    if cs != [] {
      SplitSpec(cs[0], target, direction, newID);
      SplitFirstSpec(cs[1..], target, direction, newID);
      InsertAfterAppend(Leaves(cs[0]), LeavesOf(cs[1..]), target, newID);
      var (c, ok) := SplitNode(cs[0], target, direction, newID);
      assert ([c] + cs[1..])[1..] == cs[1..];
      var rest := SplitFirst(cs[1..], target, direction, newID).0;
      assert ([c] + rest)[1..] == rest;
      assert [cs[0]] + cs[1..] == cs;
    }
  }

  // ---- removing -----------------------------------------------------------------------

  function FillSizes(cs: seq<LayoutNode>, share: real): seq<LayoutNode>
  {
    if cs == [] then []
    else [if cs[0].Node? && cs[0].size <= 0.0 then cs[0].(size := share) else cs[0]] + FillSizes(cs[1..], share)
  }

  function RemoveNode(n: LayoutNode, paneID: string): LayoutNode
  {
    match n
    case Nil => Nil
    case Node(kind, _, id, children, size) =>
      if kind == LeafKind then (if id == paneID then Nil else n)
      else
        var kept := RemoveAll(children, paneID);
        if |kept| == 0 then Nil
        else if |kept| == 1 then (if size > 0.0 && kept[0].Node? then kept[0].(size := size) else kept[0])
        else n.(children := FillSizes(kept, 100.0 / (|kept| as real)))
  }

  function RemoveAll(cs: seq<LayoutNode>, paneID: string): seq<LayoutNode>
  {
    if cs == [] then []
    else
      var c := RemoveNode(cs[0], paneID);
      (if c == Nil then [] else [c]) + RemoveAll(cs[1..], paneID)
  }

  function Without(s: seq<string>, x: string): seq<string>
  {
    if s == [] then [] else (if s[0] == x then [] else [s[0]]) + Without(s[1..], x)
  }

  lemma {:induction false} WithoutAppend(a: seq<string>, b: seq<string>, x: string)
    ensures Without(a + b, x) == Without(a, x) + Without(b, x)
  {
    if a == [] {
      assert a + b == b;
    } else {
      WithoutAppend(a[1..], b, x);
      assert (a + b)[1..] == a[1..] + b;
      Assoc(if a[0] == x then [] else [a[0]], Without(a[1..], x), Without(b, x));
    }
  }

  lemma {:induction false} WithoutContents(s: seq<string>, x: string)
    ensures multiset(Without(s, x)) == multiset(s)[x := 0]
    ensures x !in s ==> Without(s, x) == s
  {
    if s != [] {
      WithoutContents(s[1..], x);
      assert s == [s[0]] + s[1..];
      assert multiset(s) == multiset{s[0]} + multiset(s[1..]);
    }
  }

  lemma {:induction false} FillKeeps(cs: seq<LayoutNode>, share: real)
    requires AllWellFormed(cs)
    ensures |FillSizes(cs, share)| == |cs| && AllWellFormed(FillSizes(cs, share)) && LeavesOf(FillSizes(cs, share)) == LeavesOf(cs)
  {
    if cs != [] {
      FillKeeps(cs[1..], share);
      var ds := FillSizes(cs, share);
      assert ds[1..] == FillSizes(cs[1..], share);
      assert WellFormed(ds[0]) && Leaves(ds[0]) == Leaves(cs[0]);
    }
  }

  /** Removing a pane removes exactly its leaves; splits left with one child
      collapse, and nothing is left exactly if there were no other leaves. */
  lemma {:induction false} RemoveSpec(n: LayoutNode, paneID: string)
    requires WellFormed(n)
    ensures var m := RemoveNode(n, paneID);
            && Leaves(m) == Without(Leaves(n), paneID)
            && (m.Nil? <==> Leaves(m) == [])
            && (m.Node? ==> WellFormed(m))
    decreases n, 1
  {
    if n.kind == LeafKind {
      assert [n.paneID][1..] == [];
    } else {
      var kept := RemoveAll(n.children, paneID);
      RemoveAllSpec(n.children, paneID);
      if |kept| == 1 {
        assert kept[1..] == [];
        LeavesNonEmpty(kept[0]);
        assert LeavesOf(kept) == Leaves(kept[0]) + [];
      } else if |kept| > 1 {
        FillKeeps(kept, 100.0 / (|kept| as real));
        LeavesNonEmpty(RemoveNode(n, paneID));
      }
    }
  }

  lemma {:induction false} RemoveAllSpec(cs: seq<LayoutNode>, paneID: string)
    requires AllWellFormed(cs)
    ensures var ds := RemoveAll(cs, paneID);
            AllWellFormed(ds) && LeavesOf(ds) == Without(LeavesOf(cs), paneID)
    decreases cs, 0
  {
    if cs != [] {
      RemoveSpec(cs[0], paneID);
      RemoveAllSpec(cs[1..], paneID);
      WithoutAppend(Leaves(cs[0]), LeavesOf(cs[1..]), paneID);
      var c, rest := RemoveNode(cs[0], paneID), RemoveAll(cs[1..], paneID);
      if c == Nil {
        assert [] + rest == rest;
      } else {
        assert ([c] + rest)[1..] == rest;
      }
    }
  }

  // ---- replacing ----------------------------------------------------------------------

  function ReplaceNode(n: LayoutNode, old0: string, newID: string): LayoutNode
  {
    match n
    case Nil => Nil
    case Node(kind, _, paneID, children, _) =>
      n.(paneID := if kind == LeafKind && paneID == old0 then newID else paneID, children := ReplaceAll(children, old0, newID))
  }

  function ReplaceAll(cs: seq<LayoutNode>, old0: string, newID: string): seq<LayoutNode>
  {
    if cs == [] then [] else [ReplaceNode(cs[0], old0, newID)] + ReplaceAll(cs[1..], old0, newID)
  }

  function Renamed(s: seq<string>, old0: string, newID: string): (r: seq<string>)
    ensures |r| == |s|
  {
    seq(|s|, i requires 0 <= i < |s| => if s[i] == old0 then newID else s[i])
  }

  lemma {:induction false} ReplaceSpec(n: LayoutNode, old0: string, newID: string)
    requires WellFormed(n)
    ensures WellFormed(ReplaceNode(n, old0, newID))
    ensures Leaves(ReplaceNode(n, old0, newID)) == Renamed(Leaves(n), old0, newID)
    decreases n, 1
  {
    ReplaceAllSpec(n.children, old0, newID);
  }

  lemma {:induction false} ReplaceAllSpec(cs: seq<LayoutNode>, old0: string, newID: string)
    requires AllWellFormed(cs) || cs == []
    ensures var ds := ReplaceAll(cs, old0, newID);
            |ds| == |cs| && AllWellFormed(ds) && LeavesOf(ds) == Renamed(LeavesOf(cs), old0, newID)
    decreases cs, 0
  {
    if cs != [] {
      ReplaceSpec(cs[0], old0, newID);
      ReplaceAllSpec(cs[1..], old0, newID);
      var ds := ReplaceAll(cs, old0, newID);
      assert ds[1..] == ReplaceAll(cs[1..], old0, newID);
      assert Renamed(Leaves(cs[0]) + LeavesOf(cs[1..]), old0, newID)
          == Renamed(Leaves(cs[0]), old0, newID) + Renamed(LeavesOf(cs[1..]), old0, newID);
    }
  }

  // ---- the neighbour that becomes active ------------------------------------------------

  function FirstLeaf(n: LayoutNode): string
  {
    match n
    case Nil => ""
    case Node(kind, _, paneID, children, _) => if kind == LeafKind then paneID else FirstOf(children)
  }

  function FirstOf(cs: seq<LayoutNode>): string
  {
    if cs == [] then "" else if FirstLeaf(cs[0]) != "" then FirstLeaf(cs[0]) else FirstOf(cs[1..])
  }

  function LastLeaf(n: LayoutNode): string
  {
    match n
    case Nil => ""
    case Node(kind, _, paneID, children, _) => if kind == LeafKind then paneID else LastOf(children)
  }

  function LastOf(cs: seq<LayoutNode>): string
  {
    if cs == [] then "" else if LastOf(cs[1..]) != "" then LastOf(cs[1..]) else LastLeaf(cs[0])
  }

  /** adjacentPaneID: the candidate, and whether the tree contains the pane. */
  function Adjacent(n: LayoutNode, paneID: string): (string, bool)
  {
    match n
    case Nil => ("", false)
    case Node(kind, _, id, children, _) => if kind == LeafKind then ("", id == paneID) else AdjacentAmong(Nil, children, paneID)
  }

  /** The loop over the children, from one whose left sibling is `previous`. */
  function AdjacentAmong(previous: LayoutNode, cs: seq<LayoutNode>, paneID: string): (string, bool)
    decreases cs
  {
    if cs == [] then ("", false)
    else
      var (candidate, contains) := Adjacent(cs[0], paneID);
      if !contains then AdjacentAmong(cs[0], cs[1..], paneID)
      else if candidate != "" then (candidate, true)
      else if |cs| > 1 then (FirstLeaf(cs[1]), true)
      else (LastLeaf(previous), true)
  }

  /** `x` and `y` stand next to each other in `s`. */
  ghost predicate Neighbours(s: seq<string>, x: string, y: string)
  {
    exists i, j :: 0 <= i < |s| && 0 <= j < |s| && (j == i + 1 || i == j + 1) && s[i] == x && s[j] == y
  }

  lemma NeighboursWithin(a: seq<string>, s: seq<string>, b: seq<string>, x: string, y: string)
    requires Neighbours(s, x, y)
    ensures Neighbours(a + s + b, x, y)
  {
    var i, j :| 0 <= i < |s| && 0 <= j < |s| && (j == i + 1 || i == j + 1) && s[i] == x && s[j] == y;
    var all := a + s + b;
    assert all[|a| + i] == x && all[|a| + j] == y;
  }

  lemma {:induction false} FirstLastSpec(n: LayoutNode)
    requires WellFormed(n) && "" !in Leaves(n)
    ensures Leaves(n) != []
    ensures FirstLeaf(n) == Leaves(n)[0] && LastLeaf(n) == Leaves(n)[|Leaves(n)| - 1] && FirstLeaf(n) != "" && LastLeaf(n) != ""
    decreases n, 1
  {
    LeavesNonEmpty(n);
    if n.kind == SplitKind {
      FirstLastOfSpec(n.children);
    }
  }

  lemma {:induction false} FirstLastOfSpec(cs: seq<LayoutNode>)
    requires AllWellFormed(cs) && cs != [] && "" !in LeavesOf(cs)
    ensures LeavesOf(cs) != []
    ensures FirstOf(cs) == LeavesOf(cs)[0] && LastOf(cs) == LeavesOf(cs)[|LeavesOf(cs)| - 1] && FirstOf(cs) != "" && LastOf(cs) != ""
    decreases cs, 0
  {
    assert forall x :: x in Leaves(cs[0]) ==> x in LeavesOf(cs);
    assert forall x :: x in LeavesOf(cs[1..]) ==> x in LeavesOf(cs);
    FirstLastSpec(cs[0]);
    if |cs| > 1 {
      FirstLastOfSpec(cs[1..]);
    } else {
      assert cs[1..] == [];
    }
  }

  /** Next to a closed pane, the neighbour in the layout becomes active: the
      candidate is empty only for the only pane of a tree. */
  lemma {:induction false} AdjacentSpec(n: LayoutNode, paneID: string)
    requires WellFormed(n) && "" !in Leaves(n)
    ensures var (r, contains) := Adjacent(n, paneID);
            && (contains <==> paneID in Leaves(n))
            && (contains && |Leaves(n)| == 1 ==> r == "")
            && (contains && |Leaves(n)| > 1 ==> r != "" && Neighbours(Leaves(n), paneID, r))
    decreases n, 1
  {
    if n.kind == SplitKind {
      TwoLeaves(n);
      AdjacentAmongSpec([], Nil, n.children, paneID);
      assert [] + LeavesOf(n.children) == LeavesOf(n.children);
    }
  }

  lemma TwoLeaves(n: LayoutNode)
    requires WellFormed(n) && n.kind == SplitKind
    ensures |Leaves(n)| >= 2
  {
    var cs := n.children;
    var rest := cs[1..];
    assert AllWellFormed(rest) && rest[0] == cs[1];
    LeavesNonEmpty(cs[0]);
    LeavesNonEmpty(rest[0]);
    assert LeavesOf(rest) == Leaves(rest[0]) + LeavesOf(rest[1..]);
  }

  /** `before` are the leaves of the siblings already passed; the last of them
      belongs to `previous`. */
  lemma {:induction false} AdjacentAmongSpec(before: seq<string>, previous: LayoutNode, cs: seq<LayoutNode>, paneID: string)
    requires AllWellFormed(cs) && "" !in LeavesOf(cs) && "" !in before
    requires if before == [] then |cs| > 1 || cs == [] else LastLeaf(previous) == before[|before| - 1]
    ensures var (r, contains) := AdjacentAmong(previous, cs, paneID);
            && (contains <==> paneID in LeavesOf(cs))
            && (contains ==> r != "" && Neighbours(before + LeavesOf(cs), paneID, r))
    decreases cs, 0
  {
    if cs != [] {
      var first, rest := Leaves(cs[0]), LeavesOf(cs[1..]);
      assert forall x :: x in first ==> x in LeavesOf(cs);
      assert forall x :: x in rest ==> x in LeavesOf(cs);
      AdjacentSpec(cs[0], paneID);
      FirstLastSpec(cs[0]);
      Assoc(before, first, rest);
      if paneID !in first {
        AdjacentAmongSpec(before + first, cs[0], cs[1..], paneID);
      } else {
        FoundAmong(before, previous, cs, paneID);
      }
    }
  }

  lemma FoundAmong(before: seq<string>, previous: LayoutNode, cs: seq<LayoutNode>, paneID: string)
    requires cs != [] && AllWellFormed(cs) && "" !in LeavesOf(cs) && "" !in before
    requires if before == [] then |cs| > 1 else LastLeaf(previous) == before[|before| - 1]
    requires paneID in Leaves(cs[0]) && Adjacent(cs[0], paneID).1 && Leaves(cs[0]) != []
    requires |Leaves(cs[0])| == 1 ==> Adjacent(cs[0], paneID).0 == ""
    requires |Leaves(cs[0])| > 1 ==> Adjacent(cs[0], paneID).0 != "" && Neighbours(Leaves(cs[0]), paneID, Adjacent(cs[0], paneID).0)
    ensures var (r, contains) := AdjacentAmong(previous, cs, paneID);
            contains && r != "" && Neighbours(before + LeavesOf(cs), paneID, r)
  {
    var first, rest := Leaves(cs[0]), LeavesOf(cs[1..]);
    var all := before + LeavesOf(cs);
    assert all == before + first + rest;
    if |first| > 1 {
      NeighboursWithin(before, first, rest, paneID, Adjacent(cs[0], paneID).0);
    } else {
      assert all[|before|] == paneID;
      if |cs| > 1 {
        var next := cs[1];
        assert cs[1..][0] == next && WellFormed(next);
        assert forall x :: x in Leaves(next) ==> x in rest;
        FirstLastSpec(next);
        assert all[|before| + 1] == FirstLeaf(next);
      } else {
        assert all[|before| - 1] == LastLeaf(previous);
      }
    }
  }
}
