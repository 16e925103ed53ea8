/** What splitting, removing and relabelling do to the shape of a layout, beyond the order
    of its panes (core/layout.go:9-67, core/workspace_restart.go:31-43). */
module LayoutShape {
  import opened Bytes
  import opened Layout

  // ---- one node of a layout ------------------------------------------------------------

  /** A node is named by the numbers of the children that lead to it. */
  predicate IsPath(n: LayoutNode, path: seq<nat>)
    decreases |path|
  {
    path == [] || (n.Node? && path[0] < |n.children| && IsPath(n.children[path[0]], path[1..]))
  }

  function At(n: LayoutNode, path: seq<nat>): LayoutNode
    requires IsPath(n, path)
    decreases |path|
  {
    if path == [] then n else At(n.children[path[0]], path[1..])
  }

  /** The layout with this node in that place. */
  function Put(n: LayoutNode, path: seq<nat>, m: LayoutNode): LayoutNode
    requires IsPath(n, path)
    decreases |path|
  {
    if path == [] then m
    else n.(children := n.children[path[0] := Put(n.children[path[0]], path[1..], m)])
  }

  /** `path` leads to a leaf that shows this pane. */
  predicate ShowsAt(n: LayoutNode, path: seq<nat>, paneID: string)
  {
    IsPath(n, path) && At(n, path).Node? && At(n, path).kind == LeafKind && At(n, path).paneID == paneID
  }

  /** What a split puts in a leaf's place: both panes, half each, in the given direction, at
      the leaf's own size. */
  function Halves(leaf: LayoutNode, direction: Direction, newID: string): LayoutNode
    requires leaf.Node?
  {
    Node(SplitKind, direction, "", [Leaf(leaf.paneID, 50.0), Leaf(newID, 50.0)], leaf.size)
  }

  /** A split changes one leaf that shows its target, and nothing else. */
  lemma {:induction false} SplitReplaces(n: LayoutNode, target: string, direction: Direction, newID: string) returns (path: seq<nat>)
    requires SplitNode(n, target, direction, newID).1
    ensures ShowsAt(n, path, target)
    ensures SplitNode(n, target, direction, newID).0 == Put(n, path, Halves(At(n, path), direction, newID))
    decreases n, 1
  {
    if n.kind == LeafKind && n.paneID == target {
      path := [];
    } else {
      var k, below := SplitReplacesOne(n.children, target, direction, newID);
      path := [k] + below;
      Cons(k, below);
    }
  }

  lemma {:induction false} SplitReplacesOne(cs: seq<LayoutNode>, target: string, direction: Direction, newID: string)
    returns (k: nat, path: seq<nat>)
    requires SplitFirst(cs, target, direction, newID).1
    ensures k < |cs| && ShowsAt(cs[k], path, target)
    ensures SplitFirst(cs, target, direction, newID).0 == cs[k := Put(cs[k], path, Halves(At(cs[k], path), direction, newID))]
    decreases cs, 0
  {
    Uncons(cs);
    if SplitNode(cs[0], target, direction, newID).1 {
      k := 0;
      path := SplitReplaces(cs[0], target, direction, newID);
    } else {
      NotSplit(cs[0], target, direction, newID);
      var j, below := SplitReplacesOne(cs[1..], target, direction, newID);
      k, path := j + 1, below;
    }
  }

  /** A layout that does not show the target stays as it is. */
  lemma {:induction false} NotSplit(n: LayoutNode, target: string, direction: Direction, newID: string)
    requires !SplitNode(n, target, direction, newID).1
    ensures SplitNode(n, target, direction, newID).0 == n
    decreases n, 1
  {
    if n.Node? {
      NoneSplit(n.children, target, direction, newID);
    }
  }

  lemma {:induction false} NoneSplit(cs: seq<LayoutNode>, target: string, direction: Direction, newID: string)
    requires !SplitFirst(cs, target, direction, newID).1
    ensures SplitFirst(cs, target, direction, newID).0 == cs
    decreases cs, 0
  {
    if cs != [] {
      Uncons(cs);
      NotSplit(cs[0], target, direction, newID);
      NoneSplit(cs[1..], target, direction, newID);
    }
  }

  // ---- relabelling -----------------------------------------------------------------------

  /** The same layout, but that leaves which showed one pane show another. */
  predicate Relabelled(n: LayoutNode, m: LayoutNode, old0: string, newID: string)
    decreases n, 1
  {
    if n == Nil then m == Nil
    else
      && m.Node? && m.kind == n.kind && m.direction == n.direction && m.size == n.size
      && m.paneID == (if n.kind == LeafKind && n.paneID == old0 then newID else n.paneID)
      && AllRelabelled(n.children, m.children, old0, newID)
  }

  predicate AllRelabelled(ns: seq<LayoutNode>, ms: seq<LayoutNode>, old0: string, newID: string)
    decreases ns, 0
  {
    if ns == [] then ms == []
    else ms != [] && Relabelled(ns[0], ms[0], old0, newID) && AllRelabelled(ns[1..], ms[1..], old0, newID)
  }

  lemma {:induction false} ReplaceRelabels(n: LayoutNode, old0: string, newID: string)
    ensures Relabelled(n, ReplaceNode(n, old0, newID), old0, newID)
    decreases n, 1
  {
    if n.Node? {
      AllReplaceRelabel(n.children, old0, newID);
    }
  }

  lemma {:induction false} AllReplaceRelabel(cs: seq<LayoutNode>, old0: string, newID: string)
    ensures AllRelabelled(cs, ReplaceAll(cs, old0, newID), old0, newID)
    decreases cs, 0
  {
    if cs != [] {
      ReplaceRelabels(cs[0], old0, newID);
      AllReplaceRelabel(cs[1..], old0, newID);
      Cons(ReplaceNode(cs[0], old0, newID), ReplaceAll(cs[1..], old0, newID));
    }
  }

  // ---- how two panes lie to each other -------------------------------------------------------

  /** The direction of the split at which two panes part. */
  function Parting(n: LayoutNode, p: string, q: string): Direction
    decreases n, 1
  {
    if n == Nil || n.kind == LeafKind then NoDirection else PartingAmong(n.children, p, q, n.direction)
  }

  function PartingAmong(cs: seq<LayoutNode>, p: string, q: string, direction: Direction): Direction
    decreases cs, 0
  {
    if cs == [] then direction
    else if p in Leaves(cs[0]) && q in Leaves(cs[0]) then Parting(cs[0], p, q)
    else PartingAmong(cs[1..], p, q, direction)
  }

  lemma PartingOne(c: LayoutNode, p: string, q: string, direction: Direction)
    ensures PartingAmong([c], p, q, direction) == if p in Leaves(c) && q in Leaves(c) then Parting(c, p, q) else direction
  {
    assert [c][1..] == [];
  }

  lemma {:induction false} PartingFilled(cs: seq<LayoutNode>, share: real, p: string, q: string, direction: Direction)
    ensures PartingAmong(FillSizes(cs, share), p, q, direction) == PartingAmong(cs, p, q, direction)
    decreases |cs|
  {
    if cs != [] {
      PartingFilled(cs[1..], share, p, q, direction);
      var c := if cs[0].Node? && cs[0].size <= 0.0 then cs[0].(size := share) else cs[0];
      Cons(c, FillSizes(cs[1..], share));
      assert Leaves(c) == Leaves(cs[0]) && Parting(c, p, q) == Parting(cs[0], p, q);
    }
  }

  lemma {:induction false} StillIn(s: seq<string>, x: string, p: string)
    requires p != x
    ensures p in s <==> p in Without(s, x)
    decreases |s|
  {
    if s != [] {
      StillIn(s[1..], x, p);
    }
  }

  /** After a pane is removed, any two others lie to each other as before: in the same
      order, and side by side or one above the other as they were. */
  lemma {:induction false} RemoveKeepsParting(n: LayoutNode, x: string, p: string, q: string)
    requires WellFormed(n) && p in Leaves(n) && q in Leaves(n) && p != q && x != p && x != q
    ensures Parting(RemoveNode(n, x), p, q) == Parting(n, p, q)
    decreases n, 1
  {
    RemoveSpec(n, x);
    StillIn(Leaves(n), x, p);
    StillIn(Leaves(n), x, q);
    if n.kind == SplitKind {
      var kept := RemoveAll(n.children, x);
      RemoveAllSpec(n.children, x);
      RemoveAllKeepsParting(n.children, x, p, q, n.direction);
      if |kept| == 1 {
        PartingKeptOne(n, kept[0], p, q, n.direction);
      } else if |kept| > 1 {
        PartingFilled(kept, 100.0 / (|kept| as real), p, q, n.direction);
      }
    }
  }

  lemma PartingKeptOne(n: LayoutNode, c: LayoutNode, p: string, q: string, direction: Direction)
    requires n.Node? && WellFormed(c) && p in LeavesOf([c]) && q in LeavesOf([c])
    ensures Parting(if n.size > 0.0 && c.Node? then c.(size := n.size) else c, p, q) == PartingAmong([c], p, q, direction)
  {
    PartingOne(c, p, q, direction);
    assert [c][1..] == [] && LeavesOf([c]) == Leaves(c) + LeavesOf([]) == Leaves(c);
  }

  lemma {:induction false} RemoveAllKeepsParting(cs: seq<LayoutNode>, x: string, p: string, q: string, direction: Direction)
    requires AllWellFormed(cs) && p != q && x != p && x != q
    ensures PartingAmong(RemoveAll(cs, x), p, q, direction) == PartingAmong(cs, p, q, direction)
    decreases cs, 0
  {
    if cs != [] {
      var c, rest := RemoveNode(cs[0], x), RemoveAll(cs[1..], x);
      RemoveSpec(cs[0], x);
      StillIn(Leaves(cs[0]), x, p);
      StillIn(Leaves(cs[0]), x, q);
      RemoveAllKeepsParting(cs[1..], x, p, q, direction);
      if p in Leaves(cs[0]) && q in Leaves(cs[0]) {
        RemoveKeepsParting(cs[0], x, p, q);
      }
      if c == Nil {
        Empty(rest);
      } else {
        Cons(c, rest);
      }
    }
  }

  // ---- sizes after a removal ---------------------------------------------------------------

  /** Every child of every split has a size. */
  predicate Sized(n: LayoutNode)
    decreases n, 1
  {
    n == Nil || n.kind == LeafKind || AllSized(n.children)
  }

  predicate AllSized(cs: seq<LayoutNode>)
    decreases cs, 0
  {
    cs == [] || (cs[0].Node? && cs[0].size > 0.0 && Sized(cs[0]) && AllSized(cs[1..]))
  }

  predicate AllSizedBelow(cs: seq<LayoutNode>)
  {
    forall i :: 0 <= i < |cs| ==> cs[i].Node? && Sized(cs[i])
  }

  /** A child without a size gets the given share, the others keep theirs. */
  lemma {:induction false} FilledExactly(cs: seq<LayoutNode>, share: real, i: nat)
    requires i < |cs|
    ensures |FillSizes(cs, share)| == |cs|
    ensures FillSizes(cs, share)[i] == if cs[i].Node? && cs[i].size <= 0.0 then cs[i].(size := share) else cs[i]
    decreases |cs|
  {
    if i > 0 {
      FilledExactly(cs[1..], share, i - 1);
    } else if |cs| > 1 {
      FilledExactly(cs[1..], share, 0);
    }
  }

  lemma {:induction false} FilledSized(cs: seq<LayoutNode>, share: real)
    requires AllSizedBelow(cs) && share > 0.0
    ensures AllSized(FillSizes(cs, share))
    decreases |cs|
  {
    if cs != [] {
      FilledSized(cs[1..], share);
      var c := if cs[0].size <= 0.0 then cs[0].(size := share) else cs[0];
      Cons(c, FillSizes(cs[1..], share));
    }
  }

  /** What is left of a layout takes its size, if it had one, and no child of what is left
      is without a size. */
  lemma {:induction false} RemoveSizes(n: LayoutNode, x: string)
    requires WellFormed(n) && RemoveNode(n, x) != Nil
    ensures n.size > 0.0 ==> RemoveNode(n, x).size == n.size
    ensures Sized(RemoveNode(n, x))
    decreases n, 1
  {
    if n.kind == SplitKind {
      var kept := RemoveAll(n.children, x);
      RemoveAllSizes(n.children, x);
      if |kept| > 1 {
        FilledSized(kept, 100.0 / (|kept| as real));
      }
    }
  }

  lemma {:induction false} RemoveAllSizes(cs: seq<LayoutNode>, x: string)
    requires AllWellFormed(cs)
    ensures AllSizedBelow(RemoveAll(cs, x))
    decreases cs, 0
  {
    if cs != [] {
      RemoveAllSizes(cs[1..], x);
      if RemoveNode(cs[0], x) != Nil {
        RemoveSizes(cs[0], x);
      }
    }
  }
}
