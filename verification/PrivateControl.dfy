/** Removing the private terminal-name control from a pane's output
    (core/private_control.go), whatever chunks the output comes in. */
module PrivateControl {
  import opened Bytes

  const MAX_PENDING: nat := 512
  const BEL: byte := 0x07
  const ESC: byte := 0x1b
  const BACKSLASH: byte := 0x5c

  /** ESC ] 777;webshell-tty= */
  const PREFIX: seq<byte> := [
    0x1b, 0x5d, 0x37, 0x37, 0x37, 0x3b, 0x77, 0x65, 0x62, 0x73, 0x68, 0x65, 0x6c, 0x6c, 0x2d, 0x74, 0x74, 0x79, 0x3d]

  // ---- searching ------------------------------------------------------------------------

  predicate OccursAt(s: seq<byte>, prefix: seq<byte>, i: nat)
  {
    i + |prefix| <= |s| && s[i..i + |prefix|] == prefix
  }

  /** The first occurrence at or after `i`. */
  function IndexFrom(s: seq<byte>, prefix: seq<byte>, i: nat): (r: Option<nat>)
    ensures r.Some? ==> i <= r.value && OccursAt(s, prefix, r.value)
    ensures forall k :: i <= k && (r.Some? ==> k < r.value) ==> !OccursAt(s, prefix, k)
    decreases |s| - i
  {
    if i + |prefix| > |s| then None
    else if OccursAt(s, prefix, i) then Some(i)
    else if i == |s| then None
    else IndexFrom(s, prefix, i + 1)
  }

  predicate Border(s: seq<byte>, prefix: seq<byte>, k: nat)
  {
    k <= |s| && k < |prefix| && s[|s| - k..] == prefix[..k]
  }

  /** The longest border of at most `k` bytes: an end of `s` that may be the
      beginning of a prefix. */
  function KeepAtMost(s: seq<byte>, prefix: seq<byte>, k: nat): (r: nat)
    requires k <= |s| && k < |prefix|
    ensures r <= k && Border(s, prefix, r)
    ensures forall j :: r < j <= k ==> !Border(s, prefix, j)
  {
    if k == 0 || Border(s, prefix, k) then k else KeepAtMost(s, prefix, k - 1)
  }

  function Keep(s: seq<byte>, prefix: seq<byte>): (r: nat)
    requires prefix != []
    ensures r <= |s| && Border(s, prefix, r)
    ensures forall j: nat :: Border(s, prefix, j) ==> j <= r
  {
    KeepAtMost(s, prefix, Min(|s|, |prefix| - 1))
  }

  predicate TerminatorAt(s: seq<byte>, i: nat)
  {
    i < |s| && (s[i] == BEL || (s[i] == ESC && i + 1 < |s| && s[i + 1] == BACKSLASH))
  }

  /** The first terminator at or after `i`. */
  function TerminatorFrom(s: seq<byte>, i: nat): (r: Option<nat>)
    ensures r.Some? ==> i <= r.value && TerminatorAt(s, r.value)
    ensures forall k :: i <= k && (r.Some? ==> k < r.value) ==> !TerminatorAt(s, k)
    decreases |s| - i
  {
    if i >= |s| then None else if TerminatorAt(s, i) then Some(i) else TerminatorFrom(s, i + 1)
  }

  function TerminatorLength(s: seq<byte>, i: nat): (n: nat)
    requires TerminatorAt(s, i)
    ensures n > 0 && i + n <= |s|
  {
    if s[i] == BEL then 1 else 2
  }

  // ---- filtering ------------------------------------------------------------------------

  /** What one pass of the loop does with a non-empty buffer: emit `emit` bytes and
      hold the rest back, emit `emit` bytes of an oversized control and go on, or
      emit `emit` bytes, take out a control and go on at `next`. */
  datatype Cut = Hold(emit: nat) | Oversize(emit: nat) | Remove(emit: nat, value: seq<byte>, next: nat)

  function CutOf(s: seq<byte>, prefix: seq<byte>): (c: Cut)
    requires prefix != [] && s != []
    ensures match c {
              case Hold(emit) => emit <= |s|
              case Oversize(emit) => 0 < emit <= |s|
              case Remove(emit, _, next) => emit < next <= |s|
            }
  {
    match IndexFrom(s, prefix, 0)
    case None => Hold(|s| - Keep(s, prefix))
    case Some(i) =>
      var body := i + |prefix|;
      match TerminatorFrom(s, body)
      case None => if |s| - i > MAX_PENDING then Oversize(i + 1) else Hold(i)
      case Some(end) => Remove(i, s[body..end], end + TerminatorLength(s, end))
  }

  /** `values` are the values of the controls taken out; `oversize` says that an
      unfinished control was too long to wait for. */
  datatype Filtered = Filtered(output: seq<byte>, values: seq<seq<byte>>, pending: seq<byte>, oversize: bool)

  function Then(output: seq<byte>, values: seq<seq<byte>>, r: Filtered): Filtered
  {
    Filtered(output + r.output, values + r.values, r.pending, r.oversize)
  }

  function Filter(s: seq<byte>, prefix: seq<byte>): Filtered
    requires prefix != []
    decreases |s|
  {
    if s == [] then Filtered([], [], [], false)
    else
      match CutOf(s, prefix)
      case Hold(emit) => Filtered(s[..emit], [], s[emit..], false)
      case Oversize(emit) => Then(s[..emit], [], Filter(s[emit..], prefix)).(oversize := true)
      case Remove(emit, value, next) => Then(s[..emit], [value], Filter(s[next..], prefix))
  }

  /** The last valid value, if any. */
  function LastValid(tty: seq<byte>, values: seq<seq<byte>>, valid: seq<byte> -> bool): seq<byte>
    decreases |values|
  {
    if values == [] then tty
    else LastValid(if valid(values[0]) then values[0] else tty, values[1..], valid)
  }

  class PrivateControlFilter {
    var controlPending: seq<byte>
    var tty: seq<byte>

    constructor ()
      ensures controlPending == [] && tty == []
    {
      controlPending, tty := [], [];
    }

    method FilterPrivateControlOutput(data: seq<byte>, valid: seq<byte> -> bool) returns (output: seq<byte>)
      modifies this
      ensures var r := Filter(old(controlPending) + data, PREFIX);
              output == r.output && controlPending == r.pending && tty == LastValid(old(tty), r.values, valid)
    {
      hide Filter, LastValid;
      output := FilterOutput(data, PREFIX, valid);
    }

    /** The same for any prefix. */
    method FilterOutput(data: seq<byte>, prefix: seq<byte>, valid: seq<byte> -> bool) returns (output: seq<byte>)
      requires prefix != []
      modifies this
      ensures var r := Filter(old(controlPending) + data, prefix);
              output == r.output && controlPending == r.pending && tty == LastValid(old(tty), r.values, valid)
    {
      hide CutOf, LastValid, IndexFrom, TerminatorFrom, Keep, OccursAt, Filter, Agrees, TerminatorLength, TerminatorAt;
      NoValues(tty, valid);
      var buffer := controlPending + data;
      controlPending := [];
      output := [];
      ghost var goal, values := Filter(buffer, prefix), [];
      AgreesAtStart(goal);
      while |buffer| > 0
        invariant controlPending == []
        invariant Agrees(goal, output, values, Filter(buffer, prefix))
        invariant tty == LastValid(old(tty), values, valid)
        decreases |buffer|
      {
        var index := IndexFrom(buffer, prefix, 0);
        CutCases(buffer, prefix);
        FilterCases(buffer, prefix);
        if index.None? {
          var emit := |buffer| - Keep(buffer, prefix);
          AgreesAtEnd(goal, output, values, Filter(buffer, prefix));
          output := output + buffer[..emit];
          controlPending := buffer[emit..];
          return;
        }
        var i := index.value;
        OccursFits(buffer, prefix, i);
        var end := TerminatorFrom(buffer, i + |prefix|);
        if end.None? {
          if |buffer| - i > MAX_PENDING {
            AgreesThen(goal, output, values, Filter(buffer, prefix), buffer[..i + 1], [], Filter(buffer[i + 1..], prefix));
            Empty(values);
            output := output + buffer[..i + 1];
            buffer := buffer[i + 1..];
            continue;
          }
          AgreesAtEnd(goal, output, values, Filter(buffer, prefix));
          output := output + buffer[..i];
          controlPending := buffer[i..];
          return;
        }
        var value := buffer[i + |prefix|..end.value];
        var rest := buffer[end.value + TerminatorLength(buffer, end.value)..];
        LastValidSnoc(old(tty), values, value, valid);
        AgreesThen(goal, output, values, Filter(buffer, prefix), buffer[..i], [value], Filter(rest, prefix));
        if valid(value) {
          tty := value;
        }
        values := values + [value];
        output := output + buffer[..i];
        buffer := rest;
      }
      FilterNothing(prefix);
      AgreesAtEnd(goal, output, values, Filter(buffer, prefix));
      Empty(output);
    }
  }

  /** What has been put out so far and what the rest gives make up `goal`. */
  ghost predicate Agrees(goal: Filtered, output: seq<byte>, values: seq<seq<byte>>, r: Filtered)
  {
    goal.output == output + r.output && goal.values == values + r.values && goal.pending == r.pending
  }

  lemma AgreesAtStart(r: Filtered)
    ensures Agrees(r, [], [], r)
  {
    Empty(r.output);
    Empty(r.values);
  }

  lemma AgreesAtEnd(goal: Filtered, output: seq<byte>, values: seq<seq<byte>>, r: Filtered)
    requires Agrees(goal, output, values, r) && r.values == []
    ensures goal.output == output + r.output && goal.values == values && goal.pending == r.pending
  {
    Empty(values);
  }

  lemma AgreesThen(goal: Filtered, output: seq<byte>, values: seq<seq<byte>>, r: Filtered,
                   text: seq<byte>, more: seq<seq<byte>>, rest: Filtered)
    requires Agrees(goal, output, values, r)
    requires r.output == text + rest.output && r.values == more + rest.values && r.pending == rest.pending
    ensures Agrees(goal, output + text, values + more, rest)
  {
    Assoc(output, text, rest.output);
    Assoc(values, more, rest.values);
  }

  lemma NoValues(tty: seq<byte>, valid: seq<byte> -> bool)
    ensures LastValid(tty, [], valid) == tty
  {}

  lemma CutCases(s: seq<byte>, prefix: seq<byte>)
    requires prefix != [] && s != []
    ensures IndexFrom(s, prefix, 0).None? ==> CutOf(s, prefix) == Hold(|s| - Keep(s, prefix))
    ensures var i := IndexFrom(s, prefix, 0);
            i.Some? && TerminatorFrom(s, i.value + |prefix|).None? ==>
              CutOf(s, prefix) == if |s| - i.value > MAX_PENDING then Oversize(i.value + 1) else Hold(i.value)
    ensures var i := IndexFrom(s, prefix, 0);
            i.Some? && TerminatorFrom(s, i.value + |prefix|).Some? ==>
              var end := TerminatorFrom(s, i.value + |prefix|).value;
              CutOf(s, prefix) == Remove(i.value, s[i.value + |prefix|..end], end + TerminatorLength(s, end))
  {}

  lemma {:induction false} LastValidSnoc(tty: seq<byte>, values: seq<seq<byte>>, value: seq<byte>, valid: seq<byte> -> bool)
    ensures LastValid(tty, values + [value], valid) == if valid(value) then value else LastValid(tty, values, valid)
    decreases |values|
  {
    if values == [] {
      assert [] + [value] == [value] && [value][1..] == [];
    } else {
      LastValidSnoc(if valid(values[0]) then values[0] else tty, values[1..], value, valid);
      assert (values + [value])[1..] == values[1..] + [value];
    }
  }

  // ---- chunks do not matter ---------------------------------------------------------------

  lemma OccursExtends(s: seq<byte>, b: seq<byte>, prefix: seq<byte>, i: nat)
    ensures OccursAt(s, prefix, i) ==> OccursAt(s + b, prefix, i)
    ensures OccursAt(s + b, prefix, i) && i + |prefix| <= |s| ==> OccursAt(s, prefix, i)
  {
    if i + |prefix| <= |s| {
      SliceFirst(s, b, i, i + |prefix|);
    }
  }

  lemma TerminatorExtends(s: seq<byte>, b: seq<byte>, i: nat)
    ensures TerminatorAt(s, i) ==> TerminatorAt(s + b, i)
    ensures TerminatorAt(s + b, i) && i + 1 < |s| ==> TerminatorAt(s, i)
  {}

  lemma OccursFits(s: seq<byte>, prefix: seq<byte>, i: nat)
    requires OccursAt(s, prefix, i)
    ensures i + |prefix| <= |s|
  {}

  lemma IndexExtends(s: seq<byte>, b: seq<byte>, prefix: seq<byte>)
    requires IndexFrom(s, prefix, 0).Some?
    ensures IndexFrom(s + b, prefix, 0) == IndexFrom(s, prefix, 0)
  {
    hide IndexFrom, OccursAt;
    var i, r := IndexFrom(s, prefix, 0).value, IndexFrom(s + b, prefix, 0);
    OccursFits(s, prefix, i);
    OccursExtends(s, b, prefix, i);
    OccursExtends(s, b, prefix, r.value);
  }

  lemma TerminatorStays(s: seq<byte>, b: seq<byte>, at: nat)
    requires TerminatorFrom(s, at).Some?
    ensures TerminatorFrom(s + b, at) == TerminatorFrom(s, at)
  {
    var i, r := TerminatorFrom(s, at).value, TerminatorFrom(s + b, at);
    hide TerminatorFrom, TerminatorAt;
    TerminatorExtends(s, b, i);
    TerminatorExtends(s, b, r.value);
    TerminatorFits(s, i);
  }

  lemma TerminatorFits(s: seq<byte>, i: nat)
    requires TerminatorAt(s, i)
    ensures i < |s|
  {}

  lemma SameTerminator(s: seq<byte>, b: seq<byte>, i: nat)
    requires TerminatorAt(s, i)
    ensures TerminatorAt(s + b, i) && TerminatorLength(s + b, i) == TerminatorLength(s, i)
  {}

  /** A control found stays the first thing found. */
  lemma RemoveExtends(s: seq<byte>, b: seq<byte>, prefix: seq<byte>)
    requires prefix != [] && s != [] && CutOf(s, prefix).Remove?
    ensures CutOf(s + b, prefix) == CutOf(s, prefix)
  {
    hide IndexFrom, TerminatorFrom, OccursAt, TerminatorAt, TerminatorLength, Keep;
    IndexExtends(s, b, prefix);
    var i := IndexFrom(s, prefix, 0).value;
    TerminatorStays(s, b, i + |prefix|);
    var end := TerminatorFrom(s, i + |prefix|).value;
    SameTerminator(s, b, end);
    TerminatorFits(s, end);
    SliceFirst(s, b, i + |prefix|, end);
  }

  /** Nothing that starts in `u` matters: no prefix occurs there, and if none occurs
      at all, no end longer than `t` may become one. */
  ghost predicate Settled(u: seq<byte>, t: seq<byte>, prefix: seq<byte>)
  {
    && (forall k: nat :: k < |u| ==> !OccursAt(u + t, prefix, k))
    && (IndexFrom(u + t, prefix, 0).None? ==> forall k: nat :: k > |t| ==> !Border(u + t, prefix, k))
  }

  lemma OccursShift(u: seq<byte>, t: seq<byte>, prefix: seq<byte>, k: nat)
    ensures OccursAt(u + t, prefix, |u| + k) <==> OccursAt(t, prefix, k)
  {
    if k + |prefix| <= |t| {
      SliceSecond(u, t, k, k + |prefix|);
    }
  }

  lemma IndexShift(u: seq<byte>, t: seq<byte>, prefix: seq<byte>)
    requires forall k: nat :: k < |u| ==> !OccursAt(u + t, prefix, k)
    ensures IndexFrom(u + t, prefix, 0).Some? <==> IndexFrom(t, prefix, 0).Some?
    ensures IndexFrom(t, prefix, 0).Some? ==> IndexFrom(u + t, prefix, 0) == Some(|u| + IndexFrom(t, prefix, 0).value)
  {
    hide IndexFrom, OccursAt;
    var whole, part := IndexFrom(u + t, prefix, 0), IndexFrom(t, prefix, 0);
    if whole.Some? {
      OccursShift(u, t, prefix, whole.value - |u|);
    }
    if part.Some? {
      OccursShift(u, t, prefix, part.value);
    }
  }

  lemma TerminatorShift(u: seq<byte>, t: seq<byte>, i: nat)
    ensures TerminatorFrom(u + t, |u| + i).Some? <==> TerminatorFrom(t, i).Some?
    ensures TerminatorFrom(t, i).Some? ==> TerminatorFrom(u + t, |u| + i) == Some(|u| + TerminatorFrom(t, i).value)
  {
    forall k: nat ensures TerminatorAt(u + t, |u| + k) <==> TerminatorAt(t, k) {}
    var whole, part := TerminatorFrom(u + t, |u| + i), TerminatorFrom(t, i);
    if whole.Some? {
      assert TerminatorAt(t, whole.value - |u|);
    }
    if part.Some? {
      assert TerminatorAt(u + t, |u| + part.value);
    }
  }

  lemma KeepShift(u: seq<byte>, t: seq<byte>, prefix: seq<byte>)
    requires prefix != [] && forall k: nat :: k > |t| ==> !Border(u + t, prefix, k)
    ensures Keep(u + t, prefix) == Keep(t, prefix)
  {
    hide Keep;
    var whole, part := Keep(u + t, prefix), Keep(t, prefix);
    CutSecond(u, t, |t| - part);
    CutSecond(u, t, |t| - whole);
    assert Border(u + t, prefix, part);
    assert Border(t, prefix, whole);
  }

  /** A settled front passes through. */
  lemma FrontPasses(u: seq<byte>, t: seq<byte>, prefix: seq<byte>)
    requires prefix != [] && Settled(u, t, prefix)
    ensures Filter(u + t, prefix) == Then(u, [], Filter(t, prefix))
  {
    var s := u + t;
    hide Filter;
    if t == [] {
      assert s == u;
      FrontAlone(u, prefix);
    } else {
      CutShift(u, t, prefix);
      ShiftedFilter(u, t, prefix);
    }
  }

  lemma FrontAlone(u: seq<byte>, prefix: seq<byte>)
    requires prefix != [] && Settled(u, [], prefix)
    ensures Filter(u, prefix) == Then(u, [], Filter([], prefix))
  {
    assert u + [] == u;
    if u != [] {
      assert IndexFrom(u, prefix, 0).None?;
      assert Keep(u, prefix) == 0;
      assert u[..|u|] == u && u[|u|..] == [];
    }
  }

  function Shifted(c: Cut, n: nat): Cut
  {
    match c
    case Hold(emit) => Hold(n + emit)
    case Oversize(emit) => Oversize(n + emit)
    case Remove(emit, value, next) => Remove(n + emit, value, n + next)
  }

  lemma CutShift(u: seq<byte>, t: seq<byte>, prefix: seq<byte>)
    requires prefix != [] && t != [] && Settled(u, t, prefix)
    ensures CutOf(u + t, prefix) == Shifted(CutOf(t, prefix), |u|)
  {
    hide OccursAt, Border, TerminatorAt, Keep;
    IndexShift(u, t, prefix);
    match IndexFrom(t, prefix, 0)
    case None => KeepShift(u, t, prefix);
    case Some(i) =>
      TerminatorShift(u, t, i + |prefix|);
      match TerminatorFrom(t, i + |prefix|) {
        case None =>
        case Some(end) => ValueShift(u, t, i + |prefix|, end);
      }
  }

  lemma ValueShift(u: seq<byte>, t: seq<byte>, from: nat, end: nat)
    requires from <= end && TerminatorAt(t, end)
    ensures TerminatorAt(u + t, |u| + end) && TerminatorLength(u + t, |u| + end) == TerminatorLength(t, end)
    ensures (u + t)[|u| + from..|u| + end] == t[from..end]
  {}

  /** One pass of the loop, case by case. */
  ghost predicate FilterCase(s: seq<byte>, prefix: seq<byte>)
    requires prefix != [] && s != []
  {
    match CutOf(s, prefix)
    case Hold(emit) => Filter(s, prefix) == Filtered(s[..emit], [], s[emit..], false)
    case Oversize(emit) => Filter(s, prefix) == Then(s[..emit], [], Filter(s[emit..], prefix)).(oversize := true)
    case Remove(emit, value, next) => Filter(s, prefix) == Then(s[..emit], [value], Filter(s[next..], prefix))
  }

  lemma FilterCases(s: seq<byte>, prefix: seq<byte>)
    requires prefix != [] && s != []
    ensures FilterCase(s, prefix)
  {
    hide CutOf, Then;
  }

  lemma ShiftedFilter(u: seq<byte>, t: seq<byte>, prefix: seq<byte>)
    requires prefix != [] && t != [] && CutOf(u + t, prefix) == Shifted(CutOf(t, prefix), |u|)
    ensures Filter(u + t, prefix) == Then(u, [], Filter(t, prefix))
  {
    hide CutOf, Filter;
    FilterCases(u + t, prefix);
    FilterCases(t, prefix);
    var c := CutOf(t, prefix);
    CutSecond(u, t, c.emit);
    match c
    case Hold(emit) =>
      Empty<seq<byte>>([]);
    case Oversize(emit) =>
      var r := Filter(t[emit..], prefix);
      Assoc(u, t[..emit], r.output);
      Empty(r.values);
    case Remove(emit, value, next) =>
      var r := Filter(t[next..], prefix);
      CutSecond(u, t, next);
      Assoc(u, t[..emit], r.output);
      Empty([value] + r.values);
  }

  /** What is held back may be continued: the bytes emitted before it are settled. */
  lemma HoldSettles(s: seq<byte>, b: seq<byte>, prefix: seq<byte>)
    requires prefix != [] && s != [] && CutOf(s, prefix).Hold?
    ensures var emit := CutOf(s, prefix).emit;
            s + b == s[..emit] + (s[emit..] + b) && Settled(s[..emit], s[emit..] + b, prefix)
  {
    var emit := CutOf(s, prefix).emit;
    var u, t := s[..emit], s[emit..] + b;
    assert s + b == u + t;
    forall k: nat | k < emit ensures !OccursAt(s + b, prefix, k) {
      OccursExtends(s, b, prefix, k);
      if OccursAt(s + b, prefix, k) {
        CrossingIsBorder(s, b, prefix, k);
      }
    }
    if IndexFrom(s + b, prefix, 0).None? {
      if IndexFrom(s, prefix, 0).Some? {
        OccursExtends(s, b, prefix, IndexFrom(s, prefix, 0).value);
      }
      forall k: nat | k > |t| ensures !Border(s + b, prefix, k) {
        if Border(s + b, prefix, k) {
          LongBorder(s, b, prefix, k);
        }
      }
    }
  }

  /** An occurrence that crosses the end of `s` begins with an end of `s`. */
  lemma CrossingIsBorder(s: seq<byte>, b: seq<byte>, prefix: seq<byte>, k: nat)
    requires OccursAt(s + b, prefix, k) && k < |s| < k + |prefix|
    ensures Border(s, prefix, |s| - k)
  {
    var n := |s| - k;
    CutTwice(s + b, k, 0, |prefix|);
    CutFirst(s, b, k);
    CutFirst(s[k..], b, n);
    Empty(s[k..]);
    TakeTwice(s[k..] + b, |prefix|, n);
  }

  lemma LongBorder(s: seq<byte>, b: seq<byte>, prefix: seq<byte>, k: nat)
    requires Border(s + b, prefix, k) && k > |b|
    ensures Border(s, prefix, k - |b|)
  {
    var n := k - |b|;
    EndOfSum(s, b, n);
    var end := s[|s| - n..];
    CutFirst(end, b, n);
    Empty(end);
    TakeTwice(prefix, k, n);
  }

  lemma EndOfSum(s: seq<byte>, b: seq<byte>, n: nat)
    requires n <= |s|
    ensures |s + b| - (n + |b|) == |s| - n && (s + b)[|s + b| - (n + |b|)..] == s[|s| - n..] + b
  {
    CutFirst(s, b, |s| - n);
  }

  /** Filtering `a` and then `b` is filtering `a + b`, unless `a` alone holds an
      unfinished control of more than 512 bytes. */
  lemma {:induction false} FilterComposes(a: seq<byte>, b: seq<byte>, prefix: seq<byte>)
    requires prefix != [] && !Filter(a, prefix).oversize
    ensures var r := Filter(a, prefix);
            Filter(a + b, prefix) == Then(r.output, r.values, Filter(r.pending + b, prefix))
    decreases |a|
  {
    hide CutOf;
    if a == [] {
      assert a + b == b && [] + b == b;
      assert Then([], [], Filter(b, prefix)) == Filter(b, prefix) by { ThenNothing(Filter(b, prefix)); }
    } else {
      match CutOf(a, prefix)
      case Hold(emit) =>
        HoldSettles(a, b, prefix);
        hide Filter;
        FilterHold(a, prefix);
        FrontPasses(a[..emit], a[emit..] + b, prefix);
      case Oversize(emit) =>
      case Remove(emit, value, next) =>
        RemoveExtends(a, b, prefix);
        FilterComposes(a[next..], b, prefix);
        RemoveStep(a, b, prefix);
    }
  }

  lemma ThenNothing(r: Filtered)
    ensures Then([], [], r) == r
  {
    assert [] + r.output == r.output && [] + r.values == r.values;
  }

  lemma FilterHold(s: seq<byte>, prefix: seq<byte>)
    requires prefix != [] && s != [] && CutOf(s, prefix).Hold?
    ensures Filter(s, prefix) == Filtered(s[..CutOf(s, prefix).emit], [], s[CutOf(s, prefix).emit..], false)
  {
    hide CutOf, Filter;
    FilterCases(s, prefix);
  }

  lemma RemoveStep(a: seq<byte>, b: seq<byte>, prefix: seq<byte>)
    requires prefix != [] && a != [] && CutOf(a, prefix).Remove? && CutOf(a + b, prefix) == CutOf(a, prefix)
    requires var rest := Filter(a[CutOf(a, prefix).next..], prefix);
             Filter(a[CutOf(a, prefix).next..] + b, prefix) == Then(rest.output, rest.values, Filter(rest.pending + b, prefix))
    ensures var r := Filter(a, prefix);
            Filter(a + b, prefix) == Then(r.output, r.values, Filter(r.pending + b, prefix))
  {
    hide CutOf, Filter;
    var c := CutOf(a, prefix);
    var rest := Filter(a[c.next..], prefix);
    var last := Filter(rest.pending + b, prefix);
    CutFirst(a, b, c.emit);
    CutFirst(a, b, c.next);
    FilterRemove(a, prefix);
    FilterRemove(a + b, prefix);
    Assoc(a[..c.emit], rest.output, last.output);
    Assoc([c.value], rest.values, last.values);
  }

  lemma FilterRemove(s: seq<byte>, prefix: seq<byte>)
    requires prefix != [] && s != [] && CutOf(s, prefix).Remove?
    ensures var c := CutOf(s, prefix);
            Filter(s, prefix) == Then(s[..c.emit], [c.value], Filter(s[c.next..], prefix))
  {
    hide CutOf, Filter, Then;
    FilterCases(s, prefix);
  }

  /** Nothing longer than 512 bytes is ever held back. */
  lemma {:induction false} PendingIsBounded(s: seq<byte>, prefix: seq<byte>)
    requires prefix != [] && |prefix| <= MAX_PENDING
    ensures |Filter(s, prefix).pending| <= 512
    decreases |s|
  {
    if s != [] {
      match CutOf(s, prefix)
      case Hold(emit) =>
      case Oversize(emit) => PendingIsBounded(s[emit..], prefix);
      case Remove(_, _, next) => PendingIsBounded(s[next..], prefix);
    }
  }

  /** The two ways of filtering agree. */
  ghost predicate Composed(a: seq<byte>, b: seq<byte>, prefix: seq<byte>)
    requires prefix != []
  {
    var r := Filter(a, prefix);
    var whole, rest := Filter(a + b, prefix), Filter(r.pending + b, prefix);
    whole.output == r.output + rest.output && whole.values == r.values + rest.values && whole.pending == rest.pending
  }

  lemma OversizeEnds(s: seq<byte>, prefix: seq<byte>)
    requires prefix != [] && s != [] && CutOf(s, prefix).Oversize?
    ensures |Filter(s + [BEL], prefix).output| + 1 == CutOf(s, prefix).emit
  {
    var i := IndexFrom(s, prefix, 0).value;
    var t := s + [BEL];
    forall k: nat ensures (OccursAt(s, prefix, k) ==> OccursAt(t, prefix, k)) && (OccursAt(t, prefix, k) && k + |prefix| <= |s| ==> OccursAt(s, prefix, k)) {
      OccursExtends(s, [BEL], prefix, k);
    }
    assert IndexFrom(t, prefix, 0) == Some(i);
    assert TerminatorAt(t, |s|);
    forall k: nat | i + |prefix| <= k < |s| ensures !TerminatorAt(t, k) {
      assert !TerminatorAt(s, k);
      assert t[k] == s[k] && (k + 1 < |s| ==> t[k + 1] == s[k + 1]);
    }
    assert TerminatorFrom(t, i + |prefix|) == Some(|s|);
    assert t[|s| + 1..] == [];
  }

  /** With an oversized control the result depends on where the chunk ended. */
  lemma {:induction false} OversizeDiffers(a: seq<byte>, prefix: seq<byte>)
    requires prefix != [] && Filter(a, prefix).oversize
    ensures |Filter(a + [BEL], prefix).output| < |Filter(a, prefix).output|
    decreases |a|
  {
    hide CutOf;
    match CutOf(a, prefix)
    case Hold(_) =>
    case Oversize(emit) => OversizeEnds(a, prefix);
    case Remove(emit, value, next) =>
      RemoveExtends(a, [BEL], prefix);
      OversizeDiffers(a[next..], prefix);
      hide Filter;
      FilterRemove(a, prefix);
      FilterRemove(a + [BEL], prefix);
      CutFirst(a, [BEL], emit);
      CutFirst(a, [BEL], next);
  }

  // ---- when a control is too long to wait for ---------------------------------------------

  /** The introducer begins with an escape, and neither ends a control itself. */
  predicate Introducer(prefix: seq<byte>)
  {
    && |prefix| >= 2 && prefix[0] == ESC && prefix[1] != BACKSLASH
    && forall j :: 0 < j < |prefix| ==> prefix[j] != ESC && prefix[j] != BEL
  }

  lemma PrefixIntroduces()
    ensures Introducer(PREFIX)
  {}

  /** A control begins at `i`, is not ended, and is longer than 512 bytes. */
  predicate Unfinished(s: seq<byte>, prefix: seq<byte>, i: nat)
  {
    OccursAt(s, prefix, i) && TerminatorFrom(s, i + |prefix|).None? && |s| - i > MAX_PENDING
  }

  ghost predicate HoldsOversized(s: seq<byte>, prefix: seq<byte>)
  {
    exists i: nat :: Unfinished(s, prefix, i)
  }

  lemma UnfinishedShift(u: seq<byte>, t: seq<byte>, prefix: seq<byte>, i: nat)
    requires prefix != []
    ensures Unfinished(u + t, prefix, |u| + i) <==> Unfinished(t, prefix, i)
  {
    hide OccursAt, TerminatorFrom;
    OccursShift(u, t, prefix, i);
    TerminatorShift(u, t, i + |prefix|);
  }

  /** No control ends inside an introducer or across its start. */
  lemma EndsBefore(s: seq<byte>, prefix: seq<byte>, i: nat, end: nat)
    requires Introducer(prefix) && OccursAt(s, prefix, i) && TerminatorAt(s, end) && end < i + |prefix|
    ensures end + TerminatorLength(s, end) <= i
  {
    OccursByte(s, prefix, i, 0);
    OccursByte(s, prefix, i, 1);
    OccursByte(s, prefix, i, if end >= i then end - i else 0);
  }

  lemma OccursByte(s: seq<byte>, prefix: seq<byte>, i: nat, j: nat)
    requires OccursAt(s, prefix, i) && j < |prefix|
    ensures i + j < |s| && s[i + j] == prefix[j]
  {
    assert s[i..i + |prefix|][j] == prefix[j];
  }

  /** A control removed lies before an unfinished one. */
  lemma RemovedBefore(s: seq<byte>, prefix: seq<byte>, i: nat)
    requires Introducer(prefix) && s != [] && Unfinished(s, prefix, i)
    ensures CutOf(s, prefix).Oversize? || (CutOf(s, prefix).Remove? && CutOf(s, prefix).next <= i)
  {
    hide OccursAt, TerminatorAt, TerminatorLength, Introducer;
    var f := IndexFrom(s, prefix, 0);
    assert f.Some? && f.value <= i;
    match TerminatorFrom(s, f.value + |prefix|)
    case None =>
    case Some(end) =>
      assert end < i + |prefix|;
      EndsBefore(s, prefix, i, end);
  }

  lemma OversizeIsUnfinished(s: seq<byte>, prefix: seq<byte>)
    requires prefix != [] && s != [] && CutOf(s, prefix).Oversize?
    ensures HoldsOversized(s, prefix)
  {
    hide OccursAt, TerminatorAt;
    assert Unfinished(s, prefix, IndexFrom(s, prefix, 0).value);
  }

  /** The branch for oversized controls is met exactly if the bytes hold one. */
  lemma {:induction false} OversizeMet(s: seq<byte>, prefix: seq<byte>)
    requires Introducer(prefix)
    ensures Filter(s, prefix).oversize <==> HoldsOversized(s, prefix)
    decreases |s|
  {
    hide CutOf, Unfinished;
    if s == [] {
      NothingUnfinished(prefix);
    } else {
      forall i: nat | Unfinished(s, prefix, i)
        ensures CutOf(s, prefix).Oversize? || (CutOf(s, prefix).Remove? && CutOf(s, prefix).next <= i)
      {
        RemovedBefore(s, prefix, i);
      }
      match CutOf(s, prefix)
      case Hold(_) =>
      case Oversize(_) => OversizeIsUnfinished(s, prefix);
      case Remove(_, _, next) =>
        OversizeMet(s[next..], prefix);
        SplitAt(s, next);
        hide Filter;
        FilterRemove(s, prefix);
        forall i: nat ensures Unfinished(s, prefix, next + i) <==> Unfinished(s[next..], prefix, i) {
          UnfinishedShift(s[..next], s[next..], prefix, i);
        }
        forall i: nat | Unfinished(s, prefix, i) ensures Unfinished(s[next..], prefix, i - next) {
          assert i == next + (i - next);
        }
    }
  }

  lemma NothingUnfinished(prefix: seq<byte>)
    requires Introducer(prefix)
    ensures !HoldsOversized([], prefix) && !Filter([], prefix).oversize
  {}

  /** A chunk boundary is harmless for every continuation exactly if the chunk holds
      no unfinished control of more than 512 bytes. */
  lemma BoundaryIsHarmless(a: seq<byte>)
    ensures (forall b :: Composed(a, b, PREFIX)) <==> !HoldsOversized(a, PREFIX)
  {
    hide Filter, HoldsOversized;
    PrefixIntroduces();
    OversizeMet(a, PREFIX);
    if Filter(a, PREFIX).oversize {
      OversizeDiffers(a, PREFIX);
      assert !Composed(a, [BEL], PREFIX);
    } else {
      forall b ensures Composed(a, b, PREFIX) {
        FilterComposes(a, b, PREFIX);
      }
    }
  }

  /** An introducer and 494 letters, cut before the terminator. */
  lemma BoundaryCanMatter()
    ensures var a := PREFIX + seq(494, _ => 0x61 as byte);
            HoldsOversized(a, PREFIX) && !Composed(a, [BEL], PREFIX)
  {
    hide Filter, TerminatorFrom;
    var letters := seq(494, _ => 0x61 as byte);
    var a := PREFIX + letters;
    assert a[0..|PREFIX|] == PREFIX;
    forall k: nat | |PREFIX| <= k ensures !TerminatorAt(a, k) {
      assert k < |a| ==> a[k] == letters[k - |PREFIX|];
    }
    assert Unfinished(a, PREFIX, 0);
    PrefixIntroduces();
    OversizeMet(a, PREFIX);
    OversizeDiffers(a, PREFIX);
  }

  /** All outputs and values of a sequence of calls. */
  function Feed(chunks: seq<seq<byte>>, prefix: seq<byte>): Filtered
    requires prefix != []
  {
    if chunks == [] then Filtered([], [], [], false)
    else
      var r := Feed(chunks[..|chunks| - 1], prefix);
      var z := Filter(r.pending + chunks[|chunks| - 1], prefix);
      Filtered(r.output + z.output, r.values + z.values, z.pending, r.oversize || z.oversize)
  }

  /** However output is cut into chunks, the filter gives the same, as long as no
      chunk ends with an unfinished control of more than 512 bytes. */
  lemma {:induction false} ChunksDoNotMatter(chunks: seq<seq<byte>>)
    requires forall k :: 0 <= k < |chunks| ==> !HoldsOversized(Flatten(chunks[..k]), PREFIX)
    ensures Feed(chunks, PREFIX) == Filter(Flatten(chunks), PREFIX)
  {
    hide Filter, HoldsOversized;
    if chunks == [] {
      FilterNothing(PREFIX);
    } else {
      var front, last := chunks[..|chunks| - 1], chunks[|chunks| - 1];
      forall k | 0 <= k < |front| ensures front[..k] == chunks[..k] {}
      ChunksDoNotMatter(front);
      PrefixIntroduces();
      OversizeMet(Flatten(front), PREFIX);
      FilterComposes(Flatten(front), last, PREFIX);
      FlattenSnoc(front, last);
      assert front + [last] == chunks;
    }
  }

  lemma FilterNothing(prefix: seq<byte>)
    requires prefix != []
    ensures Filter([], prefix) == Filtered([], [], [], false)
  {}

  // ---- nothing is lost --------------------------------------------------------------------

  datatype Piece = Text(bytes: seq<byte>) | Control(value: seq<byte>, terminator: seq<byte>)

  function Encode(pieces: seq<Piece>, prefix: seq<byte>): seq<byte>
  {
    if pieces == [] then []
    else
      (match pieces[0]
       case Text(bytes) => bytes
       case Control(value, terminator) => prefix + value + terminator)
      + Encode(pieces[1..], prefix)
  }

  function TextOf(pieces: seq<Piece>): seq<byte>
  {
    if pieces == [] then [] else (if pieces[0].Text? then pieces[0].bytes else []) + TextOf(pieces[1..])
  }

  function ValuesOf(pieces: seq<Piece>): seq<seq<byte>>
  {
    if pieces == [] then [] else (if pieces[0].Control? then [pieces[0].value] else []) + ValuesOf(pieces[1..])
  }

  predicate PiecesOk(pieces: seq<Piece>)
  {
    forall i :: 0 <= i < |pieces| && pieces[i].Control? ==> pieces[i].terminator == [BEL] || pieces[i].terminator == [ESC, BACKSLASH]
  }

  /** The input as text, complete controls and what is held back. */
  ghost predicate Explains(pieces: seq<Piece>, s: seq<byte>, r: Filtered, prefix: seq<byte>)
  {
    && PiecesOk(pieces) && Encode(pieces, prefix) + r.pending == s
    && TextOf(pieces) == r.output && ValuesOf(pieces) == r.values
  }

  function Parse(s: seq<byte>, prefix: seq<byte>): seq<Piece>
    requires prefix != []
    decreases |s|
  {
    if s == [] then []
    else
      match CutOf(s, prefix)
      case Hold(emit) => [Text(s[..emit])]
      case Oversize(emit) => [Text(s[..emit])] + Parse(s[emit..], prefix)
      case Remove(emit, value, next) =>
        var end := emit + |prefix| + |value|;
        [Text(s[..emit])] + ([Control(value, if end <= next then s[end..next] else [])] + Parse(s[next..], prefix))
  }

  lemma ConsText(bytes: seq<byte>, pieces: seq<Piece>, prefix: seq<byte>)
    ensures var all := [Text(bytes)] + pieces;
            && Encode(all, prefix) == bytes + Encode(pieces, prefix) && TextOf(all) == bytes + TextOf(pieces)
            && ValuesOf(all) == ValuesOf(pieces) && (PiecesOk(pieces) ==> PiecesOk(all))
  {
    assert ([Text(bytes)] + pieces)[1..] == pieces;
    assert [] + ValuesOf(pieces) == ValuesOf(pieces);
  }

  lemma ConsControl(value: seq<byte>, terminator: seq<byte>, pieces: seq<Piece>, prefix: seq<byte>)
    ensures var all := [Control(value, terminator)] + pieces;
            && Encode(all, prefix) == prefix + value + terminator + Encode(pieces, prefix) && TextOf(all) == TextOf(pieces)
            && ValuesOf(all) == [value] + ValuesOf(pieces)
            && (PiecesOk(pieces) && (terminator == [BEL] || terminator == [ESC, BACKSLASH]) ==> PiecesOk(all))
  {
    assert ([Control(value, terminator)] + pieces)[1..] == pieces;
    assert [] + TextOf(pieces) == TextOf(pieces);
  }

  lemma RemoveCut(s: seq<byte>, prefix: seq<byte>)
    requires prefix != [] && s != [] && CutOf(s, prefix).Remove?
    ensures var c := CutOf(s, prefix);
            var end := c.emit + |prefix| + |c.value|;
            && end <= c.next <= |s| && (s[end..c.next] == [BEL] || s[end..c.next] == [ESC, BACKSLASH])
            && s == s[..c.emit] + (prefix + c.value + s[end..c.next] + s[c.next..])
  {
    hide CutOf, IndexFrom, TerminatorFrom, OccursAt, TerminatorAt, TerminatorLength;
    CutCases(s, prefix);
    var i := IndexFrom(s, prefix, 0).value;
    RemoveParts(s, prefix, i, TerminatorFrom(s, i + |prefix|).value);
  }

  lemma RemoveParts(s: seq<byte>, prefix: seq<byte>, i: nat, end: nat)
    requires OccursAt(s, prefix, i) && i + |prefix| <= end && TerminatorAt(s, end)
    ensures var value, next := s[i + |prefix|..end], end + TerminatorLength(s, end);
            && i + |prefix| + |value| == end && next <= |s| && (s[end..next] == [BEL] || s[end..next] == [ESC, BACKSLASH])
            && s == s[..i] + (prefix + value + s[end..next] + s[next..])
  {
    PrefixHere(s, prefix, i);
    TerminatorBytes(s, end);
    hide OccursAt, TerminatorAt, TerminatorLength;
    FourParts(s, i, i + |prefix|, end, end + TerminatorLength(s, end));
  }

  lemma PrefixHere(s: seq<byte>, prefix: seq<byte>, i: nat)
    requires OccursAt(s, prefix, i)
    ensures i + |prefix| <= |s| && s[i..i + |prefix|] == prefix
  {}

  lemma TerminatorBytes(s: seq<byte>, end: nat)
    requires TerminatorAt(s, end)
    ensures end < |s|
    ensures var t := s[end..end + TerminatorLength(s, end)];
            t == [BEL] || t == [ESC, BACKSLASH]
  {}

  lemma FourParts(s: seq<byte>, i: nat, j: nat, k: nat, n: nat)
    requires i <= j <= k <= n <= |s|
    ensures s == s[..i] + (s[i..j] + s[j..k] + s[k..n] + s[n..])
  {
    SliceJoin(s, i, j, k);
    SliceJoin(s, i, k, n);
    SplitTwice(s, i, n);
  }

  lemma SliceJoin(s: seq<byte>, i: nat, j: nat, k: nat)
    requires i <= j <= k <= |s|
    ensures s[i..j] + s[j..k] == s[i..k]
  {}

  /** The filter removes complete controls and nothing else: text, controls and what
      is held back make up the input, in order. */
  lemma {:induction false} NothingLost(s: seq<byte>, prefix: seq<byte>)
    requires prefix != []
    ensures Explains(Parse(s, prefix), s, Filter(s, prefix), prefix)
    decreases |s|
  {
    hide CutOf, Encode, TextOf, ValuesOf, PiecesOk, Filter, Parse, Explains;
    if s == [] {
      NothingToExplain(prefix);
    } else {
      FilterCases(s, prefix);
      ParseCases(s, prefix);
      match CutOf(s, prefix)
      case Hold(emit) =>
        SplitAt(s, emit);
        HoldExplained(s[..emit], s[emit..], prefix);
      case Oversize(emit) =>
        NothingLost(s[emit..], prefix);
        SplitAt(s, emit);
        OversizeExplained(s[..emit], s[emit..], Parse(s[emit..], prefix), Filter(s[emit..], prefix), prefix);
      case Remove(emit, value, next) =>
        NothingLost(s[next..], prefix);
        RemoveCut(s, prefix);
        var end := emit + |prefix| + |value|;
        RemoveExplained(s[..emit], value, s[end..next], s[next..], Parse(s[next..], prefix), Filter(s[next..], prefix), prefix);
    }
  }

  ghost predicate ParseCase(s: seq<byte>, prefix: seq<byte>)
    requires prefix != [] && s != []
  {
    match CutOf(s, prefix)
    case Hold(emit) => Parse(s, prefix) == [Text(s[..emit])]
    case Oversize(emit) => Parse(s, prefix) == [Text(s[..emit])] + Parse(s[emit..], prefix)
    case Remove(emit, value, next) =>
      var end := emit + |prefix| + |value|;
      end <= next ==> Parse(s, prefix) == [Text(s[..emit])] + ([Control(value, s[end..next])] + Parse(s[next..], prefix))
  }

  lemma ParseCases(s: seq<byte>, prefix: seq<byte>)
    requires prefix != [] && s != []
    ensures ParseCase(s, prefix)
  {
    hide CutOf;
  }

  lemma NothingToExplain(prefix: seq<byte>)
    requires prefix != []
    ensures Explains(Parse([], prefix), [], Filter([], prefix), prefix)
  {
    NoPieces(prefix);
  }

  lemma HoldExplained(text: seq<byte>, pending: seq<byte>, prefix: seq<byte>)
    ensures Explains([Text(text)], text + pending, Filtered(text, [], pending, false), prefix)
  {
    hide Encode, TextOf, ValuesOf, PiecesOk;
    var none: seq<Piece> := [];
    NoPieces(prefix);
    ConsText(text, none, prefix);
    Empty([Text(text)]);
    Empty(text);
  }

  lemma OversizeExplained(text: seq<byte>, rest: seq<byte>, pieces: seq<Piece>, r: Filtered, prefix: seq<byte>)
    requires Explains(pieces, rest, r, prefix)
    ensures Explains([Text(text)] + pieces, text + rest, Then(text, [], r).(oversize := true), prefix)
  {
    hide Encode, TextOf, ValuesOf, PiecesOk;
    ConsText(text, pieces, prefix);
    Assoc(text, Encode(pieces, prefix), r.pending);
    Empty(r.values);
  }

  lemma NoPieces(prefix: seq<byte>)
    ensures Encode([], prefix) == [] && TextOf([]) == [] && ValuesOf([]) == [] && PiecesOk([])
  {}

  lemma RemoveExplained(text: seq<byte>, value: seq<byte>, terminator: seq<byte>, rest: seq<byte>,
                        pieces: seq<Piece>, r: Filtered, prefix: seq<byte>)
    requires Explains(pieces, rest, r, prefix) && (terminator == [BEL] || terminator == [ESC, BACKSLASH])
    ensures Explains([Text(text)] + ([Control(value, terminator)] + pieces), text + (prefix + value + terminator + rest),
                     Then(text, [value], r), prefix)
  {
    hide Encode, TextOf, ValuesOf, PiecesOk;
    var more := [Control(value, terminator)] + pieces;
    ConsControl(value, terminator, pieces, prefix);
    ConsText(text, more, prefix);
    var body := prefix + value + terminator;
    Assoc(text, body + Encode(pieces, prefix), r.pending);
    Assoc(body, Encode(pieces, prefix), r.pending);
  }

  // ---- every complete control is taken out --------------------------------------------------

  /** A control behind any text that holds no introducer of its own is taken out, with its
      value, and filtering goes on behind it. */
  lemma ControlIsTakenOut(text: seq<byte>, value: seq<byte>, bel: bool, rest: seq<byte>, prefix: seq<byte>)
    requires prefix != [] && forall k: nat :: k < |text| ==> !OccursAt(text + prefix, prefix, k)
    requires var terminator := if bel then [BEL] else [ESC, BACKSLASH];
             forall k: nat :: k < |value| ==> !TerminatorAt(value + terminator, k)
    ensures var terminator := if bel then [BEL] else [ESC, BACKSLASH];
            Filter(text + (prefix + (value + (terminator + rest))), prefix) == Then(text, [value], Filter(rest, prefix))
  {
    hide Filter, IndexFrom, TerminatorFrom, CutOf, OccursAt, TerminatorAt, TerminatorLength, Then;
    var terminator := if bel then [BEL] else [ESC, BACKSLASH];
    var tail := value + (terminator + rest);
    var s := text + (prefix + tail);
    FirstIntroducer(text, tail, prefix);
    FirstEnd(text, value, bel, rest, prefix);
    CutCases(s, prefix);
    var body := |text| + |prefix|;
    ControlParts(text, prefix, value, terminator, rest);
    FilterRemove(s, prefix);
  }

  lemma FirstIntroducer(text: seq<byte>, tail: seq<byte>, prefix: seq<byte>)
    requires prefix != [] && forall k: nat :: k < |text| ==> !OccursAt(text + prefix, prefix, k)
    ensures IndexFrom(text + (prefix + tail), prefix, 0) == Some(|text|)
  {
    hide IndexFrom, OccursAt;
    var s := text + (prefix + tail);
    Assoc(text, prefix, tail);
    IntroducerHere(text, tail, prefix);
    var r := IndexFrom(s, prefix, 0);
    if r.Some? && r.value < |text| {
      OccursExtends(text + prefix, tail, prefix, r.value);
    }
  }

  lemma IntroducerHere(text: seq<byte>, tail: seq<byte>, prefix: seq<byte>)
    ensures OccursAt(text + (prefix + tail), prefix, |text|)
  {
    SliceSecond(text, prefix + tail, 0, |prefix|);
    SliceFirst(prefix, tail, 0, |prefix|);
    Empty(prefix);
  }

  lemma FirstEnd(text: seq<byte>, value: seq<byte>, bel: bool, rest: seq<byte>, prefix: seq<byte>)
    requires var terminator := if bel then [BEL] else [ESC, BACKSLASH];
             forall k: nat :: k < |value| ==> !TerminatorAt(value + terminator, k)
    ensures var terminator := if bel then [BEL] else [ESC, BACKSLASH];
            var s, body := text + (prefix + (value + (terminator + rest))), |text| + |prefix|;
            && TerminatorFrom(s, body) == Some(body + |value|)
            && TerminatorLength(s, body + |value|) == |terminator|
  {
    hide TerminatorFrom;
    var terminator := if bel then [BEL] else [ESC, BACKSLASH];
    var tail := value + (terminator + rest);
    var front := text + prefix;
    Assoc(text, prefix, tail);
    TerminatorShift(front, tail, 0);
    Assoc(value, terminator, rest);
    assert TerminatorAt(tail, |value|);
    var r := TerminatorFrom(tail, 0);
    if r.Some? && r.value < |value| {
      TerminatorExtends(value + terminator, rest, r.value);
    }
    var s := front + tail;
    assert s[|front| + |value|] == tail[|value|] == terminator[0];
  }

  lemma ControlParts(text: seq<byte>, prefix: seq<byte>, value: seq<byte>, terminator: seq<byte>, rest: seq<byte>)
    ensures var s, body := text + (prefix + (value + (terminator + rest))), |text| + |prefix|;
            && s[..|text|] == text && s[body..body + |value|] == value && s[body + |value| + |terminator|..] == rest
  {
    var s, body := text + (prefix + (value + (terminator + rest))), |text| + |prefix|;
    Assoc(text, prefix, value + (terminator + rest));
    CutFirst(text, prefix + (value + (terminator + rest)), |text|);
    Empty(text);
    SliceSecond(text + prefix, value + (terminator + rest), 0, |value|);
    SliceFirst(value, terminator + rest, 0, |value|);
    Empty(value);
    CutSecond(text + prefix, value + (terminator + rest), |value| + |terminator|);
    Assoc(value, terminator, rest);
    CutSecond(value + terminator, rest, 0);
    Empty(rest);
  }

  /** The terminal name kept is the last valid one, or the one there was before. */
  lemma {:induction false} LastValidIs(tty: seq<byte>, values: seq<seq<byte>>, valid: seq<byte> -> bool)
    ensures var name := LastValid(tty, values, valid);
            || (name == tty && forall i :: 0 <= i < |values| ==> !valid(values[i]))
            || (exists i :: 0 <= i < |values| && valid(values[i]) && name == values[i] && forall k :: i < k < |values| ==> !valid(values[k]))
    decreases |values|
  {
    if values != [] {
      var rest := values[1..];
      LastValidIs(if valid(values[0]) then values[0] else tty, rest, valid);
      var name := LastValid(tty, values, valid);
      if exists i :: 0 <= i < |rest| && valid(rest[i]) && name == rest[i] && forall k :: i < k < |rest| ==> !valid(rest[k]) {
        var i :| 0 <= i < |rest| && valid(rest[i]) && name == rest[i] && forall k :: i < k < |rest| ==> !valid(rest[k]);
        forall k | i + 1 < k < |values| ensures !valid(values[k]) {
          assert !valid(rest[k - 1]);
        }
        assert valid(values[i + 1]) && name == values[i + 1];
      } else {
        forall k | 0 < k < |values| ensures !valid(values[k]) {
          assert !valid(rest[k - 1]);
        }
      }
    }
  }

  /** What is held back: a control that has begun and not ended, or bytes that may be the
      beginning of an introducer. */
  ghost predicate Waiting(pending: seq<byte>, prefix: seq<byte>)
  {
    || (|pending| < |prefix| && pending == prefix[..|pending|])
    || (|pending| <= 512 && OccursAt(pending, prefix, 0) && forall k: nat :: k >= |prefix| ==> !TerminatorAt(pending, k))
  }

  lemma {:induction false} PendingWaits(s: seq<byte>, prefix: seq<byte>)
    requires prefix != []
    ensures Waiting(Filter(s, prefix).pending, prefix)
    decreases |s|
  {
    hide Filter, CutOf, Waiting;
    FilterNothing(prefix);
    NothingWaits(prefix);
    if s != [] {
      FilterCases(s, prefix);
      match CutOf(s, prefix)
      case Hold(emit) => HoldWaits(s, prefix);
      case Oversize(emit) => PendingWaits(s[emit..], prefix);
      case Remove(_, _, next) => PendingWaits(s[next..], prefix);
    }
  }

  lemma NothingWaits(prefix: seq<byte>)
    requires prefix != []
    ensures Waiting([], prefix)
  {}

  lemma HoldWaits(s: seq<byte>, prefix: seq<byte>)
    requires prefix != [] && s != [] && CutOf(s, prefix).Hold?
    ensures Waiting(s[CutOf(s, prefix).emit..], prefix)
  {
    hide TerminatorFrom, IndexFrom, TerminatorAt;
    CutCases(s, prefix);
    var i := IndexFrom(s, prefix, 0);
    if i.Some? {
      var u, t := s[..i.value], s[i.value..];
      SplitAt(s, i.value);
      OccursFits(s, prefix, i.value);
      OccursShift(u, t, prefix, 0);
      TerminatorShift(u, t, |prefix|);
    }
  }

  /** A control that has not ended is waited for up to 512 bytes, with nothing put out. */
  lemma UnfinishedIsKept(value: seq<byte>)
    requires |PREFIX| + |value| <= 512 && forall k: nat :: k < |value| ==> !TerminatorAt(value, k)
    ensures Filter(PREFIX + value, PREFIX) == Filtered([], [], PREFIX + value, false)
  {
    hide IndexFrom, TerminatorFrom, TerminatorAt, CutOf, Filter;
    var s := PREFIX + value;
    Empty(PREFIX);
    FirstIntroducer([], value, PREFIX);
    Empty(s);
    TerminatorShift(PREFIX, value, 0);
    NoTerminator(value);
    CutCases(s, PREFIX);
    FilterHold(s, PREFIX);
  }

  lemma NoTerminator(value: seq<byte>)
    requires forall k: nat :: k < |value| ==> !TerminatorAt(value, k)
    ensures TerminatorFrom(value, 0).None?
  {
    var r := TerminatorFrom(value, 0);
    if r.Some? {
      TerminatorFits(value, r.value);
    }
    hide TerminatorAt, TerminatorFrom;
  }
}
