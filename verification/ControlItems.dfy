/** What the items of a terminal's output are, said without a scanner: characters, escape
    sequences, control sequences and control strings (sections 5.3 to 5.6 of ECMA-48, with
    the deviations of core/terminal_checkpoint_runtime.go:318-385); and that a checkpoint is
    cut behind the last of them that is complete. */
module ControlItems {
  import opened Bytes
  import opened CheckpointBoundary

  const BEL: byte := 0x07

  /** CAN and SUB end whatever they meet. */
  predicate Cancels(b: byte)
  {
    b == 0x18 || b == 0x1a
  }

  /** What may stand between ESC and the byte that says what follows. */
  predicate Intermediate(b: byte)
  {
    !Cancels(b) && !(0x30 <= b <= 0x7e)
  }

  /** What may stand between ESC [ and the final byte. */
  predicate Parameter(b: byte)
  {
    !Cancels(b) && b != ESC && !(0x40 <= b <= 0x7e)
  }

  /** The bytes that open a control string: OSC, DCS, APC, PM and SOS. */
  predicate OpensString(b: byte)
  {
    b in {']' as byte, 'P' as byte, '_' as byte, '^' as byte, 'X' as byte}
  }

  /** How many bytes at the front may stand between ESC and the byte that decides. */
  function Intermediates(t: seq<byte>): (n: nat)
    ensures n <= |t|
  {
    if t != [] && Intermediate(t[0]) then 1 + Intermediates(t[1..]) else 0
  }

  function Parameters(u: seq<byte>): (m: nat)
    ensures m <= |u|
  {
    if u != [] && Parameter(u[0]) then 1 + Parameters(u[1..]) else 0
  }

  /** What follows an ESC: intermediate bytes, and then a final byte, a control sequence,
      or a control string. */
  ghost predicate IsSequence(t: seq<byte>)
    decreases |t|, 0
  {
    var n := Intermediates(t);
    n < |t| && SequenceBehind(t[n], t[n + 1..])
  }

  ghost predicate SequenceBehind(kind: byte, rest: seq<byte>)
    decreases |rest|, 1
  {
    || (rest == [] && (Cancels(kind) || (0x30 <= kind <= 0x7e && kind != '[' as byte && !OpensString(kind))))
    || (kind == '[' as byte && IsControl(rest))
    || (OpensString(kind) && IsString(rest, kind == ']' as byte))
  }

  /** What follows ESC [: parameters and a final byte from '@' to '~', unless an ESC comes
      first and begins anew. */
  ghost predicate IsControl(u: seq<byte>)
    decreases |u|, 0
  {
    var m := Parameters(u);
    m < |u| && ControlBehind(u[m], u[m + 1..])
  }

  ghost predicate ControlBehind(last: byte, rest: seq<byte>)
    decreases |rest|, 1
  {
    || (rest == [] && (Cancels(last) || 0x40 <= last <= 0x7e))
    || (last == ESC && IsSequence(rest))
  }

  /** A control string ends at ESC \, an OSC also at BEL, though not right behind an ESC;
      `escaped` says that an ESC came right before. */
  predicate EndsAt(u: seq<byte>, k: nat, bel: bool, escaped: bool)
    requires k < |u|
  {
    var behindEsc := if k == 0 then escaped else u[k - 1] == ESC;
    Cancels(u[k]) || (u[k] == '\\' as byte && behindEsc) || (bel && u[k] == BEL && !behindEsc)
  }

  /** The body of a control string, up to its first end. */
  ghost predicate StringRest(u: seq<byte>, bel: bool, escaped: bool)
  {
    && u != [] && EndsAt(u, |u| - 1, bel, escaped)
    && (forall k :: 0 <= k < |u| - 1 ==> !EndsAt(u, k, bel, escaped))
  }

  ghost predicate IsString(u: seq<byte>, bel: bool)
  {
    StringRest(u, bel, false)
  }

  /** An item that begins below 0x80: any one byte but ESC, or ESC and what follows it. */
  ghost predicate IsItem(s: seq<byte>)
  {
    s != [] && if s[0] == ESC then IsSequence(s[1..]) else |s| == 1
  }

  // ---- the first byte decides --------------------------------------------------------

  lemma SequenceStep(t: seq<byte>)
    requires t != []
    ensures IsSequence(t) <==>
              if Intermediate(t[0]) then IsSequence(t[1..])
              else if t[0] == '[' as byte then IsControl(t[1..])
              else if OpensString(t[0]) then IsString(t[1..], t[0] == ']' as byte)
              else |t| == 1
  {
    hide SequenceBehind, Intermediate;
    SequenceFrom(t);
    SequenceFrom(t[1..]);
    hide IsControl, IsSequence, IsString, Intermediates;
    IntermediatesStep(t);
    if Intermediate(t[0]) {
      var n := Intermediates(t[1..]);
      if n < |t[1..]| {
        CutTwice(t, 1, n + 1, n + 1);
      }
    } else {
      SequenceKind(t[0], t[1..]);
    }
  }

  lemma SequenceFrom(t: seq<byte>)
    ensures var n := Intermediates(t);
            IsSequence(t) <==> n < |t| && SequenceBehind(t[n], t[n + 1..])
  {
    hide SequenceBehind, Intermediates;
  }

  lemma IntermediatesStep(t: seq<byte>)
    requires t != []
    ensures Intermediates(t) == if Intermediate(t[0]) then 1 + Intermediates(t[1..]) else 0
  {
    hide Intermediate;
  }

  lemma SequenceKind(kind: byte, rest: seq<byte>)
    requires !Intermediate(kind)
    ensures SequenceBehind(kind, rest) <==>
              if kind == '[' as byte then IsControl(rest)
              else if OpensString(kind) then IsString(rest, kind == ']' as byte)
              else rest == []
  {
    hide IsControl, IsString;
  }

  lemma ControlStep(u: seq<byte>)
    requires u != []
    ensures IsControl(u) <==>
              if Parameter(u[0]) then IsControl(u[1..])
              else if u[0] == ESC then IsSequence(u[1..])
              else |u| == 1
  {
    hide ControlBehind, Parameter;
    ControlFrom(u);
    ControlFrom(u[1..]);
    hide IsControl, IsSequence, Parameters;
    ParametersStep(u);
    if Parameter(u[0]) {
      var m := Parameters(u[1..]);
      if m < |u[1..]| {
        CutTwice(u, 1, m + 1, m + 1);
      }
    } else {
      ControlLast(u[0], u[1..]);
    }
  }

  lemma ControlFrom(u: seq<byte>)
    ensures var m := Parameters(u);
            IsControl(u) <==> m < |u| && ControlBehind(u[m], u[m + 1..])
  {
    hide ControlBehind, Parameters;
  }

  lemma ParametersStep(u: seq<byte>)
    requires u != []
    ensures Parameters(u) == if Parameter(u[0]) then 1 + Parameters(u[1..]) else 0
  {
    hide Parameter;
  }

  lemma ControlLast(last: byte, rest: seq<byte>)
    requires !Parameter(last)
    ensures ControlBehind(last, rest) <==> if last == ESC then IsSequence(rest) else rest == []
  {
    hide IsSequence;
  }

  lemma StringStep(u: seq<byte>, bel: bool, escaped: bool)
    requires u != []
    ensures StringRest(u, bel, escaped) <==>
              if EndsAt(u, 0, bel, escaped) then |u| == 1 else StringRest(u[1..], bel, u[0] == ESC)
  {
    var rest, esc := u[1..], u[0] == ESC;
    if StringRest(rest, bel, esc) && !EndsAt(u, 0, bel, escaped) {
      forall k | 0 <= k < |u| - 1 ensures !EndsAt(u, k, bel, escaped) {
        if k > 0 {
          assert !EndsAt(rest, k - 1, bel, esc);
        }
      }
    }
    if StringRest(u, bel, escaped) {
      forall k | 0 <= k < |rest| - 1 ensures !EndsAt(rest, k, bel, esc) {
        assert !EndsAt(u, k + 1, bel, escaped);
      }
    }
  }

  // ---- the scanner finds exactly these -------------------------------------------------

  /** What is still to come of an item of which the scanner is in this state. */
  ghost predicate Rest(state: State, osc: bool, t: seq<byte>)
  {
    match state
    case Ground => IsItem(t)
    case Escape => IsSequence(t)
    case Csi => IsControl(t)
    case Str => StringRest(t, osc, false)
    case StrEscape => StringRest(t, osc, true)
  }

  lemma RestStep(state: State, osc: bool, t: seq<byte>)
    requires t != []
    ensures var (st, o) := NextState(state, osc, t[0]);
            Rest(state, osc, t) <==> if st == Ground then |t| == 1 else Rest(st, o, t[1..])
  {
    hide IsSequence, IsControl, StringRest;
    match state
    case Ground =>
    case Escape => SequenceStep(t);
    case Csi => ControlStep(t);
    case Str => StringStep(t, osc, false);
    case StrEscape => StringStep(t, osc, true);
  }

  lemma NothingLeft(state: State, osc: bool)
    ensures !Rest(state, osc, [])
  {
    assert !IsSequence([]) && !IsControl([]);
  }

  lemma {:induction false} ScannerExact(data: seq<byte>, j: nat, state: State, osc: bool, e: nat)
    requires j <= e <= |data|
    ensures ItemFrom(data, j, state, osc) == Some(e) <==> Rest(state, osc, data[j..e])
    decreases |data| - j
  {
    hide Rest, NextState;
    if j == e {
      assert data[j..e] == [];
      NothingLeft(state, osc);
    } else {
      var (st, o) := NextState(state, osc, data[j]);
      RestStep(state, osc, data[j..e]);
      ScannerExact(data, j + 1, st, o, e);
      assert data[j..e][1..] == data[j + 1..e];
    }
  }

  /** No encoded character begins like this, nor do these bytes with one. */
  ghost predicate NoCharacter(data: seq<byte>)
  {
    forall c: seq<byte> :: Utf8Multi(c) ==> !IsPrefix(c, data) && !IsPrefix(data, c)
  }

  /** The first item of the output is complete and has `n` bytes: below 0x80 as above, and
      from 0x80 on an encoded character, or one byte that can begin none. */
  ghost predicate FirstItem(data: seq<byte>, n: int)
  {
    && 0 < n <= |data|
    && (if data[0] < 0x80 then IsItem(data[..n])
        else (n > 1 && Utf8Multi(data[..n])) || (n == 1 && NoCharacter(data)))
  }

  lemma CharacterExact(data: seq<byte>, n: int)
    requires data != [] && data[0] >= 0x80
    ensures FullRune(data) && DecodeSize(data) == n <==> FirstItem(data, n)
  {
    if FullRune(data) && DecodeSize(data) == n {
      if n == 1 {
        forall c: seq<byte> | Utf8Multi(c) ensures !IsPrefix(c, data) && !IsPrefix(data, c) {
          NotACharacter(data, c);
        }
      } else {
        OneCharacter(data);
      }
    }
    if FirstItem(data, n) {
      if n > 1 {
        FoundCharacter(data, n);
      } else if !FullRune(data) {
        Completion(data);
        var more :| more != [] && Utf8Multi(data + more);
        CutFirst(data, more, |data|);
        Empty(data);
        assert IsPrefix(data, data + more);
      } else if DecodeSize(data) != 1 {
        OneCharacter(data);
        assert IsPrefix(data[..DecodeSize(data)], data);
      }
    }
  }

  lemma OneCharacter(data: seq<byte>)
    requires data != [] && DecodeSize(data) > 1
    ensures DecodeSize(data) <= |data| && Utf8Multi(data[..DecodeSize(data)])
  {
    DecodeFits(data);
  }

  lemma NotACharacter(data: seq<byte>, c: seq<byte>)
    requires data != [] && FullRune(data) && DecodeSize(data) == 1 && Utf8Multi(c)
    ensures !IsPrefix(c, data) && !IsPrefix(data, c)
  {
    if IsPrefix(data, c) {
      NeverCompleted(data, c[|data|..]);
      SplitAt(c, |data|);
    }
    if IsPrefix(c, data) {
      FoundCharacter(data, |c|);
    }
  }

  lemma FoundCharacter(data: seq<byte>, n: int)
    requires 1 < n <= |data| && Utf8Multi(data[..n])
    ensures FullRune(data) && DecodeSize(data) == n
  {
    var c := data[..n];
    assert c[0] == data[0] && c[1] == data[1];
    assert n > 2 ==> c[2] == data[2];
    assert n > 3 ==> c[3] == data[3];
  }

  /** The scanner's first item is the first item. */
  lemma ItemIsFirst(data: seq<byte>, n: int)
    ensures Item(data) == Some(n) <==> FirstItem(data, n)
  {
    hide FullRune, DecodeSize, ItemFrom, IsItem;
    if data != [] {
      if data[0] < 0x80 {
        if 0 < n <= |data| {
          ScannerExact(data, 0, Ground, false, n);
          assert data[0..n] == data[..n];
        }
      } else {
        CharacterExact(data, n);
      }
    }
  }

  // ---- the cut is behind the last complete item ----------------------------------------

  /** The first `k` bytes are complete items, one after the other. */
  ghost predicate MadeOfItems(data: seq<byte>, k: int)
    decreases k
  {
    k == 0 || exists n :: 0 < n <= k && FirstItem(data, n) && MadeOfItems(data[n..], k - n)
  }

  /** A checkpoint cuts behind complete items, as far as there are any. */
  lemma {:induction false} BoundaryIsLast(data: seq<byte>, k: int)
    ensures MadeOfItems(data, Boundary(data))
    ensures !FirstItem(data[Boundary(data)..], k)
    ensures MadeOfItems(data, k) ==> k <= Boundary(data)
    decreases |data|
  {
    hide Item, FirstItem;
    match Item(data)
    case None =>
      Empty(data);
      NoFirst(data);
    case Some(n) =>
      ItemIsFirst(data, n);
      BoundaryIsLast(data[n..], k - n);
      BoundaryIsLast(data[n..], k);
      CutTwice(data, n, Boundary(data[n..]), Boundary(data[n..]));
      OnlyFirst(data, n);
  }

  lemma NoFirst(data: seq<byte>)
    requires Item(data) == None
    ensures forall n :: !FirstItem(data, n)
  {
    forall n ensures !FirstItem(data, n) {
      ItemIsFirst(data, n);
    }
  }

  lemma OnlyFirst(data: seq<byte>, n: nat)
    requires Item(data) == Some(n)
    ensures forall m :: FirstItem(data, m) ==> m == n
  {
    forall m | FirstItem(data, m) ensures m == n {
      ItemIsFirst(data, m);
    }
  }

  predicate GraphicsFrom(data: seq<byte>, p: nat)
  {
    p + 3 <= |data| && data[p..p + 3] == [ESC, '_' as byte, 'G' as byte]
  }

  lemma GraphicsFound(data: seq<byte>)
    ensures HasGraphics(data) <==> exists p: nat :: GraphicsFrom(data, p)
  {
    if HasGraphics(data) {
      var p :| 0 <= p && p + 2 < |data| && GraphicsAt(data, p);
      assert GraphicsFrom(data, p);
    }
    if exists p: nat :: GraphicsFrom(data, p) {
      var p: nat :| GraphicsFrom(data, p);
      var three := data[p..p + 3];
      assert three[0] == data[p] && three[1] == data[p + 1] && three[2] == data[p + 2];
      assert GraphicsAt(data, p);
    }
  }

  /** One write to a working engine: it is closed for good by ESC _ G; it fails exactly if
      more than 1 MiB would wait for the end of an item or the parser refuses what is
      complete; otherwise the parser gets the complete items and the rest waits. */
  lemma WriteExactly(e: Engine, data: seq<byte>, parserOk: bool)
    requires e.open && !e.failed && !e.legacyGraphics
    ensures var input, d := e.pending + data, WriteOf(e, data, parserOk);
            var cut := Boundary(input);
            && MadeOfItems(input, cut) && (forall k :: MadeOfItems(input, k) ==> k <= cut)
            && (if exists p: nat :: GraphicsFrom(input, p) then d == Engine(false, e.fed, [], false, true)
                else if |input| - cut > 1024 * 1024 || (cut > 0 && !parserOk) then d == e.(pending := input[cut..], failed := true)
                else d == e.(pending := input[cut..], fed := e.fed + input[..cut]))
  {
    var input := e.pending + data;
    GraphicsFound(input);
    forall k ensures MadeOfItems(input, k) ==> k <= Boundary(input) {
      BoundaryIsLast(input, k);
    }
    BoundaryIsLast(input, 0);
    hide Boundary, HasGraphics, GraphicsFrom, MadeOfItems;
    Empty(input);
    Empty(e.fed);
  }
}
