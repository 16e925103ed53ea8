/** Where a terminal checkpoint may cut the output stream
    (core/terminal_checkpoint_runtime.go, terminalCheckpointBoundary), and the
    engine that feeds whole items to its parser and keeps the rest pending. */
module CheckpointBoundary {
  import opened Bytes

  const ESC: byte := 0x1b
  const PENDING_LIMIT: nat := 1024 * 1024

  // ---- UTF-8 --------------------------------------------------------------------

  /** The length a lead byte announces; 1 for ASCII and for bytes that lead nothing. */
  function RuneLength(lead: byte): nat
  {
    if 0xc2 <= lead <= 0xdf then 2
    else if 0xe0 <= lead <= 0xef then 3
    else if 0xf0 <= lead <= 0xf4 then 4
    else 1
  }

  predicate Tail(b: byte)
  {
    0x80 <= b <= 0xbf
  }

  /** The second byte is restricted after four of the lead bytes. */
  predicate SecondOk(lead: byte, second: byte)
  {
    && (if lead == 0xe0 then 0xa0 else if lead == 0xf0 then 0x90 else 0x80) <= second
    && second <= (if lead == 0xed then 0x9f else if lead == 0xf4 then 0x8f else 0xbf)
  }

  /** The bytes start with a complete encoding, or with bytes that no
      continuation can complete (one byte is then consumed as an error). */
  predicate FullRune(p: seq<byte>)
  {
    p != [] &&
    (|| |p| >= RuneLength(p[0])
     || (|p| > 1 && !SecondOk(p[0], p[1]))
     || (|p| > 2 && !Tail(p[2])))
  }

  function DecodeSize(p: seq<byte>): nat
    requires p != []
  {
    var n := RuneLength(p[0]);
    if n == 1 || |p| < n || !SecondOk(p[0], p[1]) then 1
    else if n == 2 then 2
    else if !Tail(p[2]) then 1
    else if n == 3 then 3
    else if !Tail(p[3]) then 1
    else 4
  }

  /** A multi-byte encoding as section 4 of RFC 3629 defines it. */
  predicate Utf8Multi(p: seq<byte>)
  {
    || (|p| == 2 && 0xc2 <= p[0] <= 0xdf && Tail(p[1]))
    || (|p| == 3 && Tail(p[2]) &&
        (|| (p[0] == 0xe0 && 0xa0 <= p[1] <= 0xbf)
         || (0xe1 <= p[0] <= 0xec && Tail(p[1]))
         || (p[0] == 0xed && 0x80 <= p[1] <= 0x9f)
         || (0xee <= p[0] <= 0xef && Tail(p[1]))))
    || (|p| == 4 && Tail(p[2]) && Tail(p[3]) &&
        (|| (p[0] == 0xf0 && 0x90 <= p[1] <= 0xbf)
         || (0xf1 <= p[0] <= 0xf3 && Tail(p[1]))
         || (p[0] == 0xf4 && 0x80 <= p[1] <= 0x8f)))
  }

  /** Decoding takes more than one byte exactly at a well-formed encoding, and
      waits for more input exactly when the bytes are a proper prefix of one. */
  lemma RunesFollowTheStandard(p: seq<byte>)
    requires p != []
    ensures DecodeSize(p) > 1 <==> exists n :: 1 < n <= |p| && Utf8Multi(p[..n])
    ensures DecodeSize(p) > 1 ==> Utf8Multi(p[..DecodeSize(p)])
    ensures !FullRune(p) ==> |p| <= 3 && exists more :: more != [] && Utf8Multi(p + more)
    ensures FullRune(p) && DecodeSize(p) == 1 ==> forall more :: !Utf8Multi(p + more)
  {
    if DecodeSize(p) > 1 {
      assert Utf8Multi(p[..DecodeSize(p)]);
    }
    if exists n :: 1 < n <= |p| && Utf8Multi(p[..n]) {
      var n :| 1 < n <= |p| && Utf8Multi(p[..n]);
      assert p[..n][0] == p[0] && p[..n][1] == p[1];
      assert n > 2 ==> p[..n][2] == p[2];
      assert n > 3 ==> p[..n][3] == p[3];
    }
    if !FullRune(p) {
      Completion(p);
    }
    if FullRune(p) && DecodeSize(p) == 1 {
      forall more: seq<byte> ensures !Utf8Multi(p + more) {
        NeverCompleted(p, more);
      }
    }
  }

  lemma NeverCompleted(p: seq<byte>, more: seq<byte>)
    requires p != [] && FullRune(p) && DecodeSize(p) == 1
    ensures !Utf8Multi(p + more)
  {
    var all := p + more;
    assert all[0] == p[0];
    assert |p| > 1 ==> all[1] == p[1];
    assert |p| > 2 ==> all[2] == p[2];
    assert |p| > 3 ==> all[3] == p[3];
  }

  /** Bytes that wait for more are the start of a well-formed encoding. */
  lemma Completion(p: seq<byte>)
    requires p != [] && !FullRune(p)
    ensures |p| <= 3 && exists more :: more != [] && Utf8Multi(p + more)
  {
    var second: byte := if p[0] == 0xe0 then 0xa0 else if p[0] == 0xf0 then 0x90 else 0x80;
    var n := RuneLength(p[0]);
    var full := [p[0], if |p| > 1 then p[1] else second, if |p| > 2 then p[2] else 0x80, 0x80][..n];
    assert full[0] == p[0] && |full| == n && (n > 3 ==> full[3] == 0x80);
    assert |p| > 1 ==> full[1] == p[1];
    assert |p| > 2 ==> full[2] == p[2];
    assert Utf8Multi(full);
    assert full[..|p|] == p;
    SplitAt(full, |p|);
  }

  // ---- items ---------------------------------------------------------------------

  /** The scanner's state; Str and StrEscape are inside a control string. */
  datatype State = Ground | Escape | Csi | Str | StrEscape

  /** One byte: the next state, and whether an open control string is an OSC. */
  function NextState(state: State, osc: bool, b: byte): (State, bool)
  {
    var st := if b == 0x18 || b == 0x1a then Ground else state;
    match st
    case Ground => (if b == ESC then Escape else Ground, osc)
    case Escape =>
      if b == '[' as byte then (Csi, osc)
      else if b == ']' as byte then (Str, true)
      else if b == 'P' as byte || b == '_' as byte || b == '^' as byte || b == 'X' as byte then (Str, false)
      else if 0x30 <= b <= 0x7e then (Ground, osc)
      else (Escape, osc)
    case Csi => (if b == ESC then Escape else if 0x40 <= b <= 0x7e then Ground else Csi, osc)
    case Str => (if b == ESC then StrEscape else if osc && b == 7 then Ground else Str, osc)
    case StrEscape => (if b == '\\' as byte then Ground else if b != ESC then Str else StrEscape, osc)
  }

  /** The end of the item being scanned at `j`, if the data holds it. */
  function ItemFrom(data: seq<byte>, j: nat, state: State, osc: bool): (r: Option<nat>)
    ensures r.Some? ==> j < r.value <= |data|
    decreases if j <= |data| then |data| - j else 0
  {
    if j >= |data| then None
    else
      var (st, o) := NextState(state, osc, data[j]);
      if st == Ground then Some(j + 1) else ItemFrom(data, j + 1, st, o)
  }

  /** The length of the first complete item: a character, a control sequence or a
      control string (sections 5.4 and 5.6 of ECMA-48). */
  function Item(data: seq<byte>): (r: Option<nat>)
    ensures r.Some? ==> 0 < r.value <= |data|
  {
    if data == [] then None
    else if data[0] >= 0x80 then (if FullRune(data) then Some(DecodeSize(data)) else None)
    else ItemFrom(data, 0, Ground, false)
  }

  /** The length of the longest prefix made of complete items. */
  function Boundary(data: seq<byte>): (r: nat)
    ensures r <= |data|
    decreases |data|
  {
    match Item(data)
    case None => 0
    case Some(n) => n + Boundary(data[n..])
  }

  method TerminalCheckpointBoundary(data: seq<byte>) returns (safe: nat)
    ensures safe == Boundary(data)
  {
    hide Boundary, Item, ItemFrom, NextState, DecodeSize, FullRune;
    var state := Ground;
    safe := 0;
    var osc := false;
    var i := 0;
    Empty(data);
    while i < |data|
      invariant 0 <= safe <= i <= |data|
      invariant Boundary(data) == safe + Boundary(data[safe..])
      invariant Scanning(data, safe, i, state, osc)
    {
      var b := data[i];
      if state == Ground && b >= 0x80 {
        RuneStep(data, i);
        if !FullRune(data[i..]) {
          return;
        }
        i := i + DecodeSize(data[i..]);
        safe := i;
        continue;
      }
      ByteStep(data, safe, i, state, osc);
      i := i + 1;
      var (next, o) := NextState(state, osc, b);
      state, osc := next, o;
      if state == Ground {
        safe := i;
      }
    }
    EndScan(data, safe, state, osc);
  }

  /** Between items, or `i - safe` bytes into an item that starts at `safe`. */
  ghost predicate Scanning(data: seq<byte>, safe: nat, i: nat, state: State, osc: bool)
  {
    && safe <= i <= |data| && (state == Ground <==> i == safe)
    && (state != Ground ==> data[safe] < 0x80 && Item(data[safe..]) == ItemFrom(data[safe..], i - safe, state, osc))
  }

  lemma RuneStep(data: seq<byte>, i: nat)
    requires i < |data| && data[i] >= 0x80
    ensures !FullRune(data[i..]) ==> Boundary(data[i..]) == 0
    ensures FullRune(data[i..]) ==>
              var n := DecodeSize(data[i..]);
              0 < n && i + n <= |data| && Boundary(data[i..]) == n + Boundary(data[i + n..])
  {
    hide FullRune, DecodeSize;
    DecodeFits(data[i..]);
    var n := DecodeSize(data[i..]);
    assert data[i..][n..] == data[i + n..];
  }

  lemma DecodeFits(p: seq<byte>)
    requires p != []
    ensures 0 < DecodeSize(p) <= |p|
  {}

  lemma ByteStep(data: seq<byte>, safe: nat, i: nat, state: State, osc: bool)
    requires i < |data| && Scanning(data, safe, i, state, osc) && (state == Ground ==> data[i] < 0x80)
    ensures var (next, o) := NextState(state, osc, data[i]);
            && (next == Ground ==> Boundary(data[safe..]) == i + 1 - safe + Boundary(data[i + 1..]))
            && Scanning(data, if next == Ground then i + 1 else safe, i + 1, next, o)
  {
    hide NextState;
    var rest := data[safe..];
    if state == Ground {
      OscIsStale(rest, 0, Ground, osc, false);
    }
    assert rest[i - safe] == data[i];
    assert Item(rest) == ItemFrom(rest, i - safe, state, osc);
    assert rest[i + 1 - safe..] == data[i + 1..];
  }

  lemma EndScan(data: seq<byte>, safe: nat, state: State, osc: bool)
    requires Scanning(data, safe, |data|, state, osc)
    ensures Boundary(data[safe..]) == 0
  {
    if state == Ground {
      assert data[safe..] == [];
    }
  }

  /** Outside control strings the OSC flag is left over and has no effect. */
  lemma {:induction false} OscIsStale(data: seq<byte>, j: nat, state: State, osc1: bool, osc2: bool)
    requires state == Ground || state == Escape || state == Csi
    ensures ItemFrom(data, j, state, osc1) == ItemFrom(data, j, state, osc2)
    decreases if j <= |data| then |data| - j else 0
  {
    if j < |data| {
      var (st, o1) := NextState(state, osc1, data[j]);
      if st == Escape || st == Csi {
        OscIsStale(data, j + 1, st, osc1, osc2);
      }
    }
  }

  // ---- compositionality ------------------------------------------------------------

  lemma {:induction false} ItemFromStable(x: seq<byte>, y: seq<byte>, j: nat, state: State, osc: bool)
    requires ItemFrom(x, j, state, osc).Some?
    ensures ItemFrom(x + y, j, state, osc) == ItemFrom(x, j, state, osc)
    decreases if j <= |x| then |x| - j else 0
  {
    assert (x + y)[j] == x[j];
    var (st, o) := NextState(state, osc, x[j]);
    if st != Ground {
      ItemFromStable(x, y, j + 1, st, o);
    }
  }

  /** More input never changes an item that was complete. */
  lemma ItemStable(x: seq<byte>, y: seq<byte>)
    requires Item(x).Some?
    ensures Item(x + y) == Item(x)
  {
    assert (x + y)[0] == x[0];
    if x[0] < 0x80 {
      ItemFromStable(x, y, 0, Ground, false);
    } else {
      assert |x| > 1 ==> (x + y)[1] == x[1];
      assert |x| > 2 ==> (x + y)[2] == x[2];
      assert |x| > 3 ==> (x + y)[3] == x[3];
    }
  }

  /** Scanning may stop at any boundary and resume with what is left: for all
      strings, boundary(x ++ y) = boundary(x) + boundary(x[boundary(x)..] ++ y). */
  lemma {:induction false} BoundaryComposes(x: seq<byte>, y: seq<byte>)
    ensures Boundary(x + y) == Boundary(x) + Boundary(x[Boundary(x)..] + y)
    decreases |x|
  {
    match Item(x)
    case None =>
      assert x[0..] == x;
    case Some(n) =>
      ItemStable(x, y);
      BoundaryComposes(x[n..], y);
      assert (x + y)[n..] == x[n..] + y;
      assert x[n..][Boundary(x[n..])..] == x[Boundary(x)..];
  }

  // ---- graphics sequences are never cut ----------------------------------------------

  /** `ESC _ G` starts at `p`, as far as the data goes. */
  predicate GraphicsAt(data: seq<byte>, p: nat)
  {
    && p < |data| && data[p] == ESC
    && (p + 1 < |data| ==> data[p + 1] == '_' as byte)
    && (p + 2 < |data| ==> data[p + 2] == 'G' as byte)
  }

  predicate HasGraphics(data: seq<byte>)
  {
    exists p :: 0 <= p && p + 2 < |data| && GraphicsAt(data, p)
  }

  lemma {:induction false} ItemAvoids(data: seq<byte>, j: nat, state: State, osc: bool, p: nat)
    requires GraphicsAt(data, p) && j <= p
    ensures var item := ItemFrom(data, j, state, osc);
            item.Some? ==> item.value <= p || item.value > p + 3
    decreases |data| - j
  {
    var (st, o) := NextState(state, osc, data[j]);
    if j < p {
      if st != Ground {
        ItemAvoids(data, j + 1, st, o, p);
      }
    } else {
      assert st == Escape || st == StrEscape;
      InsideControlString(data, p, st, o);
    }
  }

  lemma InsideControlString(data: seq<byte>, p: nat, state: State, osc: bool)
    requires GraphicsAt(data, p) && (state == Escape || state == StrEscape)
    ensures var item := ItemFrom(data, p + 1, state, osc);
            item.Some? ==> item.value > p + 3
  {
    if p + 1 < |data| {
      var (st, o) := NextState(state, osc, data[p + 1]);
      assert st == Str;
      if p + 2 < |data| {
        assert NextState(st, o, data[p + 2]).0 == Str;
      }
    }
  }

  /** No boundary falls inside `ESC _ G`, even when the data ends inside it. */
  lemma {:induction false} BoundaryAvoidsGraphics(data: seq<byte>, p: nat)
    requires GraphicsAt(data, p)
    ensures Boundary(data) <= p || Boundary(data) > p + 3
    decreases |data|
  {
    match Item(data)
    case None =>
    case Some(n) =>
      if n <= p {
        assert GraphicsAt(data[n..], p - n);
        BoundaryAvoidsGraphics(data[n..], p - n);
      } else if data[0] < 0x80 {
        ItemAvoids(data, 0, Ground, false, p);
      }
  }

  // ---- the engine -----------------------------------------------------------------------

  /** The bytes the parser has consumed stand for its state. */
  datatype Engine = Engine(open: bool, fed: seq<byte>, pending: seq<byte>, failed: bool, legacyGraphics: bool)

  const NEW_ENGINE := Engine(true, [], [], false, false)

  function WriteOf(e: Engine, data: seq<byte>, parserOk: bool): Engine
  {
    if !e.open || e.failed || e.legacyGraphics then e
    else
      var input := e.pending + data;
      var boundary := Boundary(input);
      if HasGraphics(input) then e.(legacyGraphics := true, pending := [], open := false)
      else if |input[boundary..]| > PENDING_LIMIT then e.(pending := input[boundary..], failed := true)
      else if boundary == 0 then e.(pending := input)
      else if !parserOk then e.(pending := input[boundary..], failed := true)
      else e.(pending := input[boundary..], fed := e.fed + input[..boundary])
  }

  class TerminalCheckpointEngine {
    var open: bool
    /** Stands for the parser's memory: the bytes it has consumed. */
    var fed: seq<byte>
    var pending: seq<byte>
    var failed: bool
    var legacyGraphics: bool

    ghost function View(): Engine
      reads this
    {
      Engine(open, fed, pending, failed, legacyGraphics)
    }

    constructor ()
      ensures View() == NEW_ENGINE
    {
      open, fed, pending, failed, legacyGraphics := true, [], [], false, false;
    }

    method Close()
      modifies this`open, this`pending
      ensures View() == old(View()).(open := false, pending := if old(open) then [] else old(pending))
    {
      if open {
        open := false;
        pending := [];
      }
    }

    /** Only the outcome of the native call matters to the boundary state. */
    method Resize(ok: bool)
      modifies this`failed
      ensures View() == old(View()).(failed := old(failed) || (old(open) && !old(legacyGraphics) && !ok))
    {
      if !open || failed || legacyGraphics {
        return;
      }
      failed := !ok;
    }

    /** `parserOk` is the outcome of the native parser's call. */
    method Write(data: seq<byte>, parserOk: bool)
      modifies this
      ensures View() == WriteOf(old(View()), data, parserOk)
    {
      if !open || failed || legacyGraphics {
        return;
      }
      var input := pending + data;
      var graphics := ContainsGraphics(input);
      if graphics {
        legacyGraphics := true;
        pending := [];
        Close();
        return;
      }
      var boundary := TerminalCheckpointBoundary(input);
      pending := input[boundary..];
      if |pending| > PENDING_LIMIT {
        failed := true;
        return;
      }
      if boundary == 0 {
        return;
      }
      if !parserOk {
        failed := true;
        return;
      }
      fed := fed + input[..boundary];
    }
  }

  method ContainsGraphics(data: seq<byte>) returns (found: bool)
    ensures found == HasGraphics(data)
  {
    var i := 0;
    while i + 2 < |data|
      invariant 0 <= i
      invariant forall p :: 0 <= p < i && p + 2 < |data| ==> !GraphicsAt(data, p)
    {
      if data[i] == ESC && data[i + 1] == '_' as byte && data[i + 2] == 'G' as byte {
        assert GraphicsAt(data, i);
        return true;
      }
      i := i + 1;
    }
    return false;
  }

  function WriteAll(e: Engine, chunks: seq<seq<byte>>): Engine
  {
    if chunks == [] then e
    else WriteOf(WriteAll(e, chunks[..|chunks| - 1]), chunks[|chunks| - 1], true)
  }

  /** What a healthy engine holds after the given output, however it was cut. */
  ghost predicate Reflects(e: Engine, output: seq<byte>)
  {
    && e.legacyGraphics == HasGraphics(output)
    && e.open == !e.legacyGraphics
    && (!e.legacyGraphics ==> e.fed == output[..Boundary(output)] && e.pending == output[Boundary(output)..])
  }

  lemma GraphicsSuffix(output: seq<byte>, data: seq<byte>)
    requires !HasGraphics(output)
    ensures HasGraphics(output[Boundary(output)..] + data) <==> HasGraphics(output + data)
  {
    var cut := Boundary(output);
    var all, input := output + data, output[cut..] + data;
    assert all[cut..] == input;
    if HasGraphics(input) {
      var p :| 0 <= p && p + 2 < |input| && GraphicsAt(input, p);
      assert all[cut + p] == input[p] && all[cut + p + 1] == input[p + 1] && all[cut + p + 2] == input[p + 2];
      assert GraphicsAt(all, cut + p);
    }
    if HasGraphics(all) {
      var p :| 0 <= p && p + 2 < |all| && GraphicsAt(all, p);
      if p < |output| {
        StillStarts(output, data, p);
        BoundaryAvoidsGraphics(output, p);
        assert p + 2 >= |output|;
      }
      assert input[p - cut] == all[p] && input[p + 1 - cut] == all[p + 1] && input[p + 2 - cut] == all[p + 2];
      assert GraphicsAt(input, p - cut);
    }
  }

  lemma StillStarts(output: seq<byte>, data: seq<byte>, p: nat)
    requires p < |output| && p + 2 < |output + data| && GraphicsAt(output + data, p)
    ensures GraphicsAt(output, p)
    ensures !HasGraphics(output) ==> p + 2 >= |output|
  {
    assert (output + data)[p] == output[p];
    assert p + 1 < |output| ==> (output + data)[p + 1] == output[p + 1];
    if p + 2 < |output| {
      assert (output + data)[p + 2] == output[p + 2];
      assert GraphicsAt(output, p);
    }
  }

  /** A graphics sequence stays in the output once it is there. */
  lemma GraphicsStay(output: seq<byte>, data: seq<byte>)
    requires HasGraphics(output)
    ensures HasGraphics(output + data)
  {
    var p :| 0 <= p && p + 2 < |output| && GraphicsAt(output, p);
    assert (output + data)[p] == output[p] && (output + data)[p + 1] == output[p + 1] && (output + data)[p + 2] == output[p + 2];
    assert GraphicsAt(output + data, p);
  }

  lemma WriteReflects(e: Engine, output: seq<byte>, data: seq<byte>, parserOk: bool)
    requires Reflects(e, output) && !e.failed
    ensures !WriteOf(e, data, parserOk).failed ==> Reflects(WriteOf(e, data, parserOk), output + data)
  {
    hide HasGraphics, Boundary;
    if e.legacyGraphics {
      GraphicsStay(output, data);
    } else {
      GraphicsSuffix(output, data);
      BoundaryComposes(output, data);
      var cut := Boundary(output);
      var boundary := Boundary(output[cut..] + data);
      CutFirst(output, data, cut);
      CutTwice(output + data, cut, 0, boundary);
      CutTwice(output + data, cut, boundary, boundary);
      SplitTwice(output + data, cut, cut + boundary);
      Empty(output[..cut]);
    }
  }

  /** The parser's input, the pending bytes and the switch to legacy graphics
      depend on the output alone, never on how it was cut into writes. */
  lemma {:induction false} WritesReflect(chunks: seq<seq<byte>>)
    requires !WriteAll(NEW_ENGINE, chunks).failed
    ensures Reflects(WriteAll(NEW_ENGINE, chunks), Flatten(chunks))
  {
    if chunks == [] {
      assert !HasGraphics([]) && Boundary([]) == 0;
    } else {
      var before, last := chunks[..|chunks| - 1], chunks[|chunks| - 1];
      WritesReflect(before);
      WriteReflects(WriteAll(NEW_ENGINE, before), Flatten(before), last, true);
      FlattenSnoc(before, last);
      assert before + [last] == chunks;
    }
  }

  lemma ChunkingIsIrrelevant(a: seq<seq<byte>>, b: seq<seq<byte>>)
    requires Flatten(a) == Flatten(b)
    requires !WriteAll(NEW_ENGINE, a).failed && !WriteAll(NEW_ENGINE, b).failed
    ensures var e, f := WriteAll(NEW_ENGINE, a), WriteAll(NEW_ENGINE, b);
            && e.legacyGraphics == f.legacyGraphics
            && (!e.legacyGraphics ==> e == f)
  {
    WritesReflect(a);
    WritesReflect(b);
  }
}
