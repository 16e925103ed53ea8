/** Answering terminal queries on behalf of absent viewers (core/queries.go): a
    recognised query is taken out of the output and answered, everything else is
    passed on. */
module QueryFilter {
  import opened Bytes

  const ESC: byte := 0x1b
  const BEL: byte := 0x07
  const BACKSLASH: byte := 0x5c
  const COMMA: byte := 0x2c
  const SEMICOLON: byte := 0x3b
  const EQUALS: byte := 0x3d
  const MAX_PENDING_QUERY: nat := 64
  const MAX_PENDING_GRAPHICS: nat := 4096

  /** The bytes of an ASCII text. */
  function Ascii(s: string): seq<byte>
  {
    seq(|s|, i requires 0 <= i < |s| => ((s[i] as int) % 256) as byte)
  }

  const PRIMARY_ATTRIBUTES: seq<byte> := [ESC] + Ascii("[?1;2c")
  const SECONDARY_ATTRIBUTES: seq<byte> := [ESC] + Ascii("[>0;0;0c")
  const STATUS_SUPPORT: seq<byte> := [ESC] + Ascii("]7501;?") + [ESC, BACKSLASH]

  // ---- searching ------------------------------------------------------------------------

  function IndexOf(s: seq<byte>, b: byte): (r: Option<nat>)
    ensures r.Some? ==> r.value < |s| && s[r.value] == b && b !in s[..r.value]
    ensures r.None? ==> b !in s
  {
    if s == [] then None
    else if s[0] == b then Some(0)
    else
      match IndexOf(s[1..], b)
      case None => None
      case Some(i) =>
        assert s[..i + 1] == [s[0]] + s[1..][..i];
        Some(i + 1)
  }

  /** The parts between separators. */
  function Split(s: seq<byte>, b: byte): (parts: seq<seq<byte>>)
    ensures parts != []
    decreases |s|
  {
    match IndexOf(s, b)
    case None => [s]
    case Some(i) => [s[..i]] + Split(s[i + 1..], b)
  }

  /** The end of the string terminator at or after `i`, which may be BEL. */
  function StringEnd(s: seq<byte>, i: nat, belEnds: bool): (r: Option<nat>)
    ensures r.Some? ==> i < r.value <= |s|
    decreases |s| - i
  {
    if i >= |s| then None
    else if s[i] == BEL && belEnds then Some(i + 1)
    else if s[i] == ESC && i + 1 < |s| && s[i + 1] == BACKSLASH then Some(i + 2)
    else StringEnd(s, i + 1, belEnds)
  }

  /** The final byte of a control sequence; the search gives up after 64 bytes. */
  function FinalByte(s: seq<byte>, i: nat): (r: Option<nat>)
    ensures r.Some? ==> i <= r.value < |s|
    decreases |s| - i
  {
    if i >= |s| then None
    else if 0x40 <= s[i] <= 0x7e then Some(i)
    else if i >= MAX_PENDING_QUERY then None
    else FinalByte(s, i + 1)
  }

  // ---- answers --------------------------------------------------------------------------

  /** A colour as its three pairs of hexadecimal digits. */
  datatype Color = Color(red: seq<byte>, green: seq<byte>, blue: seq<byte>)
  datatype Colors = Colors(foreground: Color, background: Color, cursor: Color)

  function AttributesResponse(params: seq<byte>): Option<seq<byte>>
  {
    if params == [] || params == Ascii("0") then Some(PRIMARY_ATTRIBUTES)
    else if params == Ascii(">") || params == Ascii(">0") then Some(SECONDARY_ATTRIBUTES)
    else None
  }

  function ColorResponse(code: seq<byte>, c: Color): seq<byte>
  {
    [ESC] + Ascii("]") + code + Ascii(";rgb:") + c.red + c.red + Ascii("/") + c.green + c.green + Ascii("/") + c.blue + c.blue + [BEL]
  }

  function StringResponse(body: seq<byte>, colors: Colors): Option<seq<byte>>
  {
    if body == Ascii("7501;?") then Some(STATUS_SUPPORT)
    else if body == Ascii("10;?") then Some(ColorResponse(Ascii("10"), colors.foreground))
    else if body == Ascii("11;?") then Some(ColorResponse(Ascii("11"), colors.background))
    else if body == Ascii("12;?") then Some(ColorResponse(Ascii("12"), colors.cursor))
    else None
  }

  /** The value of the last attribute with the given key; empty if there is none. */
  function Attribute(parts: seq<seq<byte>>, key: seq<byte>): seq<byte>
  {
    if parts == [] then []
    else
      var last := parts[|parts| - 1];
      match IndexOf(last, EQUALS)
      case Some(i) => if last[..i] == key then last[i + 1..] else Attribute(parts[..|parts| - 1], key)
      case None => Attribute(parts[..|parts| - 1], key)
  }

  predicate AllDigits(s: seq<byte>)
  {
    forall i :: 0 <= i < |s| ==> 0x30 <= s[i] <= 0x39
  }

  function GraphicsMessage(parts: seq<seq<byte>>): seq<byte>
  {
    var t, f, o := Attribute(parts, Ascii("t")), Attribute(parts, Ascii("f")), Attribute(parts, Ascii("o"));
    if t != [] && t != Ascii("d") then Ascii("EINVAL: only direct transmission is supported")
    else if f != [] && f != Ascii("24") && f != Ascii("32") && f != Ascii("100") then Ascii("EINVAL: image format is unsupported")
    else if o != [] && o != Ascii("z") then Ascii("EINVAL: compression is unsupported")
    else Ascii("OK")
  }

  /** `sequence` is ESC _ G ... ESC \. */
  function GraphicsResponse(sequence: seq<byte>): Option<seq<byte>>
  {
    if |sequence| < 12 || sequence[|sequence| - 2..] != [ESC, BACKSLASH] then None
    else
      var body := sequence[3..|sequence| - 2];
      var control := if IndexOf(body, SEMICOLON).Some? then body[..IndexOf(body, SEMICOLON).value] else body;
      var parts := Split(control, COMMA);
      var id := Attribute(parts, Ascii("i"));
      if Attribute(parts, Ascii("a")) != Ascii("q") || id == [] || !AllDigits(id) then None
      else Some([ESC] + Ascii("_Gi=") + id + [SEMICOLON] + GraphicsMessage(parts) + [ESC, BACKSLASH])
  }

  // ---- one pass of the loop ---------------------------------------------------------------

  datatype Effect = Respond(bytes: seq<byte>) | ExpectReply(bytes: seq<byte>) | ExpectCursorReport

  /** What is done with a buffer that starts with ESC: keep all of it, pass all of it
      on, pass on `n` bytes and go on, or take out a query of `n` bytes. */
  datatype Cut = Hold | PassAll | Pass(n: nat, effects: seq<Effect>) | Answer(n: nat, response: seq<byte>)

  function GraphicsCut(s: seq<byte>): Cut
    requires |s| >= 2 && s[0] == ESC && s[1] == 0x5f
  {
    if |s| < 4 then Hold
    else if s[2] != 0x47 then Pass(1, [])
    else
      match IndexOf(s, SEMICOLON)
      case None => if |s| <= MAX_PENDING_QUERY then Hold else PassAll
      case Some(separator) =>
        if Ascii("a=q") !in Split(s[3..separator], COMMA) then PassAll
        else
          match StringEnd(s, 2, false)
          case None => if |s| <= MAX_PENDING_GRAPHICS then Hold else PassAll
          case Some(end) =>
            match GraphicsResponse(s[..end])
            case Some(response) => Answer(end, response)
            case None => Pass(end, [])
  }

  function ControlCut(s: seq<byte>): Cut
    requires |s| >= 2
  {
    if |s| == 2 then Hold
    else
      match FinalByte(s, 2)
      case None => if |s| <= MAX_PENDING_QUERY then Hold else Pass(1, [])
      case Some(final) =>
        var sequence := s[..final + 1];
        if s[final] == 0x63 && AttributesResponse(s[2..final]).Some? then Answer(final + 1, AttributesResponse(s[2..final]).value)
        else Pass(final + 1, if sequence == [ESC] + Ascii("[5n") then [ExpectReply([ESC] + Ascii("[0n"))]
                             else if sequence == [ESC] + Ascii("[6n") then [ExpectCursorReport]
                             else [])
  }

  function StringCut(s: seq<byte>, colors: Colors): Cut
    requires |s| >= 2
  {
    match StringEnd(s, 2, true)
    case None => if |s| <= MAX_PENDING_QUERY then Hold else Pass(1, [])
    case Some(end) =>
      var terminator := if s[end - 1] == BEL then end - 1 else end - 2;
      if end < 7 || terminator < 2 then Pass(end, [])
      else
        match StringResponse(s[2..terminator], colors)
        case Some(response) => Answer(end, response)
        case None => Pass(end, [])
  }

  function CutOf(s: seq<byte>, colors: Colors): (c: Cut)
    requires s != [] && s[0] == ESC
    ensures c.Pass? || c.Answer? ==> 0 < c.n <= |s|
    ensures c.Hold? ==> |s| <= MAX_PENDING_GRAPHICS
  {
    if |s| == 1 then Hold
    else if s[1] == 0x5f then GraphicsCut(s)
    else if s[1] == 0x5b then ControlCut(s)
    else if s[1] == 0x5d then StringCut(s, colors)
    else if s[1] == 0x5a then Answer(2, PRIMARY_ATTRIBUTES)
    else Pass(1, [])
  }

  // ---- the filter -------------------------------------------------------------------------

  datatype Filtered = Filtered(output: seq<byte>, effects: seq<Effect>, pending: seq<byte>)

  function Then(output: seq<byte>, effects: seq<Effect>, r: Filtered): Filtered
  {
    Filtered(output + r.output, effects + r.effects, r.pending)
  }

  function Filter(s: seq<byte>, colors: Colors): Filtered
    decreases |s|
  {
    match IndexOf(s, ESC)
    case None => Filtered(s, [], [])
    case Some(i) =>
      match CutOf(s[i..], colors)
      case Hold => Filtered(s[..i], [], s[i..])
      case PassAll => Filtered(s, [], [])
      case Pass(n, effects) => Then(s[..i + n], effects, Filter(s[i + n..], colors))
      case Answer(n, response) => Then(s[..i], [Respond(response)], Filter(s[i + n..], colors))
  }

  class TerminalQueryFilter {
    var pending: seq<byte>

    constructor ()
      ensures pending == []
    {
      pending := [];
    }

    method FilterOutput(data: seq<byte>, colors: Colors) returns (output: seq<byte>, effects: seq<Effect>)
      modifies this
      ensures data == [] ==> output == [] && effects == [] && pending == old(pending)
      ensures data != [] ==> Filtered(output, effects, pending) == Filter(old(pending) + data, colors)
    {
      hide CutOf, Filter, IndexOf;
      output, effects := [], [];
      if |data| == 0 {
        return;
      }
      var buffer := pending + data;
      pending := [];
      ghost var goal := Filter(buffer, colors);
      ThenNothing(goal);
      FilterNothing(colors);
      while |buffer| > 0
        invariant pending == []
        invariant goal == Then(output, effects, Filter(buffer, colors))
        decreases |buffer|
      {
        FilterUnfold(buffer, colors);
        var index := IndexOf(buffer, ESC);
        if index.None? {
          output := output + buffer;
          assert effects + [] == effects;
          return;
        }
        var i := index.value;
        match CutOf(buffer[i..], colors) {
          case Hold =>
            pending := buffer[i..];
            output := output + buffer[..i];
            assert effects + [] == effects;
            return;
          case PassAll =>
            output := output + buffer;
            assert effects + [] == effects;
            return;
          case Pass(n, expected) =>
            ThenThen(output, effects, buffer[..i + n], expected, Filter(buffer[i + n..], colors));
            output := output + buffer[..i + n];
            effects := effects + expected;
            buffer := buffer[i + n..];
          case Answer(n, response) =>
            ThenThen(output, effects, buffer[..i], [Respond(response)], Filter(buffer[i + n..], colors));
            output := output + buffer[..i];
            effects := effects + [Respond(response)];
            buffer := buffer[i + n..];
        }
      }
      assert output + [] == output && effects + [] == effects;
    }
  }

  lemma ThenNothing(r: Filtered)
    ensures Then([], [], r) == r
  {
    assert [] + r.output == r.output && [] + r.effects == r.effects;
  }

  lemma ThenThen(a: seq<byte>, e: seq<Effect>, b: seq<byte>, f: seq<Effect>, r: Filtered)
    ensures Then(a, e, Then(b, f, r)) == Then(a + b, e + f, r)
  {
    Assoc(a, b, r.output);
    Assoc(e, f, r.effects);
  }

  /** One pass of the loop, case by case. */
  lemma FilterUnfold(s: seq<byte>, colors: Colors)
    ensures IndexOf(s, ESC).None? ==> Filter(s, colors) == Filtered(s, [], [])
    ensures IndexOf(s, ESC).Some? ==> FilterCase(s, IndexOf(s, ESC).value, colors)
  {
    hide CutOf, IndexOf, Then;
  }

  ghost predicate FilterCase(s: seq<byte>, i: nat, colors: Colors)
    requires i < |s| && s[i] == ESC
  {
    match CutOf(s[i..], colors)
    case Hold => Filter(s, colors) == Filtered(s[..i], [], s[i..])
    case PassAll => Filter(s, colors) == Filtered(s, [], [])
    case Pass(n, effects) => Filter(s, colors) == Then(s[..i + n], effects, Filter(s[i + n..], colors))
    case Answer(n, response) => Filter(s, colors) == Then(s[..i], [Respond(response)], Filter(s[i + n..], colors))
  }

  lemma FilterNothing(colors: Colors)
    ensures Filter([], colors) == Filtered([], [], [])
  {}

  // ---- nothing is lost --------------------------------------------------------------------

  datatype Piece = Forwarded(bytes: seq<byte>, effects: seq<Effect>) | Query(bytes: seq<byte>, response: seq<byte>)

  /** The queries that are answered, each with its answer. */
  ghost predicate IsQuery(q: seq<byte>, response: seq<byte>, colors: Colors)
  {
    || (q == [ESC] + Ascii("Z") && response == [ESC] + Ascii("[?1;2c"))
    || IsAttributesQuery(q, response)
    || IsStringQuery(q, response, colors)
    || IsGraphicsQuery(q, response)
  }

  /** ESC [ c, ESC [ 0 c, ESC [ > c and ESC [ > 0 c. */
  ghost predicate IsAttributesQuery(q: seq<byte>, response: seq<byte>)
  {
    || (response == [ESC] + Ascii("[?1;2c") && (q == [ESC] + Ascii("[c") || q == [ESC] + Ascii("[0c")))
    || (response == [ESC] + Ascii("[>0;0;0c") && (q == [ESC] + Ascii("[>c") || q == [ESC] + Ascii("[>0c")))
  }

  /** ESC ] body, ended by BEL or ESC \: whether program status is reported, and the three
      colours. */
  ghost predicate IsStringQuery(q: seq<byte>, response: seq<byte>, colors: Colors)
  {
    exists body: seq<byte>, bel: bool :: q == StringSequence(body, bel) && AnswersString(body, response, colors)
  }

  function StringSequence(body: seq<byte>, bel: bool): seq<byte>
  {
    [ESC] + Ascii("]") + body + (if bel then [BEL] else [ESC, BACKSLASH])
  }

  predicate AnswersString(body: seq<byte>, response: seq<byte>, colors: Colors)
  {
    || (body == Ascii("7501;?") && response == [ESC] + Ascii("]7501;?") + [ESC, BACKSLASH])
    || (body == Ascii("10;?") && response == [ESC] + Ascii("]10;rgb:") + Digits(colors.foreground) + [BEL])
    || (body == Ascii("11;?") && response == [ESC] + Ascii("]11;rgb:") + Digits(colors.background) + [BEL])
    || (body == Ascii("12;?") && response == [ESC] + Ascii("]12;rgb:") + Digits(colors.cursor) + [BEL])
  }

  /** Each channel with its two digits given twice. */
  function Digits(c: Color): seq<byte>
  {
    c.red + c.red + Ascii("/") + (c.green + c.green) + Ascii("/") + (c.blue + c.blue)
  }

  /** A graphics command, which may carry data behind a semicolon. */
  datatype Command = Command(attributes: seq<seq<byte>>, data: Option<seq<byte>>)

  function CommandSequence(c: Command): seq<byte>
  {
    [ESC] + Ascii("_G") + Join(c.attributes) + (if c.data.Some? then [SEMICOLON] + c.data.value else []) + [ESC, BACKSLASH]
  }

  function Join(parts: seq<seq<byte>>): seq<byte>
  {
    if parts == [] then [] else if |parts| == 1 then parts[0] else parts[0] + [COMMA] + Join(parts[1..])
  }

  /** Its attributes are separated by commas and the data by the first semicolon, and it is
      ended by its first ESC \. */
  ghost predicate IsCommand(c: Command)
  {
    && c.attributes != [] && Plain(c.attributes, COMMA) && SEMICOLON !in Join(c.attributes)
    && var q := CommandSequence(c);
    forall i :: 2 <= i < |q| - 2 ==> !EndsCommand(q, i)
  }

  predicate Plain(parts: seq<seq<byte>>, separator: byte)
  {
    forall i :: 0 <= i < |parts| ==> separator !in parts[i]
  }

  predicate EndsCommand(q: seq<byte>, i: nat)
  {
    i + 1 < |q| && q[i] == ESC && q[i + 1] == BACKSLASH
  }

  /** What the last attribute with this key says; nothing if there is none. */
  ghost predicate Says(parts: seq<seq<byte>>, key: seq<byte>, value: seq<byte>)
  {
    || (exists i :: SaidAt(parts, key, value, i))
    || (value == [] && Unsaid(parts, key))
  }

  ghost predicate SaidAt(parts: seq<seq<byte>>, key: seq<byte>, value: seq<byte>, i: int)
  {
    0 <= i < |parts| && parts[i] == key + [EQUALS] + value && Unsaid(parts[i + 1..], key)
  }

  ghost predicate Unsaid(parts: seq<seq<byte>>, key: seq<byte>)
  {
    forall i :: 0 <= i < |parts| ==> !IsPrefix(key + [EQUALS], parts[i])
  }

  /** A command of action "q" with a numeric image id. The answer repeats the id and says
      whether the data comes directly, in a known format, and in a known compression. */
  ghost predicate IsGraphicsQuery(q: seq<byte>, response: seq<byte>)
  {
    exists c: Command, id: seq<byte> :: q == CommandSequence(c) && IsCommand(c) && AsksFor(c, id, response)
  }

  ghost predicate AsksFor(c: Command, id: seq<byte>, response: seq<byte>)
  {
    && Says(c.attributes, Ascii("a"), Ascii("q")) && Says(c.attributes, Ascii("i"), id)
    && id != [] && (forall i :: 0 <= i < |id| ==> '0' as byte <= id[i] <= '9' as byte)
    && exists t: seq<byte>, f: seq<byte>, o: seq<byte> ::
         && Says(c.attributes, Ascii("t"), t) && Says(c.attributes, Ascii("f"), f) && Says(c.attributes, Ascii("o"), o)
         && response == [ESC] + Ascii("_Gi=") + id + [SEMICOLON] + Verdict(t, f, o) + [ESC, BACKSLASH]
  }

  function Verdict(t: seq<byte>, f: seq<byte>, o: seq<byte>): seq<byte>
  {
    if t !in {[], Ascii("d")} then Ascii("EINVAL: only direct transmission is supported")
    else if f !in {[], Ascii("24"), Ascii("32"), Ascii("100")} then Ascii("EINVAL: image format is unsupported")
    else if o !in {[], Ascii("z")} then Ascii("EINVAL: compression is unsupported")
    else Ascii("OK")
  }

  function Encode(pieces: seq<Piece>): seq<byte>
  {
    if pieces == [] then [] else pieces[0].bytes + Encode(pieces[1..])
  }

  function OutputOf(pieces: seq<Piece>): seq<byte>
  {
    if pieces == [] then [] else (if pieces[0].Forwarded? then pieces[0].bytes else []) + OutputOf(pieces[1..])
  }

  function EffectsOf(pieces: seq<Piece>): seq<Effect>
  {
    if pieces == [] then []
    else (if pieces[0].Forwarded? then pieces[0].effects else [Respond(pieces[0].response)]) + EffectsOf(pieces[1..])
  }

  ghost predicate PieceOk(p: Piece, colors: Colors)
  {
    match p
    case Forwarded(bytes, effects) => Expected(bytes, effects)
    case Query(bytes, response) => IsQuery(bytes, response, colors)
  }

  /** Passing something on sets an expectation only behind ESC [5n, which a viewer answers
      with ESC [0n, and behind ESC [6n, which it answers with the cursor's position. */
  ghost predicate Expected(bytes: seq<byte>, effects: seq<Effect>)
  {
    || effects == []
    || (effects == [ExpectReply([ESC] + Ascii("[0n"))] && EndsWith(bytes, [ESC] + Ascii("[5n")))
    || (effects == [ExpectCursorReport] && EndsWith(bytes, [ESC] + Ascii("[6n")))
  }

  predicate EndsWith(s: seq<byte>, tail: seq<byte>)
  {
    |s| >= |tail| && s[|s| - |tail|..] == tail
  }

  ghost predicate PiecesOk(pieces: seq<Piece>, colors: Colors)
  {
    forall i :: 0 <= i < |pieces| ==> PieceOk(pieces[i], colors)
  }

  /** The input is the pieces and what is kept, in order; the output is exactly the
      forwarded pieces, and each answer belongs to a query that was taken out. */
  ghost predicate Explains(pieces: seq<Piece>, s: seq<byte>, r: Filtered, colors: Colors)
  {
    && PiecesOk(pieces, colors) && Encode(pieces) + r.pending == s
    && OutputOf(pieces) == r.output && EffectsOf(pieces) == r.effects
  }

  function Parse(s: seq<byte>, colors: Colors): seq<Piece>
    decreases |s|
  {
    match IndexOf(s, ESC)
    case None => [Forwarded(s, [])]
    case Some(i) =>
      match CutOf(s[i..], colors)
      case Hold => [Forwarded(s[..i], [])]
      case PassAll => [Forwarded(s, [])]
      case Pass(n, effects) => [Forwarded(s[..i + n], effects)] + Parse(s[i + n..], colors)
      case Answer(n, response) => [Forwarded(s[..i], [])] + ([Query(s[i..i + n], response)] + Parse(s[i + n..], colors))
  }

  // ---- lists of attributes ----------------------------------------------------------------

  lemma IndexOfIs(s: seq<byte>, b: byte, i: nat)
    requires i < |s| && s[i] == b && b !in s[..i]
    ensures IndexOf(s, b) == Some(i)
  {}

  lemma NotIn(s: seq<byte>, b: byte)
    requires b !in s
    ensures IndexOf(s, b) == None
  {}

  lemma {:induction false} JoinSplit(s: seq<byte>)
    ensures Join(Split(s, COMMA)) == s && Plain(Split(s, COMMA), COMMA)
    decreases |s|
  {
    match IndexOf(s, COMMA)
    case None =>
    case Some(i) =>
      var rest := Split(s[i + 1..], COMMA);
      JoinSplit(s[i + 1..]);
      Cons(s[..i], rest);
      assert s == s[..i] + [COMMA] + s[i + 1..];
      assert forall k :: 1 <= k < |[s[..i]] + rest| ==> ([s[..i]] + rest)[k] == rest[k - 1];
  }

  lemma {:induction false} SplitJoin(parts: seq<seq<byte>>)
    requires parts != [] && Plain(parts, COMMA)
    ensures Split(Join(parts), COMMA) == parts
    decreases |parts|
  {
    if |parts| == 1 {
      NotIn(parts[0], COMMA);
    } else {
      var rest := Join(parts[1..]);
      SplitJoin(parts[1..]);
      Assoc(parts[0], [COMMA], rest);
      hide Join;
      SplitFirst(parts[0], rest);
      Uncons(parts);
    }
  }

  lemma SplitFirst(part: seq<byte>, rest: seq<byte>)
    requires COMMA !in part
    ensures Split(part + ([COMMA] + rest), COMMA) == [part] + Split(rest, COMMA)
  {
    var s := part + ([COMMA] + rest);
    CutFirst(part, [COMMA] + rest, |part|);
    Empty(part);
    IndexOfIs(s, COMMA, |part|);
    CutSecond(part, [COMMA] + rest, 1);
    Cons(COMMA, rest);
    hide IndexOf;
  }

  /** The search for an attribute finds what the last one says. */
  lemma {:induction false} SaysExactly(parts: seq<seq<byte>>, key: seq<byte>, value: seq<byte>)
    requires EQUALS !in key
    ensures Says(parts, key, value) <==> Attribute(parts, key) == value
    decreases |parts|
  {
    if parts != [] {
      var n := |parts| - 1;
      SaysExactly(parts[..n], key, value);
      if IsPrefix(key + [EQUALS], parts[n]) {
        SaidLast(parts, key, value);
      } else {
        NotSaidLast(parts, key, value);
      }
    }
  }

  lemma KeyFound(part: seq<byte>, key: seq<byte>)
    requires EQUALS !in key
    ensures IsPrefix(key + [EQUALS], part) <==> IndexOf(part, EQUALS).Some? && part[..IndexOf(part, EQUALS).value] == key
    ensures IsPrefix(key + [EQUALS], part) ==> IndexOf(part, EQUALS) == Some(|key|) && part == key + [EQUALS] + part[|key| + 1..]
  {
    if IsPrefix(key + [EQUALS], part) {
      assert part[|key|] == (key + [EQUALS])[|key|];
      assert part[..|key|] == (key + [EQUALS])[..|key|] == key;
      IndexOfIs(part, EQUALS, |key|);
    }
  }

  lemma NotSaidBefore(parts: seq<seq<byte>>, key: seq<byte>, value: seq<byte>, i: nat)
    requires i < |parts| - 1 && IsPrefix(key + [EQUALS], parts[|parts| - 1])
    ensures !SaidAt(parts, key, value, i)
  {
    var rest := parts[i + 1..];
    assert rest[|rest| - 1] == parts[|parts| - 1];
  }

  lemma SaidLast(parts: seq<seq<byte>>, key: seq<byte>, value: seq<byte>)
    requires EQUALS !in key && parts != [] && IsPrefix(key + [EQUALS], parts[|parts| - 1])
    ensures Says(parts, key, value) <==> Attribute(parts, key) == value
  {
    var n := |parts| - 1;
    var last := parts[n];
    KeyFound(last, key);
    assert Attribute(parts, key) == last[|key| + 1..];
    forall i | 0 <= i < n ensures !SaidAt(parts, key, value, i) {
      NotSaidBefore(parts, key, value, i);
    }
    if Says(parts, key, value) {
      assert !Unsaid(parts, key);
      var i :| SaidAt(parts, key, value, i);
      assert value == (key + [EQUALS] + value)[|key| + 1..];
    }
    if Attribute(parts, key) == value {
      assert parts[n + 1..] == [];
      assert SaidAt(parts, key, value, n);
    }
  }

  lemma NotSaidLast(parts: seq<seq<byte>>, key: seq<byte>, value: seq<byte>)
    requires EQUALS !in key && parts != [] && !IsPrefix(key + [EQUALS], parts[|parts| - 1])
    ensures Attribute(parts, key) == Attribute(parts[..|parts| - 1], key)
    ensures Says(parts, key, value) <==> Says(parts[..|parts| - 1], key, value)
  {
    hide Says;
    KeyFound(parts[|parts| - 1], key);
    SaysInFront(parts, key, value);
  }

  lemma SaysInFront(parts: seq<seq<byte>>, key: seq<byte>, value: seq<byte>)
    requires parts != [] && !IsPrefix(key + [EQUALS], parts[|parts| - 1])
    ensures Says(parts, key, value) <==> Says(parts[..|parts| - 1], key, value)
  {
    hide SaidAt, Unsaid, IsPrefix;
    var front := parts[..|parts| - 1];
    UnsaidFront(parts, key);
    forall i ensures SaidAt(parts, key, value, i) <==> SaidAt(front, key, value, i) {
      SaidInFront(parts, key, value, i);
    }
  }

  lemma UnsaidFront(parts: seq<seq<byte>>, key: seq<byte>)
    requires parts != [] && !IsPrefix(key + [EQUALS], parts[|parts| - 1])
    ensures Unsaid(parts, key) <==> Unsaid(parts[..|parts| - 1], key)
  {
    hide IsPrefix;
  }

  lemma SaidInFront(parts: seq<seq<byte>>, key: seq<byte>, value: seq<byte>, i: int)
    requires parts != [] && !IsPrefix(key + [EQUALS], parts[|parts| - 1])
    ensures SaidAt(parts, key, value, i) <==> SaidAt(parts[..|parts| - 1], key, value, i)
  {
    hide Unsaid;
    var n := |parts| - 1;
    if 0 <= i < n {
      UnsaidFront(parts[i + 1..], key);
      assert parts[..n][i + 1..] == parts[i + 1..][..|parts[i + 1..]| - 1];
    } else if i == n {
      Begins(key + [EQUALS], value);
    }
  }

  lemma Begins(a: seq<byte>, b: seq<byte>)
    ensures IsPrefix(a, a + b)
  {}

  // ---- what is taken out is a query, with its own answer ------------------------------------

  lemma AttributesQuery(s: seq<byte>, final: nat)
    requires 2 <= final < |s| && s[0] == ESC && s[1] == 0x5b && s[final] == 0x63 && AttributesResponse(s[2..final]).Some?
    ensures IsAttributesQuery(s[..final + 1], AttributesResponse(s[2..final]).value)
  {
    var params := s[2..final];
    assert s[..final + 1] == [ESC, 0x5b] + params + [0x63];
    assert Ascii("[c") == [0x5b, 0x63] && Ascii("[0c") == [0x5b] + Ascii("0") + [0x63];
    assert Ascii("[>c") == [0x5b] + Ascii(">") + [0x63] && Ascii("[>0c") == [0x5b] + Ascii(">0") + [0x63];
  }

  lemma {:induction false} StringEndSpec(s: seq<byte>, i: nat, belEnds: bool)
    ensures var r := StringEnd(s, i, belEnds);
            r.Some? ==>
              && ((belEnds && s[r.value - 1] == BEL) || (r.value >= i + 2 && EndsCommand(s, r.value - 2)))
              && (forall k :: i <= k < r.value - 2 ==> !EndsCommand(s, k))
    decreases |s| - i
  {
    if i < |s| {
      StringEndSpec(s, i + 1, belEnds);
    }
  }

  lemma StringAnswer(body: seq<byte>, colors: Colors)
    ensures StringResponse(body, colors).Some? ==> AnswersString(body, StringResponse(body, colors).value, colors)
  {
    ColorAnswer("10", colors.foreground);
    ColorAnswer("11", colors.background);
    ColorAnswer("12", colors.cursor);
    hide ColorResponse, Digits;
    assert STATUS_SUPPORT == [ESC] + Ascii("]7501;?") + [ESC, BACKSLASH];
  }

  lemma ColorAnswer(code: string, c: Color)
    ensures ColorResponse(Ascii(code), c) == [ESC] + Ascii("]" + code + ";rgb:") + Digits(c) + [BEL]
  {
    assert Ascii("]" + code + ";rgb:") == Ascii("]") + Ascii(code) + Ascii(";rgb:");
    hide Ascii;
    var rest := c.green + c.green;
    assert c.red + c.red + Ascii("/") + c.green + c.green == c.red + c.red + Ascii("/") + rest;
    assert c.red + c.red + Ascii("/") + rest + Ascii("/") + c.blue + c.blue == Digits(c);
  }

  lemma StringQuery(s: seq<byte>, colors: Colors)
    requires |s| >= 2 && s[0] == ESC && s[1] == 0x5d && StringCut(s, colors).Answer?
    ensures IsStringQuery(s[..StringCut(s, colors).n], StringCut(s, colors).response, colors)
  {
    hide StringResponse, AnswersString;
    StringEndSpec(s, 2, true);
    var end := StringEnd(s, 2, true).value;
    var bel := s[end - 1] == BEL;
    var terminator := if bel then end - 1 else end - 2;
    var body := s[2..terminator];
    StringAnswer(body, colors);
    assert Ascii("]") == [0x5d];
    assert s[terminator..end] == if bel then [BEL] else [ESC, BACKSLASH];
    assert s[..end] == StringSequence(body, bel);
  }

  lemma GraphicsQuery(s: seq<byte>, colors: Colors)
    requires |s| >= 2 && s[0] == ESC && s[1] == 0x5f && GraphicsCut(s).Answer?
    ensures IsGraphicsQuery(s[..GraphicsCut(s).n], GraphicsCut(s).response)
  {
    hide GraphicsResponse, Split;
    StringEndSpec(s, 2, false);
    var q := s[..GraphicsCut(s).n];
    assert forall i :: 2 <= i < |q| - 2 && EndsCommand(q, i) ==> EndsCommand(s, i);
    GraphicsCommand(q, GraphicsCut(s).response);
  }

  /** The command of a sequence that is answered. */
  lemma GraphicsCommand(q: seq<byte>, response: seq<byte>)
    requires |q| >= 4 && q[0] == ESC && q[1] == 0x5f && q[2] == 0x47 && GraphicsResponse(q) == Some(response)
    requires forall i :: 2 <= i < |q| - 2 ==> !EndsCommand(q, i)
    ensures IsGraphicsQuery(q, response)
  {
    hide Says, Split, Attribute, GraphicsMessage, Ascii, Verdict;
    var body := q[3..|q| - 2];
    var separator := IndexOf(body, SEMICOLON);
    var control := if separator.Some? then body[..separator.value] else body;
    var c := Command(Split(control, COMMA), if separator.Some? then Some(body[separator.value + 1..]) else None);
    JoinSplit(control);
    var id := Attribute(c.attributes, Ascii("i"));
    CommandBytes(q, c, separator);
    AnswerAsks(c, id, response);
  }

  lemma CommandBytes(q: seq<byte>, c: Command, separator: Option<nat>)
    requires |q| >= 12 && q[0] == ESC && q[1] == 0x5f && q[2] == 0x47 && q[|q| - 2..] == [ESC, BACKSLASH]
    requires var body := q[3..|q| - 2];
             && (separator.Some? ==> separator.value < |body| && body[separator.value] == SEMICOLON
                                     && Join(c.attributes) == body[..separator.value] && c.data == Some(body[separator.value + 1..]))
             && (separator.None? ==> Join(c.attributes) == body && c.data == None)
    ensures q == CommandSequence(c)
  {
    var body := q[3..|q| - 2];
    assert Ascii("_G") == [0x5f, 0x47];
    if separator.Some? {
      assert body == body[..separator.value] + [SEMICOLON] + body[separator.value + 1..];
    } else {
      assert body + [] == body;
    }
    assert q == [ESC, 0x5f, 0x47] + body + [ESC, BACKSLASH];
  }

  lemma AnswerAsks(c: Command, id: seq<byte>, response: seq<byte>)
    requires var parts := c.attributes;
             && Attribute(parts, Ascii("a")) == Ascii("q") && id == Attribute(parts, Ascii("i")) && id != [] && AllDigits(id)
             && response == [ESC] + Ascii("_Gi=") + id + [SEMICOLON] + GraphicsMessage(parts) + [ESC, BACKSLASH]
    ensures AsksFor(c, id, response)
  {
    hide Says;
    var parts := c.attributes;
    var t, f, o := Attribute(parts, Ascii("t")), Attribute(parts, Ascii("f")), Attribute(parts, Ascii("o"));
    KeysArePlain();
    SaysExactly(parts, Ascii("a"), Ascii("q"));
    SaysExactly(parts, Ascii("i"), id);
    SaysExactly(parts, Ascii("t"), t);
    SaysExactly(parts, Ascii("f"), f);
    SaysExactly(parts, Ascii("o"), o);
    assert GraphicsMessage(parts) == Verdict(t, f, o);
    hide Attribute, GraphicsMessage, Ascii;
  }

  lemma KeysArePlain()
    ensures EQUALS !in Ascii("a") && EQUALS !in Ascii("i") && EQUALS !in Ascii("t") && EQUALS !in Ascii("f") && EQUALS !in Ascii("o")
  {}

  /** Only recognised queries are taken out, and each gets its own answer. */
  lemma AnswerIsQuery(s: seq<byte>, colors: Colors)
    requires s != [] && s[0] == ESC && CutOf(s, colors).Answer?
    ensures IsQuery(s[..CutOf(s, colors).n], CutOf(s, colors).response, colors)
  {
    hide GraphicsCut, StringCut, AttributesResponse, IsStringQuery, IsGraphicsQuery;
    if s[1] == 0x5f {
      GraphicsQuery(s, colors);
    } else if s[1] == 0x5b {
      AttributesQuery(s, FinalByte(s, 2).value);
    } else if s[1] == 0x5d {
      StringQuery(s, colors);
    } else {
      assert s[..2] == [ESC] + Ascii("Z");
      assert PRIMARY_ATTRIBUTES == [ESC] + Ascii("[?1;2c");
    }
  }

  lemma PassIsExpected(s: seq<byte>, colors: Colors)
    requires s != [] && s[0] == ESC && CutOf(s, colors).Pass?
    ensures Expected(s[..CutOf(s, colors).n], CutOf(s, colors).effects)
  {
    hide Ascii, AttributesResponse, StringResponse, GraphicsResponse, IndexOf, Split, StringEnd, FinalByte;
    Empty(s);
  }

  lemma ExpectedBehind(before: seq<byte>, bytes: seq<byte>, effects: seq<Effect>)
    requires Expected(bytes, effects)
    ensures Expected(before + bytes, effects)
  {
    hide Ascii;
    assert forall tail :: EndsWith(bytes, tail) ==> (before + bytes)[|before + bytes| - |tail|..] == bytes[|bytes| - |tail|..];
  }

  lemma PassedIsExpected(s: seq<byte>, i: nat, colors: Colors)
    requires i < |s| && s[i] == ESC && CutOf(s[i..], colors).Pass?
    ensures Expected(s[..i + CutOf(s[i..], colors).n], CutOf(s[i..], colors).effects)
  {
    hide CutOf, Expected;
    PassIsExpected(s[i..], colors);
    var n := CutOf(s[i..], colors).n;
    CutTwice(s, i, 0, n);
    SplitTwice(s, i, i + n);
    ExpectedBehind(s[..i], s[i..i + n], CutOf(s[i..], colors).effects);
  }

  lemma ExpectedIsNoAnswer(bytes: seq<byte>, effects: seq<Effect>)
    requires Expected(bytes, effects)
    ensures forall i :: 0 <= i < |effects| ==> !effects[i].Respond?
  {
    hide EndsWith;
  }

  lemma ConsPiece(p: Piece, pieces: seq<Piece>, colors: Colors)
    ensures var all := [p] + pieces;
            && Encode(all) == p.bytes + Encode(pieces)
            && OutputOf(all) == (if p.Forwarded? then p.bytes else []) + OutputOf(pieces)
            && EffectsOf(all) == (if p.Forwarded? then p.effects else [Respond(p.response)]) + EffectsOf(pieces)
            && (PieceOk(p, colors) && PiecesOk(pieces, colors) ==> PiecesOk(all, colors))
  {
    hide PieceOk;
    assert ([p] + pieces)[1..] == pieces;
  }

  lemma OnePiece(bytes: seq<byte>, pending: seq<byte>, colors: Colors)
    ensures Explains([Forwarded(bytes, [])], bytes + pending, Filtered(bytes, [], pending), colors)
  {
    var none: seq<Piece> := [];
    ConsPiece(Forwarded(bytes, []), none, colors);
    assert [Forwarded(bytes, [])] + none == [Forwarded(bytes, [])];
    assert bytes + [] == bytes;
  }

  lemma PassedOn(bytes: seq<byte>, effects: seq<Effect>, rest: seq<byte>, pieces: seq<Piece>, r: Filtered, colors: Colors)
    requires Explains(pieces, rest, r, colors) && Expected(bytes, effects)
    ensures Explains([Forwarded(bytes, effects)] + pieces, bytes + rest, Then(bytes, effects, r), colors)
  {
    hide Encode, OutputOf, EffectsOf, PiecesOk, Expected;
    ConsPiece(Forwarded(bytes, effects), pieces, colors);
    Assoc(bytes, Encode(pieces), r.pending);
  }

  lemma TakenOut(bytes: seq<byte>, q: seq<byte>, response: seq<byte>, rest: seq<byte>, pieces: seq<Piece>, r: Filtered, colors: Colors)
    requires Explains(pieces, rest, r, colors) && IsQuery(q, response, colors)
    ensures Explains([Forwarded(bytes, [])] + ([Query(q, response)] + pieces), bytes + (q + rest), Then(bytes, [Respond(response)], r), colors)
  {
    hide Encode, OutputOf, EffectsOf, PiecesOk, IsQuery;
    var more := [Query(q, response)] + pieces;
    ConsPiece(Query(q, response), pieces, colors);
    ConsPiece(Forwarded(bytes, []), more, colors);
    assert [] + OutputOf(pieces) == OutputOf(pieces);
    assert [] + ([Respond(response)] + EffectsOf(pieces)) == [Respond(response)] + EffectsOf(pieces);
    Assoc(q, Encode(pieces), r.pending);
    Assoc(bytes, q + Encode(pieces), r.pending);
  }

  /** The pieces of one pass, case by case. */
  ghost predicate ParseCase(s: seq<byte>, i: nat, colors: Colors)
    requires i < |s| && s[i] == ESC
  {
    match CutOf(s[i..], colors)
    case Hold => Parse(s, colors) == [Forwarded(s[..i], [])]
    case PassAll => Parse(s, colors) == [Forwarded(s, [])]
    case Pass(n, effects) => Parse(s, colors) == [Forwarded(s[..i + n], effects)] + Parse(s[i + n..], colors)
    case Answer(n, response) =>
      Parse(s, colors) == [Forwarded(s[..i], [])] + ([Query(s[i..i + n], response)] + Parse(s[i + n..], colors))
  }

  lemma ParseUnfold(s: seq<byte>, colors: Colors)
    ensures IndexOf(s, ESC).None? ==> Parse(s, colors) == [Forwarded(s, [])]
    ensures IndexOf(s, ESC).Some? ==> ParseCase(s, IndexOf(s, ESC).value, colors)
  {
    hide CutOf, IndexOf;
  }

  /** Every byte is forwarded, belongs to an answered query, or is kept for later. */
  lemma {:induction false} NothingLost(s: seq<byte>, colors: Colors)
    ensures Explains(Parse(s, colors), s, Filter(s, colors), colors)
    decreases |s|
  {
    hide CutOf, Explains, IsQuery, Filter, Parse, IndexOf, Then, Expected;
    FilterUnfold(s, colors);
    ParseUnfold(s, colors);
    Empty(s);
    match IndexOf(s, ESC)
    case None => OnePiece(s, [], colors);
    case Some(i) =>
      match CutOf(s[i..], colors)
      case Hold =>
        SplitAt(s, i);
        OnePiece(s[..i], s[i..], colors);
      case PassAll => OnePiece(s, [], colors);
      case Pass(n, effects) =>
        NothingLost(s[i + n..], colors);
        PassedIsExpected(s, i, colors);
        SplitAt(s, i + n);
        PassedOn(s[..i + n], effects, s[i + n..], Parse(s[i + n..], colors), Filter(s[i + n..], colors), colors);
      case Answer(n, response) =>
        NothingLost(s[i + n..], colors);
        AnswerIsQuery(s[i..], colors);
        CutTwice(s, i, 0, n);
        SplitTwice(s, i, i + n);
        TakenOut(s[..i], s[i..i + n], response, s[i + n..], Parse(s[i + n..], colors), Filter(s[i + n..], colors), colors);
  }

  /** Nothing, or an unfinished sequence of at most 4096 bytes. */
  ghost predicate PendingOk(p: seq<byte>, colors: Colors)
  {
    p == [] || (|p| <= MAX_PENDING_GRAPHICS && p[0] == ESC && CutOf(p, colors) == Hold)
  }

  /** What is kept for the next call is bounded. */
  lemma {:induction false} PendingIsBounded(s: seq<byte>, colors: Colors)
    ensures PendingOk(Filter(s, colors).pending, colors)
    decreases |s|
  {
    hide CutOf, PendingOk, Filter, IndexOf;
    NothingIsPending(colors);
    FilterUnfold(s, colors);
    match IndexOf(s, ESC)
    case None =>
    case Some(i) =>
      match CutOf(s[i..], colors)
      case Hold => HoldIsShort(s[i..], colors);
      case PassAll =>
      case Pass(n, _) => PendingIsBounded(s[i + n..], colors);
      case Answer(n, _) => PendingIsBounded(s[i + n..], colors);
  }

  lemma NothingIsPending(colors: Colors)
    ensures PendingOk([], colors)
  {}

  lemma HoldIsShort(s: seq<byte>, colors: Colors)
    requires s != [] && s[0] == ESC && CutOf(s, colors) == Hold
    ensures PendingOk(s, colors)
  {
    hide GraphicsCut, ControlCut, StringCut;
  }

  /** The answers, in the order in which they are written. */
  function Responses(effects: seq<Effect>): seq<seq<byte>>
  {
    if effects == [] then []
    else Responses(effects[..|effects| - 1]) + (if effects[|effects| - 1].Respond? then [effects[|effects| - 1].bytes] else [])
  }

  function Queries(pieces: seq<Piece>): seq<seq<byte>>
  {
    if pieces == [] then [] else (if pieces[0].Query? then [pieces[0].response] else []) + Queries(pieces[1..])
  }

  lemma {:induction false} ResponsesAppend(a: seq<Effect>, b: seq<Effect>)
    ensures Responses(a + b) == Responses(a) + Responses(b)
    decreases |b|
  {
    if b == [] {
      assert a + b == a && Responses(a) + [] == Responses(a);
    } else {
      var front, e := b[..|b| - 1], b[|b| - 1];
      ResponsesAppend(a, front);
      assert (a + b)[..|a + b| - 1] == a + front;
      Assoc(Responses(a), Responses(front), if e.Respond? then [e.bytes] else []);
    }
  }

  lemma {:induction false} NoResponses(effects: seq<Effect>)
    requires forall i :: 0 <= i < |effects| ==> !effects[i].Respond?
    ensures Responses(effects) == []
  {
    if effects != [] {
      NoResponses(effects[..|effects| - 1]);
    }
  }

  lemma {:induction false} AnswersOfPieces(pieces: seq<Piece>, colors: Colors)
    requires PiecesOk(pieces, colors)
    ensures Responses(EffectsOf(pieces)) == Queries(pieces)
  {
    if pieces != [] {
      var p, rest := pieces[0], pieces[1..];
      Uncons(pieces);
      RestOk(p, rest, colors);
      AnswersOfPieces(rest, colors);
      hide PiecesOk, PieceOk, IsQuery, Responses, EffectsOf, Queries;
      AnswerOfPiece(p, rest, colors);
    }
  }

  lemma RestOk(p: Piece, rest: seq<Piece>, colors: Colors)
    requires PiecesOk([p] + rest, colors)
    ensures PieceOk(p, colors) && PiecesOk(rest, colors)
  {
    hide PieceOk;
    var all := [p] + rest;
    assert all[0] == p;
    assert forall i :: 0 <= i < |rest| ==> all[i + 1] == rest[i];
  }

  lemma AnswerOfPiece(p: Piece, rest: seq<Piece>, colors: Colors)
    requires PieceOk(p, colors) && Responses(EffectsOf(rest)) == Queries(rest)
    ensures Responses(EffectsOf([p] + rest)) == Queries([p] + rest)
  {
    ConsPiece(p, rest, colors);
    ConsQueries(p, rest);
    hide Responses, EffectsOf, Queries, IsQuery, Expected;
    var effects := if p.Forwarded? then p.effects else [Respond(p.response)];
    ResponsesAppend(effects, EffectsOf(rest));
    if p.Forwarded? {
      ExpectedIsNoAnswer(p.bytes, effects);
      NoResponses(effects);
    } else {
      OneResponse(p.response);
    }
  }

  lemma ConsQueries(p: Piece, rest: seq<Piece>)
    ensures Queries([p] + rest) == (if p.Query? then [p.response] else []) + Queries(rest)
  {
    Cons(p, rest);
  }

  lemma OneResponse(response: seq<byte>)
    ensures Responses([Respond(response)]) == [response]
  {
    assert [Respond(response)][..0] == [];
    assert Responses([]) + [response] == [response];
  }

  /** One answer for each query taken out, in order, and no other answer. */
  lemma OneAnswerEach(s: seq<byte>, colors: Colors)
    ensures Responses(Filter(s, colors).effects) == Queries(Parse(s, colors))
  {
    NothingLost(s, colors);
    hide Filter, Parse, PiecesOk;
    AnswersOfPieces(Parse(s, colors), colors);
  }
}
