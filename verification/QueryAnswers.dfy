/** The other half of answering terminal queries (core/queries.go:22-161): every query is
    answered, also one that arrives in parts, and when a graphics query is not; what is kept
    back; and which passed sequences a viewer is expected to answer. */
module QueryAnswers {
  import opened Bytes
  import opened QueryFilter

  // ---- what is kept back ------------------------------------------------------------------

  predicate NoEnd(s: seq<byte>)
  {
    forall i :: 2 <= i < |s| ==> !EndsCommand(s, i)
  }

  /** The start of a sequence that may still turn out to be a query. */
  ghost predicate Unfinished(s: seq<byte>)
  {
    && s != [] && s[0] == ESC
    && (|| |s| == 1
        || (s[1] == '[' as byte && |s| <= 64 && forall i :: 2 <= i < |s| ==> !(0x40 <= s[i] <= 0x7e))
        || (s[1] == ']' as byte && |s| <= 64 && NoEnd(s) && forall i :: 2 <= i < |s| ==> s[i] != BEL)
        || (s[1] == '_' as byte && UnfinishedCommand(s)))
  }

  ghost predicate UnfinishedCommand(s: seq<byte>)
    requires |s| >= 2
  {
    || |s| < 4
    || (s[2] == 'G' as byte && SEMICOLON !in s && |s| <= 64)
    || (s[2] == 'G' as byte && |s| <= 4096 && NoEnd(s) && AsksFirst(s))
  }

  /** Before the first semicolon, an attribute says a=q. */
  ghost predicate AsksFirst(s: seq<byte>)
  {
    exists k :: AsksUpTo(s, k)
  }

  predicate AsksUpTo(s: seq<byte>, k: int)
  {
    3 <= k < |s| && s[k] == SEMICOLON && SEMICOLON !in s[..k] && Ascii("a=q") in Split(s[3..k], COMMA)
  }

  lemma {:induction false} NoFinal(s: seq<byte>, i: nat)
    requires |s| <= 64
    ensures FinalByte(s, i).None? <==> forall k :: i <= k < |s| ==> !(0x40 <= s[k] <= 0x7e)
    decreases |s| - i
  {
    if i < |s| {
      NoFinal(s, i + 1);
    }
  }

  lemma {:induction false} NoStringEnd(s: seq<byte>, i: nat, belEnds: bool)
    ensures StringEnd(s, i, belEnds).None? <==>
              && (forall k :: i <= k < |s| ==> !EndsCommand(s, k))
              && (belEnds ==> forall k :: i <= k < |s| ==> s[k] != BEL)
    decreases |s| - i
  {
    if i < |s| {
      NoStringEnd(s, i + 1, belEnds);
      var here := EndsCommand(s, i) || (belEnds && s[i] == BEL);
      assert StringEnd(s, i, belEnds).None? <==> !here && StringEnd(s, i + 1, belEnds).None?;
      if StringEnd(s, i, belEnds).None? {
        forall k | i <= k < |s| ensures !EndsCommand(s, k) && (belEnds ==> s[k] != BEL) {
          assert k == i || i + 1 <= k;
        }
      }
    }
  }

  /** What is kept back is exactly the start of a sequence that may be a query. */
  lemma HoldExactly(s: seq<byte>, colors: Colors)
    requires s != [] && s[0] == ESC
    ensures CutOf(s, colors) == Hold <==> Unfinished(s)
  {
    hide Ascii, AttributesResponse, StringResponse, GraphicsResponse, UnfinishedCommand, GraphicsCut;
    if |s| >= 2 {
      if s[1] == 0x5f {
        HoldCommand(s);
      } else if s[1] == 0x5b {
        if |s| <= 64 {
          NoFinal(s, 2);
        }
      } else if s[1] == 0x5d {
        NoStringEnd(s, 2, true);
      }
    }
  }

  lemma HoldCommand(s: seq<byte>)
    requires |s| >= 2 && s[0] == ESC && s[1] == 0x5f
    ensures GraphicsCut(s) == Hold <==> UnfinishedCommand(s)
  {
    hide Ascii, GraphicsResponse, Split;
    if |s| >= 4 && s[2] == 0x47 {
      NoStringEnd(s, 2, false);
      FirstSemicolon(s);
    }
  }

  lemma FirstSemicolon(s: seq<byte>)
    requires |s| >= 4 && s[0] == ESC && s[1] == 0x5f && s[2] == 0x47
    ensures AsksFirst(s) <==>
              IndexOf(s, SEMICOLON).Some? && IndexOf(s, SEMICOLON).value >= 3 && Ascii("a=q") in Split(s[3..IndexOf(s, SEMICOLON).value], COMMA)
    ensures IndexOf(s, SEMICOLON).Some? ==> IndexOf(s, SEMICOLON).value >= 3
  {
    hide Ascii, Split;
    if exists k :: AsksUpTo(s, k) {
      var k :| AsksUpTo(s, k);
      IndexOfIs(s, SEMICOLON, k);
    }
    if IndexOf(s, SEMICOLON).Some? && IndexOf(s, SEMICOLON).value >= 3 && Ascii("a=q") in Split(s[3..IndexOf(s, SEMICOLON).value], COMMA) {
      assert AsksUpTo(s, IndexOf(s, SEMICOLON).value);
    }
  }

  /** On every input, what is kept for the next call is nothing or such a start, and kept
      as it is until more comes. */
  lemma {:induction false} PendingExactly(s: seq<byte>, colors: Colors)
    ensures var pending := Filter(s, colors).pending;
            (pending == [] || Unfinished(pending)) && Filter(pending, colors) == Filtered([], [], pending)
    decreases |s|
  {
    hide CutOf, Filter, IndexOf, Unfinished;
    FilterUnfold(s, colors);
    FilterNothing(colors);
    match IndexOf(s, ESC)
    case None =>
    case Some(i) =>
      match CutOf(s[i..], colors)
      case Hold =>
        HoldExactly(s[i..], colors);
        KeptBack(s[i..], colors);
      case PassAll =>
      case Pass(n, _) => PendingExactly(s[i + n..], colors);
      case Answer(n, _) => PendingExactly(s[i + n..], colors);
  }

  lemma KeptBack(s: seq<byte>, colors: Colors)
    requires Unfinished(s)
    ensures Filter(s, colors) == Filtered([], [], s)
  {
    hide CutOf, Filter, IndexOf;
    HoldExactly(s, colors);
    FilterUnfold(s, colors);
    IndexOfIs(s, ESC, 0);
    Empty(s);
  }

  // ---- every query is answered ----------------------------------------------------------------

  lemma AnswerFirst(q: seq<byte>, response: seq<byte>, s: seq<byte>, colors: Colors)
    requires q != [] && q[0] == ESC && CutOf(q + s, colors) == Answer(|q|, response)
    ensures Filter(q + s, colors) == Then([], [Respond(response)], Filter(s, colors))
  {
    hide CutOf, Filter, IndexOf, Then;
    FilterUnfold(q + s, colors);
    IndexOfIs(q + s, ESC, 0);
    Empty(q + s);
    CutSecond(q, s, 0);
    Empty(s);
  }

  lemma IdentityAnswered(s: seq<byte>, colors: Colors)
    ensures CutOf([ESC] + Ascii("Z") + s, colors) == Answer(2, [ESC] + Ascii("[?1;2c"))
  {
    assert Ascii("Z") == [0x5a];
  }

  /** A final byte is found where it stands first. */
  lemma {:induction false} FinalByteIs(s: seq<byte>, i: nat, k: nat)
    requires i <= k < |s| && k <= 64 && 0x40 <= s[k] <= 0x7e
    requires forall j :: i <= j < k ==> !(0x40 <= s[j] <= 0x7e)
    ensures FinalByte(s, i) == Some(k)
    decreases k - i
  {
    if i < k {
      FinalByteIs(s, i + 1, k);
    }
  }

  lemma AttributesParams(q: seq<byte>, response: seq<byte>)
    requires IsAttributesQuery(q, response)
    ensures 3 <= |q| <= 5 && q[0] == ESC && q[1] == 0x5b && q[|q| - 1] == 0x63
    ensures (forall j :: 2 <= j < |q| - 1 ==> !(0x40 <= q[j] <= 0x7e)) && AttributesResponse(q[2..|q| - 1]) == Some(response)
  {
    assert Ascii("[c") == [0x5b, 0x63] && Ascii("[0c") == [0x5b, 0x30, 0x63];
    assert Ascii("[>c") == [0x5b, 0x3e, 0x63] && Ascii("[>0c") == [0x5b, 0x3e, 0x30, 0x63];
    assert Ascii("0") == [0x30] && Ascii(">") == [0x3e] && Ascii(">0") == [0x3e, 0x30];
    hide Ascii;
    assert q[2..|q| - 1] == if |q| == 3 then [] else if |q| == 5 then [0x3e, 0x30] else [q[2]];
  }

  lemma AttributesAnswered(q: seq<byte>, response: seq<byte>, s: seq<byte>, colors: Colors)
    requires IsAttributesQuery(q, response)
    ensures q != [] && q[0] == ESC && CutOf(q + s, colors) == Answer(|q|, response)
  {
    hide IsAttributesQuery, AttributesResponse, FinalByte, Ascii;
    AttributesParams(q, response);
    FinalByteIs(q + s, 2, |q| - 1);
    SliceFirst(q, s, 2, |q| - 1);
    ControlTaken(q + s, |q| - 1, response, colors);
  }

  lemma ControlTaken(s: seq<byte>, final: nat, response: seq<byte>, colors: Colors)
    requires 2 <= final < |s| && s[0] == ESC && s[1] == 0x5b && s[final] == 0x63
    requires FinalByte(s, 2) == Some(final) && AttributesResponse(s[2..final]) == Some(response)
    ensures CutOf(s, colors) == Answer(final + 1, response)
  {
    hide FinalByte, AttributesResponse, Ascii, GraphicsCut, StringCut;
  }

  lemma {:induction false} StringEndIs(s: seq<byte>, i: nat, belEnds: bool, end: nat)
    requires i < end <= |s|
    requires (belEnds && s[end - 1] == BEL) || (i + 2 <= end && EndsCommand(s, end - 2))
    requires var last := if belEnds && s[end - 1] == BEL then end - 1 else end - 2;
             forall k :: i <= k < last ==> !EndsCommand(s, k) && (belEnds ==> s[k] != BEL)
    ensures StringEnd(s, i, belEnds) == Some(end)
    decreases end - i
  {
    var last := if belEnds && s[end - 1] == BEL then end - 1 else end - 2;
    if i < last {
      assert !EndsCommand(s, i);
      StringEndIs(s, i + 1, belEnds, end);
    }
  }

  lemma StringAnswered(q: seq<byte>, response: seq<byte>, s: seq<byte>, colors: Colors)
    requires IsStringQuery(q, response, colors)
    ensures q != [] && q[0] == ESC && CutOf(q + s, colors) == Answer(|q|, response)
  {
    hide AnswersString, StringSequence, CutOf, StringResponse, StringEnd;
    var body: seq<byte>, bel: bool :| q == StringSequence(body, bel) && AnswersString(body, response, colors);
    StringBody(body, response, colors);
    SequenceParts(body, bel);
    var terminator := if bel then [BEL] else [ESC, BACKSLASH];
    StringStands(body, terminator, s, bel);
    Assoc([ESC, 0x5d], body + terminator, s);
    Assoc(body, terminator, s);
    StringTaken(q + s, body, bel, |q|, response, colors);
  }

  lemma SequenceParts(body: seq<byte>, bel: bool)
    ensures StringSequence(body, bel) == [ESC, 0x5d] + (body + (if bel then [BEL] else [ESC, BACKSLASH]))
  {
    assert Ascii("]") == [0x5d];
  }

  lemma StringTaken(s: seq<byte>, body: seq<byte>, bel: bool, end: nat, response: seq<byte>, colors: Colors)
    requires 7 <= end <= |s| && s[0] == ESC && s[1] == 0x5d && StringEnd(s, 2, true) == Some(end)
    requires (s[end - 1] == BEL <==> bel) && end == 2 + |body| + (if bel then 1 else 2) && s[2..2 + |body|] == body
    requires StringResponse(body, colors) == Some(response)
    ensures CutOf(s, colors) == Answer(end, response)
  {
    hide StringEnd, StringResponse, GraphicsCut, ControlCut;
  }

  /** The body and its end within what follows. */
  lemma StringStands(body: seq<byte>, terminator: seq<byte>, s: seq<byte>, bel: bool)
    requires terminator == if bel then [BEL] else [ESC, BACKSLASH]
    requires forall k :: 0 <= k < |body| ==> body[k] != ESC && body[k] != BEL
    ensures var all, end := [ESC, 0x5d] + (body + (terminator + s)), 2 + |body| + |terminator|;
            && StringEnd(all, 2, true) == Some(end) && all[2..2 + |body|] == body
            && (all[end - 1] == BEL <==> bel)
  {
    var all, end := [ESC, 0x5d] + (body + (terminator + s)), 2 + |body| + |terminator|;
    assert forall k :: 2 <= k < 2 + |body| ==> all[k] == body[k - 2];
    assert all[2 + |body|] == terminator[0] && (!bel ==> all[3 + |body|] == BACKSLASH);
    StringEndIs(all, 2, true, end);
  }

  /** The bodies are plain, and short ones at that. */
  lemma StringBody(body: seq<byte>, response: seq<byte>, colors: Colors)
    requires AnswersString(body, response, colors)
    ensures |body| >= 4 && (forall k :: 0 <= k < |body| ==> body[k] != ESC && body[k] != BEL)
    ensures StringResponse(body, colors) == Some(response)
  {
    ColorAnswer("10", colors.foreground);
    ColorAnswer("11", colors.background);
    ColorAnswer("12", colors.cursor);
    hide ColorResponse, Digits;
    assert STATUS_SUPPORT == [ESC] + Ascii("]7501;?") + [ESC, BACKSLASH];
    assert Ascii("10;?") == [0x31, 0x30, 0x3b, 0x3f] && Ascii("11;?") == [0x31, 0x31, 0x3b, 0x3f] && Ascii("12;?") == [0x31, 0x32, 0x3b, 0x3f];
    assert Ascii("7501;?") == [0x37, 0x35, 0x30, 0x31, 0x3b, 0x3f];
    assert "]" + "10" + ";rgb:" == "]10;rgb:" && "]" + "11" + ";rgb:" == "]11;rgb:" && "]" + "12" + ";rgb:" == "]12;rgb:";
    hide Ascii;
  }

  // ---- graphics queries -------------------------------------------------------------------------

  lemma CommandParts(c: Command)
    ensures var q, j := CommandSequence(c), |Join(c.attributes)|;
            && q[..3] == [ESC, 0x5f, 0x47] && |q| == 3 + j + (if c.data.Some? then 1 + |c.data.value| else 0) + 2
            && q[3..3 + j] == Join(c.attributes)
            && q[|q| - 2..] == [ESC, BACKSLASH]
            && (c.data.Some? ==> q[3 + j] == SEMICOLON && q[3..|q| - 2] == Join(c.attributes) + [SEMICOLON] + c.data.value)
            && (c.data.None? ==> q[3..|q| - 2] == Join(c.attributes))
  {
    assert Ascii("_G") == [0x5f, 0x47];
    hide Join;
    var head, tail := Join(c.attributes), if c.data.Some? then [SEMICOLON] + c.data.value else [];
    var q := CommandSequence(c);
    assert q == [ESC, 0x5f, 0x47] + (head + tail) + [ESC, BACKSLASH];
    Empty(head);
    if c.data.Some? {
      Assoc(head, [SEMICOLON], c.data.value);
    }
  }

  lemma {:induction false} JoinHolds(parts: seq<seq<byte>>, i: nat, j: nat)
    requires i < |parts| && j < |parts| && i != j
    ensures |Join(parts)| >= |parts[i]| + |parts[j]| + 1
    decreases |parts|
  {
    if i > 0 && j > 0 {
      JoinHolds(parts[1..], i - 1, j - 1);
    } else {
      JoinHoldsOne(parts[1..], if i == 0 then j - 1 else i - 1);
    }
  }

  lemma {:induction false} JoinHoldsOne(parts: seq<seq<byte>>, i: nat)
    requires i < |parts|
    ensures |Join(parts)| >= |parts[i]|
    decreases |parts|
  {
    if i > 0 {
      JoinHoldsOne(parts[1..], i - 1);
    }
  }

  /** Such a query is long enough, and says a=q in so many words. */
  lemma AsksInWords(c: Command, id: seq<byte>, response: seq<byte>)
    requires AsksFor(c, id, response)
    ensures Ascii("a=q") in c.attributes && |Join(c.attributes)| >= 7
  {
    hide Ascii, Verdict, Join, Says;
    var parts := c.attributes;
    WordBytes(id);
    var i := SaidWhere(parts, Ascii("a"), Ascii("q"));
    var j := SaidWhere(parts, Ascii("i"), id);
    hide AsksFor;
    TwoParts(parts, i, j);
  }

  lemma WordBytes(id: seq<byte>)
    ensures Ascii("q") != [] && Ascii("a") + [EQUALS] + Ascii("q") == Ascii("a=q")
    ensures |Ascii("a=q")| == 3 && Ascii("a=q")[0] == 0x61
    ensures |Ascii("i") + [EQUALS] + id| == 2 + |id| && (Ascii("i") + [EQUALS] + id)[0] == 0x69
  {
    assert Ascii("a=q") == [0x61, 0x3d, 0x71] && Ascii("a") == [0x61] && Ascii("q") == [0x71] && Ascii("i") == [0x69];
  }

  lemma TwoParts(parts: seq<seq<byte>>, i: nat, j: nat)
    requires i < |parts| && j < |parts| && |parts[i]| >= 3 && |parts[j]| >= 3 && parts[i][0] != parts[j][0]
    ensures |Join(parts)| >= 7
  {
    JoinHolds(parts, i, j);
  }

  lemma SaidWhere(parts: seq<seq<byte>>, key: seq<byte>, value: seq<byte>) returns (i: nat)
    requires Says(parts, key, value) && value != []
    ensures i < |parts| && parts[i] == key + [EQUALS] + value
  {
    i :| SaidAt(parts, key, value, i);
  }

  /** What the command's attributes are read from. */
  lemma ControlOf(c: Command)
    requires IsCommand(c)
    ensures var q := CommandSequence(c);
            && |q| >= 5
            && var body := q[3..|q| - 2];
            var separator := IndexOf(body, SEMICOLON);
            (if separator.Some? then body[..separator.value] else body) == Join(c.attributes)
  {
    CommandParts(c);
    hide Join, CommandSequence, Plain;
    var q, head := CommandSequence(c), Join(c.attributes);
    var body := q[3..|q| - 2];
    if c.data.Some? {
      Assoc(head, [SEMICOLON], c.data.value);
      CutFirst(head, [SEMICOLON] + c.data.value, |head|);
      Empty(head);
      IndexOfIs(body, SEMICOLON, |head|);
    } else {
      NotIn(body, SEMICOLON);
    }
  }

  /** The response to a query is the one it asks for. */
  lemma GraphicsAnswer(c: Command, id: seq<byte>, response: seq<byte>)
    requires IsCommand(c) && AsksFor(c, id, response)
    ensures GraphicsResponse(CommandSequence(c)) == Some(response)
  {
    CommandParts(c);
    ControlOf(c);
    AsksInWords(c, id, response);
    HeadPlain(c);
    hide Join, AsksFor, CommandSequence, GraphicsMessage, Attribute, Split, Ascii, IsCommand;
    MessageAsked(c, id, response);
  }

  lemma MessageAsked(c: Command, id: seq<byte>, response: seq<byte>)
    requires AsksFor(c, id, response)
    ensures var parts := c.attributes;
            && Attribute(parts, Ascii("a")) == Ascii("q") && Attribute(parts, Ascii("i")) == id && id != [] && AllDigits(id)
            && response == [ESC] + Ascii("_Gi=") + id + [SEMICOLON] + GraphicsMessage(parts) + [ESC, BACKSLASH]
  {
    hide Says;
    KeysArePlain();
    var parts := c.attributes;
    SaysExactly(parts, Ascii("a"), Ascii("q"));
    SaysExactly(parts, Ascii("i"), id);
    var t: seq<byte>, f: seq<byte>, o: seq<byte> :|
      && Says(c.attributes, Ascii("t"), t) && Says(c.attributes, Ascii("f"), f) && Says(c.attributes, Ascii("o"), o)
      && response == [ESC] + Ascii("_Gi=") + id + [SEMICOLON] + Verdict(t, f, o) + [ESC, BACKSLASH];
    SaysExactly(parts, Ascii("t"), t);
    SaysExactly(parts, Ascii("f"), f);
    SaysExactly(parts, Ascii("o"), o);
    hide Attribute;
    SameVerdict(parts, t, f, o);
    hide Ascii, Verdict, GraphicsMessage;
  }

  lemma SameVerdict(parts: seq<seq<byte>>, t: seq<byte>, f: seq<byte>, o: seq<byte>)
    requires Attribute(parts, Ascii("t")) == t && Attribute(parts, Ascii("f")) == f && Attribute(parts, Ascii("o")) == o
    ensures GraphicsMessage(parts) == Verdict(t, f, o)
  {
    hide Attribute, Ascii;
  }

  /** Where the command ends, whatever follows it. */
  lemma CommandEnds(c: Command, s: seq<byte>)
    requires IsCommand(c)
    ensures StringEnd(CommandSequence(c) + s, 2, false) == Some(|CommandSequence(c)|)
  {
    CommandParts(c);
    hide Join, CommandSequence, Plain;
    var q := CommandSequence(c);
    var all := q + s;
    assert q[|q| - 2..][0] == ESC && q[|q| - 2..][1] == BACKSLASH;
    assert EndsCommand(all, |q| - 2);
    forall k | 2 <= k < |q| - 2 ensures !EndsCommand(all, k) {
      assert !EndsCommand(q, k);
    }
    StringEndIs(all, 2, false, |q|);
  }

  /** A query with data, which has its semicolon. */
  lemma GraphicsAnswered(c: Command, id: seq<byte>, response: seq<byte>, s: seq<byte>)
    requires IsCommand(c) && c.data.Some? && AsksFor(c, id, response)
    ensures var q := CommandSequence(c);
            |q| >= 4 && q[0] == ESC && q[1] == 0x5f && GraphicsCut(q + s) == Answer(|q|, response)
  {
    hide *;
    CommandParts(c);
    CommandEnds(c, s);
    AsksInWords(c, id, response);
    GraphicsAnswer(c, id, response);
    HeadPlain(c);
    var q, head := CommandSequence(c), Join(c.attributes);
    FirstThree(q, s);
    SemicolonAt(q, head, s);
    CutFirst(q, s, |q|);
    Empty(q);
    AnswerCut(q + s, 3 + |head|, |q|, response);
  }

  lemma FirstThree(q: seq<byte>, s: seq<byte>)
    requires |q| >= 4 && q[..3] == [ESC, 0x5f, 0x47]
    ensures q[0] == ESC && q[1] == 0x5f && (q + s)[0] == ESC && (q + s)[1] == 0x5f && (q + s)[2] == 0x47
  {
    assert q[..3][0] == q[0] && q[..3][1] == q[1] && q[..3][2] == q[2];
  }

  /** A command whose attributes ask a=q before its first semicolon is answered. */
  lemma AnswerCut(s: seq<byte>, k: nat, end: nat, response: seq<byte>)
    requires |s| >= 4 && s[0] == ESC && s[1] == 0x5f && s[2] == 0x47 && 3 <= k < |s| && end <= |s|
    requires IndexOf(s, SEMICOLON) == Some(k) && Ascii("a=q") in Split(s[3..k], COMMA)
    requires StringEnd(s, 2, false) == Some(end) && GraphicsResponse(s[..end]) == Some(response)
    ensures GraphicsCut(s) == Answer(end, response)
  {
    hide IndexOf, Split, StringEnd, GraphicsResponse, Ascii;
  }

  /** The first semicolon is the one behind the attributes. */
  lemma SemicolonAt(q: seq<byte>, head: seq<byte>, s: seq<byte>)
    requires |q| >= 4 + |head| && q[..3] == [ESC, 0x5f, 0x47] && q[3..3 + |head|] == head && q[3 + |head|] == SEMICOLON
    requires SEMICOLON !in head
    ensures IndexOf(q + s, SEMICOLON) == Some(3 + |head|) && (q + s)[3..3 + |head|] == head
  {
    var k := 3 + |head|;
    CutFirst(q, s, k);
    assert q[..k] == q[..3] + q[3..k];
    SliceFirst(q, s, 3, k);
    IndexOfIs(q + s, SEMICOLON, k);
    hide IndexOf;
  }

  lemma HeadPlain(c: Command)
    requires IsCommand(c)
    ensures SEMICOLON !in Join(c.attributes) && Split(Join(c.attributes), COMMA) == c.attributes
  {
    SplitJoin(c.attributes);
  }

  /** Every query is answered and taken out, and filtering goes on behind it; a graphics
      query if it has its semicolon. */
  lemma QueryIsAnswered(q: seq<byte>, response: seq<byte>, s: seq<byte>, colors: Colors)
    requires IsQuery(q, response, colors) && (IsGraphicsQuery(q, response) ==> SEMICOLON in q)
    ensures Filter(q + s, colors) == Then([], [Respond(response)], Filter(s, colors))
  {
    hide Filter, Then, CutOf, IsStringQuery, IsAttributesQuery, IsGraphicsQuery, Ascii;
    if IsAttributesQuery(q, response) {
      AttributesShape(q, response);
      AttributesAnswered(q, response, s, colors);
    } else if IsStringQuery(q, response, colors) {
      StringAnswered(q, response, s, colors);
    } else if IsGraphicsQuery(q, response) {
      WithDataAnswered(q, response, s, colors);
    } else {
      IdentityAnswered(s, colors);
      IdentityShape();
    }
    AnswerFirst(q, response, s, colors);
  }

  lemma IdentityShape()
    ensures |[ESC] + Ascii("Z")| == 2
  {}

  lemma AttributesShape(q: seq<byte>, response: seq<byte>)
    requires IsAttributesQuery(q, response)
    ensures |q| >= 3
  {}

  lemma WithDataAnswered(q: seq<byte>, response: seq<byte>, s: seq<byte>, colors: Colors)
    requires IsGraphicsQuery(q, response) && SEMICOLON in q
    ensures q != [] && q[0] == ESC && CutOf(q + s, colors) == Answer(|q|, response)
  {
    hide AsksFor, IsCommand, CommandSequence, GraphicsCut, ControlCut, StringCut;
    var c: Command, id: seq<byte> :| q == CommandSequence(c) && IsCommand(c) && AsksFor(c, id, response);
    if c.data.None? {
      NoSemicolon(c);
    }
    GraphicsAnswered(c, id, response, s);
    var all := q + s;
    assert all[0] == ESC && all[1] == 0x5f;
  }

  lemma NoSemicolon(c: Command)
    requires IsCommand(c) && c.data.None?
    ensures SEMICOLON !in CommandSequence(c)
  {
    CommandParts(c);
    hide CommandSequence, Join;
    var q := CommandSequence(c);
    assert q == q[..3] + q[3..|q| - 2] + q[|q| - 2..];
  }

  /** A graphics query without a semicolon is not told from its surroundings: its attributes
      are taken to go on to the first semicolon of what follows. It is answered exactly if
      there is one, and before it an attribute says a=q; otherwise it is kept while no
      semicolon and no more than 64 bytes have come, and then passed on with all the rest. */
  lemma BareQuery(q: seq<byte>, response: seq<byte>, s: seq<byte>, colors: Colors)
    requires IsGraphicsQuery(q, response) && SEMICOLON !in q
    ensures AsksFirst(q + s) ==> Filter(q + s, colors) == Then([], [Respond(response)], Filter(s, colors))
    ensures !AsksFirst(q + s) && SEMICOLON !in s && |q + s| <= 64 ==> Filter(q + s, colors) == Filtered([], [], q + s)
    ensures !AsksFirst(q + s) && (SEMICOLON in s || |q + s| > 64) ==> Filter(q + s, colors) == Filtered(q + s, [], [])
  {
    hide AsksFor, IsCommand, CommandSequence, AsksFirst, Filter, CutOf, Then;
    var c: Command, id: seq<byte> :| q == CommandSequence(c) && IsCommand(c) && AsksFor(c, id, response);
    var all := q + s;
    BareCut(c, id, response, s, colors);
    FilterUnfold(all, colors);
    IndexOfIs(all, ESC, 0);
    Empty(all);
    CutSecond(q, s, 0);
    Empty(s);
  }

  lemma BareCut(c: Command, id: seq<byte>, response: seq<byte>, s: seq<byte>, colors: Colors)
    requires IsCommand(c) && AsksFor(c, id, response) && SEMICOLON !in CommandSequence(c)
    ensures var q := CommandSequence(c);
            var all := q + s;
            && q != [] && q[0] == ESC
            && CutOf(all, colors) ==
                 (if AsksFirst(all) then Answer(|q|, response)
                  else if SEMICOLON !in s && |all| <= 64 then Hold else PassAll)
  {
    hide *;
    CommandParts(c);
    CommandEnds(c, s);
    AsksInWords(c, id, response);
    GraphicsAnswer(c, id, response);
    var q := CommandSequence(c);
    var all := q + s;
    FirstThree(q, s);
    FirstSemicolon(all);
    CutFirst(q, s, |q|);
    Empty(q);
    SemicolonBehind(q, s);
    CommandCut(all, colors);
    if AsksFirst(all) {
      AnswerCut(all, IndexOf(all, SEMICOLON).value, |q|, response);
    } else {
      UnaskedCut(all);
    }
  }

  lemma CommandCut(s: seq<byte>, colors: Colors)
    requires |s| >= 4 && s[0] == ESC && s[1] == 0x5f
    ensures CutOf(s, colors) == GraphicsCut(s)
  {
    hide GraphicsCut;
  }

  /** One that does not is kept for a short while at most. */
  lemma UnaskedCut(s: seq<byte>)
    requires |s| >= 4 && s[0] == ESC && s[1] == 0x5f && s[2] == 0x47 && !AsksFirst(s)
    ensures GraphicsCut(s) == if IndexOf(s, SEMICOLON).None? && |s| <= 64 then Hold else PassAll
  {
    FirstSemicolon(s);
    hide IndexOf, Split, StringEnd, GraphicsResponse, Ascii, AsksFirst;
  }

  lemma SemicolonBehind(q: seq<byte>, s: seq<byte>)
    requires SEMICOLON !in q
    ensures IndexOf(q + s, SEMICOLON).Some? <==> SEMICOLON in s
  {
    hide IndexOf;
  }

  /** Such a query, followed by 53 bytes without a semicolon, is never answered, though it
      is as good a query as the one with a semicolon. */
  lemma UnansweredQuery(s: seq<byte>, colors: Colors)
    requires SEMICOLON !in s && |s| >= 53
    ensures var q := [ESC] + Ascii("_Ga=q,i=1") + [ESC, BACKSLASH];
            && IsGraphicsQuery(q, [ESC] + Ascii("_Gi=1;OK") + [ESC, BACKSLASH])
            && Filter(q + s, colors) == Filtered(q + s, [], [])
  {
    var q, response := [ESC] + Ascii("_Ga=q,i=1") + [ESC, BACKSLASH], [ESC] + Ascii("_Gi=1;OK") + [ESC, BACKSLASH];
    BareInstance();
    InstanceBytes();
    hide Ascii, IsGraphicsQuery;
    NotAsked(q + s);
    BareQuery(q, response, s, colors);
  }

  lemma InstanceBytes()
    ensures var q := [ESC] + Ascii("_Ga=q,i=1") + [ESC, BACKSLASH];
            SEMICOLON !in q && |q| == 12
  {}

  lemma NotAsked(s: seq<byte>)
    requires SEMICOLON !in s
    ensures !AsksFirst(s)
  {}

  lemma BareInstance()
    ensures IsGraphicsQuery([ESC] + Ascii("_Ga=q,i=1") + [ESC, BACKSLASH], [ESC] + Ascii("_Gi=1;OK") + [ESC, BACKSLASH])
  {
    var c := Command([Ascii("a=q"), Ascii("i=1")], None);
    var id := Ascii("1");
    var q, response := [ESC] + Ascii("_Ga=q,i=1") + [ESC, BACKSLASH], [ESC] + Ascii("_Gi=1;OK") + [ESC, BACKSLASH];
    InstanceSequence(c);
    InstanceAsks(c);
    hide Ascii, AsksFor, IsCommand, CommandSequence;
    assert q == CommandSequence(c) && IsCommand(c) && AsksFor(c, id, response);
  }

  lemma InstanceSequence(c: Command)
    requires c == Command([Ascii("a=q"), Ascii("i=1")], None)
    ensures CommandSequence(c) == [ESC] + Ascii("_Ga=q,i=1") + [ESC, BACKSLASH] && IsCommand(c)
  {
    assert Ascii("a=q") == [0x61, 0x3d, 0x71] && Ascii("i=1") == [0x69, 0x3d, 0x31];
    assert Ascii("_Ga=q,i=1") == Ascii("_G") + [0x61, 0x3d, 0x71, COMMA, 0x69, 0x3d, 0x31] && Ascii("_G") == [0x5f, 0x47];
    hide Ascii;
    assert c.attributes[1..] == [c.attributes[1]];
    assert Join(c.attributes) == [0x61, 0x3d, 0x71, COMMA, 0x69, 0x3d, 0x31];
    var q := CommandSequence(c);
    assert q == [ESC, 0x5f, 0x47, 0x61, 0x3d, 0x71, COMMA, 0x69, 0x3d, 0x31, ESC, BACKSLASH];
  }

  lemma InstanceAsks(c: Command)
    requires c == Command([Ascii("a=q"), Ascii("i=1")], None)
    ensures AsksFor(c, Ascii("1"), [ESC] + Ascii("_Gi=1;OK") + [ESC, BACKSLASH])
  {
    var parts, id := c.attributes, Ascii("1");
    assert Ascii("a") + [EQUALS] + Ascii("q") == Ascii("a=q") && Ascii("i") + [EQUALS] + id == Ascii("i=1") && id == [0x31];
    assert Ascii("a=q")[0] == 0x61 && Ascii("i=1")[0] == 0x69 && Ascii("a")[0] == 0x61;
    assert (Ascii("t") + [EQUALS])[0] == 0x74 && (Ascii("f") + [EQUALS])[0] == 0x66 && (Ascii("o") + [EQUALS])[0] == 0x6f && (Ascii("a") + [EQUALS])[0] == 0x61;
    assert [ESC] + Ascii("_Gi=1;OK") + [ESC, BACKSLASH] == [ESC] + Ascii("_Gi=") + id + [SEMICOLON] + Ascii("OK") + [ESC, BACKSLASH];
    hide Ascii;
    assert parts[1..][0] == parts[1];
    assert SaidAt(parts, Ascii("a"), Ascii("q"), 0) && SaidAt(parts, Ascii("i"), id, 1);
    assert Unsaid(parts, Ascii("t")) && Unsaid(parts, Ascii("f")) && Unsaid(parts, Ascii("o"));
    assert Verdict([], [], []) == Ascii("OK");
  }

  // ---- a query that arrives in parts ------------------------------------------------------------

  /** The beginning of a query is kept until the rest comes, as long as it has no more than
      64 bytes; of a graphics query once its semicolon has come, 4096. So the answer does not
      depend on how the query is cut. */
  lemma BeginningIsKept(q: seq<byte>, response: seq<byte>, k: nat, colors: Colors)
    requires IsQuery(q, response, colors) && 0 < k < |q|
    requires IsGraphicsQuery(q, response) ==> k <= 64 || (SEMICOLON in q[..k] && k <= 4096)
    ensures Filter(q[..k], colors) == Filtered([], [], q[..k])
  {
    hide Filter, IsStringQuery, IsAttributesQuery, IsGraphicsQuery, Unfinished, Ascii;
    if IsAttributesQuery(q, response) {
      AttributesBeginning(q, response, k);
    } else if IsStringQuery(q, response, colors) {
      StringBeginning(q, response, k, colors);
    } else if IsGraphicsQuery(q, response) {
      GraphicsBeginning(q, response, k);
    } else {
      IdentityShape();
      JustEscape(q, k);
    }
    KeptBack(q[..k], colors);
  }

  lemma JustEscape(q: seq<byte>, k: nat)
    requires |q| >= 2 && q[0] == ESC && k == 1
    ensures Unfinished(q[..k])
  {}

  lemma AttributesBeginning(q: seq<byte>, response: seq<byte>, k: nat)
    requires IsAttributesQuery(q, response) && 0 < k < |q|
    ensures Unfinished(q[..k])
  {
    assert Ascii("[c") == [0x5b, 0x63] && Ascii("[0c") == [0x5b, 0x30, 0x63];
    assert Ascii("[>c") == [0x5b, 0x3e, 0x63] && Ascii("[>0c") == [0x5b, 0x3e, 0x30, 0x63];
  }

  lemma StringBeginning(q: seq<byte>, response: seq<byte>, k: nat, colors: Colors)
    requires IsStringQuery(q, response, colors) && 0 < k < |q|
    ensures Unfinished(q[..k])
  {
    hide AnswersString, StringSequence, Unfinished;
    var body: seq<byte>, bel: bool :| q == StringSequence(body, bel) && AnswersString(body, response, colors);
    StringBody(body, response, colors);
    StringShort(body, response, colors);
    SequenceParts(body, bel);
    var terminator := if bel then [BEL] else [ESC, BACKSLASH];
    StringStarts(body, terminator, k);
  }

  lemma StringShort(body: seq<byte>, response: seq<byte>, colors: Colors)
    requires AnswersString(body, response, colors)
    ensures |body| <= 6
  {}

  lemma StringStarts(body: seq<byte>, terminator: seq<byte>, k: nat)
    requires terminator == [BEL] || terminator == [ESC, BACKSLASH]
    requires 0 < k < 2 + |body| + |terminator| && |body| <= 6
    requires forall i :: 0 <= i < |body| ==> body[i] != ESC && body[i] != BEL
    ensures Unfinished(([ESC, 0x5d] + (body + terminator))[..k])
  {
    var q := [ESC, 0x5d] + (body + terminator);
    var p := q[..k];
    assert forall i :: 2 <= i < 2 + |body| ==> q[i] == body[i - 2];
    assert q[2 + |body|] == terminator[0];
    assert p[0] == ESC && (k > 1 ==> p[1] == 0x5d);
  }

  lemma GraphicsBeginning(q: seq<byte>, response: seq<byte>, k: nat)
    requires IsGraphicsQuery(q, response) && 0 < k < |q|
    requires k <= 64 || (SEMICOLON in q[..k] && k <= 4096)
    ensures Unfinished(q[..k])
  {
    hide AsksFor, CommandSequence, Ascii;
    var c: Command, id: seq<byte> :| q == CommandSequence(c) && IsCommand(c) && AsksFor(c, id, response);
    CommandParts(c);
    AsksInWords(c, id, response);
    var p := q[..k];
    assert q[..3][0] == q[0] && q[..3][1] == q[1] && q[..3][2] == q[2];
    hide Join, Plain;
    if k >= 4 && SEMICOLON in p {
      CommandBeginning(c, k);
    }
  }

  lemma CommandBeginning(c: Command, k: nat)
    requires IsCommand(c) && 4 <= k < |CommandSequence(c)| && SEMICOLON in CommandSequence(c)[..k] && Ascii("a=q") in c.attributes
    ensures NoEnd(CommandSequence(c)[..k]) && AsksFirst(CommandSequence(c)[..k])
  {
    CommandParts(c);
    HeadPlain(c);
    if c.data.None? {
      NoSemicolon(c);
    }
    hide Join, CommandSequence, Split, Ascii, Plain;
    var q, head := CommandSequence(c), Join(c.attributes);
    var p := q[..k];
    forall i | 2 <= i < |p| ensures !EndsCommand(p, i) {
      if i < |q| - 2 {
        assert !EndsCommand(q, i);
      }
    }
    var m := 3 + |head|;
    assert q[..m] == q[..3] + q[3..m];
    assert m < k by {
      if k <= m {
        TakeTwice(q, m, k);
      }
    }
    TakeTwice(q, k, m);
    assert p[3..m] == q[3..m];
    assert AsksUpTo(p, m);
  }

  // ---- what a viewer will answer ------------------------------------------------------------------

  lemma PassFirst(q: seq<byte>, effects: seq<Effect>, s: seq<byte>, colors: Colors)
    requires q != [] && q[0] == ESC && CutOf(q + s, colors) == Pass(|q|, effects)
    ensures Filter(q + s, colors) == Then(q, effects, Filter(s, colors))
  {
    hide CutOf, Filter, IndexOf, Then;
    FilterUnfold(q + s, colors);
    IndexOfIs(q + s, ESC, 0);
    Empty(q + s);
    CutSecond(q, s, 0);
    Empty(s);
    CutFirst(q, s, |q|);
    Empty(q);
  }

  /** ESC [5n and ESC [6n are passed on, and their replies expected: ESC [0n, and a report of
      the cursor's position. */
  lemma ReportsAreExpected(s: seq<byte>, colors: Colors)
    ensures Filter([ESC] + Ascii("[5n") + s, colors) == Then([ESC] + Ascii("[5n"), [ExpectReply([ESC] + Ascii("[0n"))], Filter(s, colors))
    ensures Filter([ESC] + Ascii("[6n") + s, colors) == Then([ESC] + Ascii("[6n"), [ExpectCursorReport], Filter(s, colors))
  {
    ReportCut(s, [ESC] + Ascii("[5n"), colors);
    ReportCut(s, [ESC] + Ascii("[6n"), colors);
    assert Ascii("[5n") != Ascii("[6n") by { assert Ascii("[5n")[1] != Ascii("[6n")[1]; }
    hide Ascii, Filter, Then, CutOf;
    PassFirst([ESC] + Ascii("[5n"), [ExpectReply([ESC] + Ascii("[0n"))], s, colors);
    PassFirst([ESC] + Ascii("[6n"), [ExpectCursorReport], s, colors);
  }

  lemma ReportCut(s: seq<byte>, q: seq<byte>, colors: Colors)
    requires q == [ESC] + Ascii("[5n") || q == [ESC] + Ascii("[6n")
    ensures CutOf(q + s, colors) ==
              Pass(|q|, if q == [ESC] + Ascii("[5n") then [ExpectReply([ESC] + Ascii("[0n"))] else [ExpectCursorReport])
  {
    assert Ascii("[5n") == [0x5b, 0x35, 0x6e] && Ascii("[6n") == [0x5b, 0x36, 0x6e];
    hide Ascii, AttributesResponse;
    FinalByteIs(q + s, 2, 3);
    CutFirst(q, s, 4);
    Empty(q);
  }
}
