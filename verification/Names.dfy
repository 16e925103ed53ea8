/** Identifiers and text as the workspace uses them: decimal numbers, numeric ids
    (core/workspace_recovery.go, numericWorkspaceID) and trimmed strings. */
module Names {
  import opened Bytes

  const TAB_PREFIX := "tab-"
  const PANE_PREFIX := "pane-"

  predicate IsDigit(c: char)
  {
    '0' <= c <= '9'
  }

  function DigitChar(d: nat): char
    requires d < 10
  {
    (48 + d) as char
  }

  function Decimal(n: nat): string
  {
    if n < 10 then [DigitChar(n)] else Decimal(n / 10) + [DigitChar(n % 10)]
  }

  /** The value of a non-empty string of digits. */
  function DigitsValue(s: string): Option<nat>
  {
    if s == [] || !IsDigit(s[|s| - 1]) then None
    else
      var d := s[|s| - 1] as int - 48;
      if |s| == 1 then Some(d)
      else
        match DigitsValue(s[..|s| - 1])
        case None => None
        case Some(v) => Some(v * 10 + d)
  }

  /** A decimal integer with an optional sign. */
  function Atoi(s: string): Option<int>
  {
    if s == [] then None
    else if s[0] == '+' || s[0] == '-' then
      match DigitsValue(s[1..])
      case None => None
      case Some(v) => Some(if s[0] == '-' then -(v as int) else v)
    else
      match DigitsValue(s)
      case None => None
      case Some(v) => Some(v as int)
  }

  predicate HasPrefix(s: string, prefix: string)
  {
    |prefix| <= |s| && s[..|prefix|] == prefix
  }

  /** The positive number of an id such as "tab-12". */
  function NumericID(value: string, prefix: string): (r: Option<nat>)
    ensures r.Some? ==> r.value > 0
  {
    if !HasPrefix(value, prefix) then None
    else
      match Atoi(value[|prefix|..])
      case None => None
      case Some(n) => if n > 0 then Some(n) else None
  }

  function TabName(n: nat): string
  {
    TAB_PREFIX + Decimal(n)
  }

  function PaneName(n: nat): string
  {
    PANE_PREFIX + Decimal(n)
  }

  lemma {:induction false} DecimalValue(n: nat)
    ensures Decimal(n) != [] && (forall i :: 0 <= i < |Decimal(n)| ==> IsDigit(Decimal(n)[i]))
    ensures DigitsValue(Decimal(n)) == Some(n)
  {
    if n >= 10 {
      DecimalValue(n / 10);
      var s := Decimal(n);
      assert s[..|s| - 1] == Decimal(n / 10);
    }
  }

  /** The id made from a counter is read back as that counter. */
  lemma NameNumber(prefix: string, n: nat)
    requires n > 0
    ensures NumericID(prefix + Decimal(n), prefix) == Some(n)
  {
    DecimalValue(n);
    var s := prefix + Decimal(n);
    assert s[..|prefix|] == prefix && s[|prefix|..] == Decimal(n);
    assert IsDigit(Decimal(n)[0]);
  }

  // ---- trimming -------------------------------------------------------------------------

  predicate IsSpace(c: char)
  {
    || '\t' <= c <= '\r' || c == ' ' || c == '\U{85}' || c == '\U{A0}' || c == '\U{1680}'
    || '\U{2000}' <= c <= '\U{200A}' || c == '\U{2028}' || c == '\U{2029}' || c == '\U{202F}' || c == '\U{205F}' || c == '\U{3000}'
  }

  function TrimLeft(s: string): string
  {
    if s != [] && IsSpace(s[0]) then TrimLeft(s[1..]) else s
  }

  function TrimRight(s: string): string
  {
    if s != [] && IsSpace(s[|s| - 1]) then TrimRight(s[..|s| - 1]) else s
  }

  function TrimSpace(s: string): string
  {
    TrimRight(TrimLeft(s))
  }

  predicate Trimmed(s: string)
  {
    s == [] || (!IsSpace(s[0]) && !IsSpace(s[|s| - 1]))
  }

  lemma TrimNothing(s: string)
    requires Trimmed(s)
    ensures TrimSpace(s) == s
  {}

  lemma {:induction false} TrimLeftSpec(s: string)
    ensures TrimLeft(s) == [] || !IsSpace(TrimLeft(s)[0])
    ensures |TrimLeft(s)| <= |s| && s[|s| - |TrimLeft(s)|..] == TrimLeft(s)
  {
    if s != [] && IsSpace(s[0]) {
      TrimLeftSpec(s[1..]);
    }
  }

  lemma {:induction false} TrimRightSpec(s: string)
    ensures TrimRight(s) == [] || !IsSpace(TrimRight(s)[|TrimRight(s)| - 1])
    ensures |TrimRight(s)| <= |s| && s[..|TrimRight(s)|] == TrimRight(s)
  {
    if s != [] && IsSpace(s[|s| - 1]) {
      TrimRightSpec(s[..|s| - 1]);
    }
  }

  lemma TrimIsTrimmed(s: string)
    ensures Trimmed(TrimSpace(s)) && |TrimSpace(s)| <= |s|
  {
    TrimLeftSpec(s);
    TrimRightSpec(TrimLeft(s));
    var t := TrimSpace(s);
    if t != [] {
      assert t[0] == TrimLeft(s)[0];
    }
  }

  predicate AllSpace(s: string)
  {
    forall i :: 0 <= i < |s| ==> IsSpace(s[i])
  }

  lemma {:induction false} LeftTrimmed(s: string)
    ensures |TrimLeft(s)| <= |s| && AllSpace(s[..|s| - |TrimLeft(s)|])
  {
    TrimLeftSpec(s);
    if s != [] && IsSpace(s[0]) {
      TrimLeftSpec(s[1..]);
      LeftTrimmed(s[1..]);
      var rest := s[1..];
      var n := |s| - |TrimLeft(s)|;
      assert forall i :: 1 <= i < n ==> s[..n][i] == rest[..n - 1][i - 1];
    }
  }

  lemma {:induction false} RightTrimmed(s: string)
    ensures |TrimRight(s)| <= |s| && AllSpace(s[|TrimRight(s)|..])
  {
    TrimRightSpec(s);
    if s != [] && IsSpace(s[|s| - 1]) {
      var front := s[..|s| - 1];
      TrimRightSpec(front);
      RightTrimmed(front);
      var n := |TrimRight(s)|;
      assert forall i :: 0 <= i < |front| - n ==> s[n..][i] == front[n..][i];
    }
  }

  /** Trimming takes away exactly the white space at both ends. */
  lemma TrimSpec(s: string) returns (before: string, after: string)
    ensures s == before + TrimSpace(s) + after && AllSpace(before) && AllSpace(after) && Trimmed(TrimSpace(s))
  {
    TrimIsTrimmed(s);
    LeftTrimmed(s);
    RightTrimmed(TrimLeft(s));
    TrimLeftSpec(s);
    TrimRightSpec(TrimLeft(s));
    var t := TrimLeft(s);
    before, after := s[..|s| - |t|], t[|TrimSpace(s)|..];
    SplitAt(s, |s| - |t|);
    SplitAt(t, |TrimSpace(s)|);
    Assoc(before, TrimSpace(s), after);
  }

  lemma DigitsLast(s: string)
    requires DigitsValue(s).Some?
    ensures s != [] && IsDigit(s[|s| - 1])
  {}

  /** A numeric id has nothing to trim. */
  lemma NumericTrimmed(id: string, prefix: string)
    requires NumericID(id, prefix).Some? && prefix != [] && !IsSpace(prefix[0])
    ensures id != "" && Trimmed(id) && TrimSpace(id) == id
  {
    var s := id[|prefix|..];
    DigitsLast(if s[0] == '+' || s[0] == '-' then s[1..] else s);
    assert id[0] == id[..|prefix|][0];
    assert id[|id| - 1] == s[|s| - 1];
  }
}
