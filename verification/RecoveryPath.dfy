/** The working directory kept for recovery (core/workspace_recovery.go,
    NormalizeRecoveryCWD), on a platform whose absolute paths start with '/'. */
module RecoveryPath {
  import opened Bytes
  import opened Names

  const MAX_PATH_BYTES: nat := 4096

  /** The number of bytes of a string's encoding (section 3 of RFC 3629). */
  function ByteLen(s: string): nat
  {
    if s == [] then 0
    else CharLen(s[0]) + ByteLen(s[1..])
  }

  function CharLen(c: char): (n: nat)
    ensures n > 0
  {
    if c < '\U{80}' then 1 else if c < '\U{800}' then 2 else if c < '\U{10000}' then 3 else 4
  }

  // ---- cleaning a path --------------------------------------------------------------------

  /** The parts between slashes. */
  function Components(s: string): (cs: seq<string>)
    ensures cs != []
  {
    if s == [] then [""]
    else
      var rest := Components(s[1..]);
      if s[0] == '/' then [""] + rest else [[s[0]] + rest[0]] + rest[1..]
  }

  function Join(cs: seq<string>): string
  {
    if cs == [] then "" else if |cs| == 1 then cs[0] else cs[0] + "/" + Join(cs[1..])
  }

  function PushComponent(stack: seq<string>, c: string): seq<string>
  {
    if c == "" || c == "." then stack
    else if c == ".." then (if stack == [] then [] else stack[..|stack| - 1])
    else stack + [c]
  }

  function Resolve(cs: seq<string>): seq<string>
  {
    if cs == [] then [] else PushComponent(Resolve(cs[..|cs| - 1]), cs[|cs| - 1])
  }

  predicate IsAbs(s: string)
  {
    s != [] && s[0] == '/'
  }

  /** The shortest equivalent of an absolute path. */
  function Clean(s: string): string
  {
    "/" + Join(Resolve(Components(s)))
  }

  predicate IsLetter(c: char)
  {
    'A' <= c <= 'Z' || 'a' <= c <= 'z'
  }

  /** A path native to another platform. */
  predicate IsForeign(s: string)
  {
    || (|s| >= 3 && IsLetter(s[0]) && s[1] == ':' && (s[2] == '\\' || s[2] == '/'))
    || (|s| >= 2 && s[0] == '\\' && s[1] == '\\')
  }

  function NormalizeCWD(value: string): string
  {
    var v := TrimSpace(value);
    if v == "" || ByteLen(v) > MAX_PATH_BYTES || '\0' in v then ""
    else if !IsAbs(v) then (if IsForeign(v) then v else "")
    else Clean(v)
  }

  // ---- a cleaned path is clean ------------------------------------------------------------

  /** A part that stays as it is. */
  predicate Plain(c: string)
  {
    c != "" && c != "." && c != ".." && '/' !in c
  }

  predicate AllPlain(cs: seq<string>)
  {
    forall i :: 0 <= i < |cs| ==> Plain(cs[i])
  }

  lemma {:induction false} ComponentsHaveNoSlash(s: string)
    ensures forall i :: 0 <= i < |Components(s)| ==> '/' !in Components(s)[i]
  {
    if s != [] {
      ComponentsHaveNoSlash(s[1..]);
    }
  }

  lemma {:induction false} ResolvePlain(cs: seq<string>)
    requires forall i :: 0 <= i < |cs| ==> '/' !in cs[i]
    ensures AllPlain(Resolve(cs))
  {
    if cs != [] {
      ResolvePlain(cs[..|cs| - 1]);
    }
  }

  lemma {:induction false} ResolveKeepsPlain(cs: seq<string>)
    requires AllPlain(cs)
    ensures Resolve(cs) == cs
  {
    if cs != [] {
      var front, c := cs[..|cs| - 1], cs[|cs| - 1];
      assert Plain(c) && AllPlain(front);
      hide Plain, AllPlain;
      ResolveKeepsPlain(front);
      PushPlain(front, c);
      assert front + [c] == cs;
    }
  }

  lemma PushPlain(stack: seq<string>, c: string)
    requires Plain(c)
    ensures PushComponent(stack, c) == stack + [c]
  {}

  lemma {:induction false} OneComponent(c: string)
    requires '/' !in c
    ensures Components(c) == [c]
  {
    if c != [] {
      OneComponent(c[1..]);
      assert [c[0]] + c[1..] == c;
    }
  }

  lemma {:induction false} FirstComponent(c: string, rest: string)
    requires '/' !in c
    ensures Components(c + "/" + rest) == [c] + Components(rest)
  {
    var s := c + "/" + rest;
    if c == [] {
      assert s[1..] == rest;
    } else {
      FirstComponent(c[1..], rest);
      assert s[1..] == c[1..] + "/" + rest;
      assert [c[0]] + c[1..] == c;
    }
  }

  lemma {:induction false} JoinedComponents(cs: seq<string>)
    requires cs != [] && AllPlain(cs)
    ensures Components(Join(cs)) == cs
  {
    assert Plain(cs[0]);
    if |cs| == 1 {
      OneComponent(cs[0]);
    } else {
      assert AllPlain(cs[1..]);
      JoinedComponents(cs[1..]);
      FirstComponent(cs[0], Join(cs[1..]));
      assert [cs[0]] + cs[1..] == cs;
    }
  }

  lemma {:induction false} ResolveSkipsEmpty(cs: seq<string>)
    ensures Resolve([""] + cs) == Resolve(cs)
    decreases |cs|
  {
    if cs == [] {
      assert [""] + cs == [""] && [""][..0] == [];
      assert Resolve([""]) == PushComponent(Resolve([]), "");
    } else {
      ResolveSkipsEmpty(cs[..|cs| - 1]);
      var all := [""] + cs;
      assert all[..|all| - 1] == [""] + cs[..|cs| - 1];
    }
  }

  /** Cleaning twice is cleaning once. */
  lemma CleanIsClean(s: string)
    ensures Clean(Clean(s)) == Clean(s)
  {
    ComponentsHaveNoSlash(s);
    ResolvePlain(Components(s));
    var stack := Resolve(Components(s));
    assert Clean(s)[1..] == Join(stack);
    hide Join;
    if stack == [] {
      EmptyJoin();
    } else {
      JoinedComponents(stack);
      ResolveKeepsPlain(stack);
    }
    ResolveSkipsEmpty(Components(Join(stack)));
  }

  lemma EmptyJoin()
    ensures Join([]) == "" && Components("") == [""] && Resolve([""]) == [] && Resolve([]) == []
  {
    assert [""][..0] == [];
    assert Resolve([""]) == PushComponent(Resolve([]), "");
  }

  // ---- cleaning does not lengthen ---------------------------------------------------------

  function Total(cs: seq<string>): nat
  {
    if cs == [] then 0 else Total(cs[..|cs| - 1]) + ByteLen(cs[|cs| - 1]) + 1
  }

  lemma {:induction false} ByteLenAppend(a: string, b: string)
    ensures ByteLen(a + b) == ByteLen(a) + ByteLen(b)
  {
    if a == [] {
      assert a + b == b;
    } else {
      ByteLenAppend(a[1..], b);
      assert (a + b)[1..] == a[1..] + b;
    }
  }

  lemma {:induction false} TotalAppend(a: seq<string>, b: seq<string>)
    ensures Total(a + b) == Total(a) + Total(b)
    decreases |b|
  {
    if b == [] {
      assert a + b == a;
    } else {
      TotalAppend(a, b[..|b| - 1]);
      assert (a + b)[..|a + b| - 1] == a + b[..|b| - 1];
    }
  }

  lemma TotalOne(c: string)
    ensures Total([c]) == ByteLen(c) + 1
  {
    assert [c][..0] == [];
    assert Total([c]) == Total([]) + ByteLen(c) + 1;
  }

  lemma {:induction false} ComponentsTotal(s: string)
    ensures Total(Components(s)) == ByteLen(s) + 1
  {
    if s == [] {
      TotalOne("");
    } else {
      var rest := Components(s[1..]);
      ComponentsTotal(s[1..]);
      if s[0] == '/' {
        TotalOne("");
        TotalAppend([""], rest);
      } else {
        TotalOne(rest[0]);
        TotalOne([s[0]] + rest[0]);
        TotalAppend([rest[0]], rest[1..]);
        TotalAppend([[s[0]] + rest[0]], rest[1..]);
        assert [rest[0]] + rest[1..] == rest;
        ByteLenAppend([s[0]], rest[0]);
        assert [s[0]][1..] == [];
      }
    }
  }

  lemma {:induction false} ResolveTotal(cs: seq<string>)
    ensures Total(Resolve(cs)) <= Total(cs)
  {
    if cs != [] {
      var front, c := cs[..|cs| - 1], cs[|cs| - 1];
      ResolveTotal(front);
      var stack := Resolve(front);
      TotalAppend(stack, [c]);
      TotalOne(c);
    }
  }

  lemma {:induction false} JoinLen(cs: seq<string>)
    requires cs != []
    ensures ByteLen(Join(cs)) + 1 == Total(cs)
  {
    TotalOne(cs[0]);
    if |cs| == 1 {
      assert cs == [cs[0]];
    } else {
      JoinLen(cs[1..]);
      TotalAppend([cs[0]], cs[1..]);
      assert [cs[0]] + cs[1..] == cs;
      ByteLenAppend(cs[0] + "/", Join(cs[1..]));
      ByteLenAppend(cs[0], "/");
      assert "/"[1..] == [];
    }
  }

  lemma CleanShorter(s: string)
    requires IsAbs(s)
    ensures ByteLen(Clean(s)) <= ByteLen(s)
  {
    var rest := Components(s[1..]);
    ComponentsTotal(s[1..]);
    ResolveSkipsEmpty(rest);
    ResolveTotal(rest);
    var stack := Resolve(rest);
    ByteLenAppend("/", Join(stack));
    assert "/"[1..] == [];
    if stack == [] { EmptyJoin(); } else { JoinLen(stack); }
    assert ByteLen(s) == 1 + ByteLen(s[1..]);
  }

  // ---- and adds no character but slashes --------------------------------------------------

  predicate Lacks(cs: seq<string>, c: char)
  {
    forall i :: 0 <= i < |cs| ==> c !in cs[i]
  }

  lemma {:induction false} ComponentsLack(s: string, c: char)
    requires c !in s
    ensures Lacks(Components(s), c)
  {
    if s != [] {
      ComponentsLack(s[1..], c);
    }
  }

  lemma {:induction false} ResolveLacks(cs: seq<string>, c: char)
    requires Lacks(cs, c)
    ensures Lacks(Resolve(cs), c)
  {
    if cs != [] {
      ResolveLacks(cs[..|cs| - 1], c);
    }
  }

  lemma {:induction false} JoinLacks(cs: seq<string>, c: char)
    requires Lacks(cs, c) && c != '/'
    ensures c !in Join(cs)
  {
    if |cs| > 1 {
      assert Lacks(cs[1..], c);
      JoinLacks(cs[1..], c);
    }
  }

  lemma CleanHasNoNul(s: string)
    requires '\0' !in s
    ensures '\0' !in Clean(s)
  {
    ComponentsLack(s, '\0');
    ResolveLacks(Components(s), '\0');
    JoinLacks(Resolve(Components(s)), '\0');
  }

  // ---- when normalising twice is normalising once -----------------------------------------

  predicate EndsInSpace(s: string)
  {
    s != [] && IsSpace(s[|s| - 1])
  }

  lemma {:induction false} ByteLenPrefix(p: string, s: string)
    requires IsPrefix(p, s) && |p| < |s|
    ensures ByteLen(p) < ByteLen(s)
  {
    assert s == p + s[|p|..];
    ByteLenAppend(p, s[|p|..]);
    assert ByteLen(s[|p|..]) > 0;
  }

  /** An absolute path whose last part, once "." and ".." are resolved, ends in white
      space; trimming took nothing from it, so something came after that part. */
  predicate LastPartEndsInSpace(value: string)
  {
    var v := TrimSpace(value);
    && IsAbs(v) && ByteLen(v) <= MAX_PATH_BYTES && '\0' !in v
    && var parts := Resolve(Components(v));
    parts != [] && EndsInSpace(parts[|parts| - 1])
  }

  lemma {:induction false} JoinEnds(cs: seq<string>)
    requires AllPlain(cs) && cs != []
    ensures Join(cs) != [] && (EndsInSpace(Join(cs)) <==> EndsInSpace(cs[|cs| - 1]))
  {
    assert Plain(cs[|cs| - 1]);
    if |cs| > 1 {
      assert forall i :: 0 <= i < |cs[1..]| ==> cs[1..][i] == cs[i + 1];
      JoinEnds(cs[1..]);
    }
  }

  lemma CleanEnds(v: string)
    ensures EndsInSpace(Clean(v)) <==> Resolve(Components(v)) != [] && EndsInSpace(Resolve(Components(v))[|Resolve(Components(v))| - 1])
  {
    ComponentsHaveNoSlash(v);
    ResolvePlain(Components(v));
    var parts := Resolve(Components(v));
    hide Join;
    if parts == [] {
      EmptyJoin();
    } else {
      JoinEnds(parts);
    }
  }

  lemma NormalEnds(value: string)
    ensures EndsInSpace(NormalizeCWD(value)) <==> LastPartEndsInSpace(value)
  {
    var v := TrimSpace(value);
    TrimIsTrimmed(value);
    CleanEnds(v);
    hide Clean, ByteLen, TrimSpace, Resolve, Components;
  }

  /** Normalising a directory twice is normalising it once exactly if the last part of
      the path does not end in white space: cleaning a path such as "/x /." takes away
      what kept that white space from being trimmed. */
  lemma NormalTwice(value: string)
    ensures NormalizeCWD(NormalizeCWD(value)) == NormalizeCWD(value) <==> !LastPartEndsInSpace(value)
  {
    hide NormalizeCWD, LastPartEndsInSpace;
    NormalOnce(value);
    NormalEnds(value);
  }

  lemma NormalOnce(value: string)
    ensures NormalizeCWD(NormalizeCWD(value)) == NormalizeCWD(value) <==> !EndsInSpace(NormalizeCWD(value))
  {
    var v := TrimSpace(value);
    TrimIsTrimmed(value);
    var n := NormalizeCWD(value);
    if n == "" {
      TrimNothing("");
    } else if !IsAbs(v) {
      TrimNothing(v);
    } else {
      CleanShorter(v);
      CleanHasNoNul(v);
      CleanIsClean(v);
      hide Clean, ByteLen, TrimSpace;
      CleanTwice(v);
    }
  }

  lemma CleanTwice(v: string)
    requires IsAbs(v) && ByteLen(Clean(v)) <= MAX_PATH_BYTES && '\0' !in Clean(v) && Clean(Clean(v)) == Clean(v)
    ensures NormalizeCWD(Clean(v)) == Clean(v) <==> !EndsInSpace(Clean(v))
  {
    var n := Clean(v);
    hide Resolve, Components, Join, ByteLen;
    assert n[0] == '/';
    if EndsInSpace(n) {
      var t := TrimSpace(n);
      assert TrimLeft(n) == n;
      TrimRightSpec(n);
      assert t != n;
      ByteLenPrefix(t, n);
      if IsAbs(t) { CleanShorter(t); }
    } else {
      TrimNothing(n);
    }
  }

  /** A path that is clean and fails: a directory whose name is a space, in one whose
      name ends with a space. */
  lemma TrailingSpaceSurvives()
    ensures Clean("/x / ") == "/x / " && NormalizeCWD("/x / ") == "/x " && LastPartEndsInSpace("/x / ")
  {
    hide TrimSpace, Resolve, Components;
    PartsOf("x ", " ");
    PartsOf("x ", "");
    assert "/" + "x " + "/" + " " == "/x / " && "/" + "x " + "/" + "" == "/x /";
    assert Join(["x ", " "]) == "x " + "/" + Join(["x ", " "][1..]) && ["x ", " "][1..] == [" "];
    assert "/" + ("x " + "/" + " ") == "/x / " && "/" + "x " == "/x ";
    TrimExample();
    ByteLenSmall("/x /");
  }

  lemma TrimExample()
    ensures TrimSpace("/x / ") == "/x /"
  {
    var path, p := "/x / ", "/x /";
    assert TrimLeft(path) == path && path[..4] == p && TrimRight(path) == TrimRight(p) == p;
  }

  lemma PartsOf(a: string, b: string)
    requires Plain(a) && (b == "" || Plain(b))
    ensures Resolve(Components("/" + a + "/" + b)) == if b == "" then [a] else [a, b]
  {
    hide Resolve, Components;
    var s := "/" + a + "/" + b;
    assert s == "" + "/" + (a + "/" + b);
    FirstComponent("", a + "/" + b);
    FirstComponent(a, b);
    OneComponent(b);
    assert [""] + ([a] + [b]) == ["", a, b];
    TwoParts(a, b);
  }

  lemma TwoParts(a: string, b: string)
    requires Plain(a) && (b == "" || Plain(b))
    ensures Resolve(["", a, b]) == if b == "" then [a] else [a, b]
  {
    EmptyJoin();
    var cs := ["", a, b];
    assert cs[..2] == ["", a] && cs[..2][..1] == [""] && [""][..0] == [];
    assert Resolve([""]) == PushComponent(Resolve([]), "");
    assert Resolve(["", a]) == PushComponent(Resolve([""]), a);
    assert Resolve(cs) == PushComponent(Resolve(["", a]), b);
  }

  lemma ByteLenSmall(p: string)
    requires |p| == 4
    ensures ByteLen(p) <= 16
  {
    assert ByteLen(p[1..][1..][1..][1..]) == 0;
    assert ByteLen(p[1..][1..][1..]) <= 4 && ByteLen(p[1..][1..]) <= 8 && ByteLen(p[1..]) <= 12;
  }

  /** A normalised directory has nothing to trim in front. */
  lemma NormalTrims(value: string)
    requires !LastPartEndsInSpace(value)
    ensures TrimSpace(NormalizeCWD(value)) == NormalizeCWD(value)
  {
    var v, n := TrimSpace(value), NormalizeCWD(value);
    NormalEnds(value);
    TrimIsTrimmed(value);
    hide LastPartEndsInSpace, ByteLen, TrimSpace, Clean;
    CleanStarts(v);
    TrimNothing(n);
  }

  lemma CleanStarts(v: string)
    ensures Clean(v) != "" && Clean(v)[0] == '/'
  {}

  // ---- what a cleaned path is ---------------------------------------------------------------

  lemma {:induction false} LastComponent(p: string, c: string)
    requires '/' !in c
    ensures Components(p + "/" + c) == Components(p) + [c]
    decreases |p|
  {
    if p == [] {
      FirstComponent([], c);
      OneComponent(c);
      assert p + "/" + c == [] + "/" + c && Components(p) == [""];
    } else {
      var rest := Components(p[1..]);
      LastComponent(p[1..], c);
      assert (p + "/" + c)[1..] == p[1..] + "/" + c;
      assert (rest + [c])[1..] == rest[1..] + [c];
      if p[0] == '/' {
        Assoc([""], rest, [c]);
      } else {
        Assoc([[p[0]] + rest[0]], rest[1..], [c]);
      }
    }
  }

  lemma ResolveLast(cs: seq<string>, c: string)
    ensures Resolve(cs + [c]) == PushComponent(Resolve(cs), c)
  {
    Snoc(cs, c);
  }

  lemma {:induction false} JoinSnoc(cs: seq<string>, c: string)
    ensures Join(cs + [c]) == if cs == [] then c else Join(cs) + "/" + c
    decreases |cs|
  {
    if cs == [] {
      assert cs + [c] == [c];
    } else if |cs| == 1 {
      assert (cs + [c])[1..] == [c];
    } else {
      JoinSnoc(cs[1..], c);
      assert (cs + [c])[1..] == cs[1..] + [c];
      assert cs[0] + "/" + (Join(cs[1..]) + "/" + c) == cs[0] + "/" + Join(cs[1..]) + "/" + c;
    }
  }

  lemma {:induction false} RootIsEmpty(cs: seq<string>)
    requires AllPlain(cs)
    ensures Join(cs) == "" <==> cs == []
  {
    if cs != [] {
      assert Plain(cs[0]);
    }
  }

  /** Part by part, from the empty path before the first slash on, these rules say what any
      absolute path is cleaned to: empty parts and "." do not matter, a part goes behind what is before it, ".." takes it away again, and at the
      root there is nothing to take away. */
  lemma CleanRules(p: string, c: string)
    ensures Clean("") == "/"
    ensures Clean(p + "/") == Clean(p) && Clean(p + "/.") == Clean(p)
    ensures Clean(p) == "/" ==> Clean(p + "/..") == "/"
    ensures Plain(c) ==>
              && Clean(p + "/" + c) == (if Clean(p) == "/" then "/" + c else Clean(p) + "/" + c)
              && Clean(p + "/" + c + "/..") == Clean(p)
  {
    EmptyJoin();
    var stack := Resolve(Components(p));
    ComponentsHaveNoSlash(p);
    ResolvePlain(Components(p));
    RootIsEmpty(stack);
    LastComponent(p, "");
    ResolveLast(Components(p), "");
    assert p + "/" + "" == p + "/";
    LastComponent(p, ".");
    ResolveLast(Components(p), ".");
    assert p + "/" + "." == p + "/.";
    LastComponent(p, "..");
    ResolveLast(Components(p), "..");
    assert p + "/" + ".." == p + "/..";
    if Plain(c) {
      PartGoesBehind(p, c);
      PartTakenAway(p, c);
    }
  }

  lemma PartGoesBehind(p: string, c: string)
    requires Plain(c)
    ensures Resolve(Components(p + "/" + c)) == Resolve(Components(p)) + [c]
    ensures Clean(p + "/" + c) == (if Clean(p) == "/" then "/" + c else Clean(p) + "/" + c)
  {
    var stack := Resolve(Components(p));
    ComponentsHaveNoSlash(p);
    ResolvePlain(Components(p));
    RootIsEmpty(stack);
    LastComponent(p, c);
    ResolveLast(Components(p), c);
    JoinSnoc(stack, c);
    hide Join, Resolve, Components;
    assert "/" + (Join(stack) + "/" + c) == "/" + Join(stack) + "/" + c;
  }

  lemma PartTakenAway(p: string, c: string)
    requires Plain(c)
    ensures Clean(p + "/" + c + "/..") == Clean(p)
  {
    var stack := Resolve(Components(p));
    PartGoesBehind(p, c);
    LastComponent(p + "/" + c, "..");
    ResolveLast(Components(p + "/" + c), "..");
    assert p + "/" + c + "/" + ".." == p + "/" + c + "/..";
    Snoc(stack, c);
  }

  /** What is kept of a directory: a path of this platform cleaned, one of another platform
      as it is, and nothing of any other text, nor of one that is empty, longer than 4096
      bytes, or holds a zero character. */
  lemma NormalExactly(value: string)
    ensures var v, z := TrimSpace(value), NormalizeCWD(value);
            var usable := v != "" && ByteLen(v) <= 4096 && '\0' !in v;
            var foreign := (|v| >= 3 && ('A' <= v[0] <= 'Z' || 'a' <= v[0] <= 'z') && v[1] == ':' && (v[2] == '\\' || v[2] == '/'))
                           || (|v| >= 2 && v[..2] == ['\\', '\\']);
            && (usable && v[0] == '/' ==> z == Clean(v))
            && (usable && v[0] != '/' && foreign ==> z == v)
            && (!usable || (v[0] != '/' && !foreign) ==> z == "")
  {
    hide Clean, TrimSpace, ByteLen;
  }
}
