/** Route keys: a registered path with its placeholder names blanked out. Paths with the same key
    have the same shape, so one registration can serve both. */
module Normalize {
  import opened Text
  import opened Template
  import opened Routing

  /** The text up to the first brace. */
  function UpToBrace(s: string): (r: string)
    ensures r <= s && BraceFree(r)
    ensures |r| < |s| ==> s[|r|] == '{' || s[|r|] == '}'
  {
    if s == "" || s[0] == '{' || s[0] == '}' then "" else [s[0]] + UpToBrace(s[1..])
  }

  /** The length of the match of \{[^{}]+} at the start of `s`, or 0. */
  function MatchLength(s: string): (n: nat)
    ensures n <= |s| && (n > 0 ==> n >= 3)
  {
    if s == "" || s[0] != '{' then 0
    else
      var inner := UpToBrace(s[1..]);
      if inner != "" && |inner| + 1 < |s| && s[|inner| + 1] == '}' then |inner| + 2 else 0
  }

  /** ReplaceAllStringFunc: every match becomes "{_}" or "{_...}". */
  function NormalizePath(s: string): string
    decreases |s|
  {
    var n := MatchLength(s);
    if s == "" then ""
    else if n == 0 then [s[0]] + NormalizePath(s[1..])
    else (if HasSuffix(s[..n], "...}") then "{_...}" else "{_}") + NormalizePath(s[n..])
  }

  function Blank(t: Token): Token { if t.Var? then Var(Hole("_", t.hole.rest)) else t }

  function BlankAll(ts: seq<Token>): (r: seq<Token>)
    ensures |r| == |ts| && forall i | 0 <= i < |ts| :: r[i] == Blank(ts[i])
  {
    if ts == [] then [] else [Blank(ts[0])] + BlankAll(ts[1..])
  }

  lemma {:induction false} UpToBraceOfSum(a: string, b: string)
    requires BraceFree(a)
    ensures UpToBrace(a + ['}'] + b) == a
  {
    if a == "" {
      assert a + ['}'] + b == ['}'] + b;
    } else {
      assert a[0] in a && forall c | c in a[1..] :: c in a;
      UpToBraceOfSum(a[1..], b);
      assert (a + ['}'] + b)[1..] == a[1..] + ['}'] + b;
    }
  }

  lemma {:induction false} InnerIsBraceFree(h: Hole)
    requires PlainName(h.name)
    ensures BraceFree(Inner(h)) && Inner(h) != ""
  {
  }

  lemma {:induction false} NormalizeHole(h: Hole, rest: string)
    requires PlainName(h.name)
    ensures NormalizePath(Placeholder(h) + rest) == Placeholder(Hole("_", h.rest)) + NormalizePath(rest)
  {
    var s := Placeholder(h) + rest;
    assert s[1..] == Inner(h) + ['}'] + rest;
    InnerIsBraceFree(h);
    UpToBraceOfSum(Inner(h), rest);
    var n := |Placeholder(h)|;
    assert s[|Inner(h)| + 1] == '}' && MatchLength(s) == n;
    assert s[..n] == Placeholder(h) && s[n..] == rest;
    PlaceholderSuffix(h);
    assert Placeholder(Hole("_", true)) == "{_...}" && Placeholder(Hole("_", false)) == "{_}";
  }

  /** On the paths the plugin builds, normalising the string blanks the placeholders' names. */
  lemma {:induction false} NormalizeBlanks(ts: seq<Token>)
    requires Plain(ts)
    ensures NormalizePath(Show(ts)) == Show(BlankAll(ts))
  {
    if ts != [] {
      assert ts[0] in ts && forall t | t in ts[1..] :: t in ts;
      assert PlainToken(ts[0]);
      NormalizeBlanks(ts[1..]);
      assert BlankAll(ts)[1..] == BlankAll(ts[1..]);
      if ts[0].Var? {
        NormalizeHole(ts[0].hole, Show(ts[1..]));
      } else {
        assert Show(ts)[1..] == Show(ts[1..]);
      }
    }
  }

  // ---- the string determines the tokens ----

  lemma {:induction false} SamePlaceholder(g: Hole, h: Hole, a: string, b: string)
    requires PlainName(g.name) && PlainName(h.name) && Placeholder(g) + a == Placeholder(h) + b
    ensures g == h && a == b
  {
    var s := Placeholder(g) + a;
    assert s[1..] == Inner(g) + ['}'] + a;
    assert s[1..] == Inner(h) + ['}'] + b;
    InnerIsBraceFree(g);
    InnerIsBraceFree(h);
    UpToBraceOfSum(Inner(g), a);
    UpToBraceOfSum(Inner(h), b);
    SameInner(g, h);
    assert s[|Placeholder(g)|..] == a && s[|Placeholder(h)|..] == b;
  }

  lemma {:induction false} ShowIsInjective(a: seq<Token>, b: seq<Token>)
    requires Plain(a) && Plain(b) && Show(a) == Show(b)
    ensures a == b
  {
    if a != [] && b != [] {
      assert a[0] in a && b[0] in b && PlainToken(a[0]) && PlainToken(b[0]);
      assert (forall t | t in a[1..] :: t in a) && forall t | t in b[1..] :: t in b;
      SameFirst(a[0], b[0], Show(a[1..]), Show(b[1..]));
      ShowIsInjective(a[1..], b[1..]);
      assert a == [a[0]] + a[1..] && b == [b[0]] + b[1..];
    }
  }

  lemma {:induction false} SameFirst(s: Token, t: Token, a: string, b: string)
    requires PlainToken(s) && PlainToken(t) && ShowToken(s) + a == ShowToken(t) + b
    ensures s == t && a == b
  {
    assert (ShowToken(s) + a)[0] == ShowToken(s)[0] && (ShowToken(t) + b)[0] == ShowToken(t)[0];
    if s.Var? {
      SamePlaceholder(s.hole, t.hole, a, b);
    } else {
      assert (ShowToken(s) + a)[1..] == a && (ShowToken(t) + b)[1..] == b;
    }
  }

  lemma {:induction false} BlankIsPlain(ts: seq<Token>)
    requires Plain(ts)
    ensures Plain(BlankAll(ts))
  {
    forall t | t in BlankAll(ts)
      ensures PlainToken(t)
    {
      var i :| 0 <= i < |ts| && BlankAll(ts)[i] == t;
      assert ts[i] in ts && PlainToken(ts[i]);
      assert PlainName("_");
    }
  }

  // ---- and the blanked tokens determine the shape ----

  lemma {:induction false} BlankHoles(ts: seq<Token>)
    ensures |Holes(BlankAll(ts))| == |Holes(ts)|
  {
    if ts != [] {
      BlankHoles(ts[1..]);
      assert BlankAll(ts)[1..] == BlankAll(ts[1..]);
    }
  }

  function BlankSegments(segs: seq<seq<Token>>): (r: seq<seq<Token>>)
    ensures |r| == |segs| && forall i | 0 <= i < |segs| :: r[i] == BlankAll(segs[i])
  {
    if segs == [] then [] else [BlankAll(segs[0])] + BlankSegments(segs[1..])
  }

  lemma {:induction false} SplitOfBlank(ts: seq<Token>)
    ensures SplitTokens(BlankAll(ts)) == BlankSegments(SplitTokens(ts))
  {
    if ts != [] {
      SplitOfBlank(ts[1..]);
      assert BlankAll(ts)[1..] == BlankAll(ts[1..]);
      var rest := SplitTokens(ts[1..]);
      if ts[0] == Ch('/') {
        assert BlankSegments([[]] + rest) == [[]] + BlankSegments(rest);
      } else {
        assert BlankAll([ts[0]] + rest[0]) == [Blank(ts[0])] + BlankAll(rest[0]);
        assert BlankSegments([[ts[0]] + rest[0]] + rest[1..])
          == [[Blank(ts[0])] + BlankAll(rest[0])] + BlankSegments(rest[1..]);
        assert BlankSegments(rest)[1..] == BlankSegments(rest[1..]);
      }
    }
  }

  lemma {:induction false} LiteralIsNotBlanked(seg: seq<Token>)
    requires IsLiteral(seg)
    ensures BlankAll(seg) == seg
  {
    forall i | 0 <= i < |seg|
      ensures Blank(seg[i]) == seg[i]
    {
      assert seg[i] in seg;
    }
  }

  lemma {:induction false} SameSegment(a: seq<Token>, b: seq<Token>)
    requires (IsLiteral(a) || IsHole(a)) && (IsLiteral(b) || IsHole(b)) && BlankAll(a) == BlankAll(b)
    ensures if IsHole(a) then IsHole(b) && a[0].hole.rest == b[0].hole.rest else a == b
  {
    if IsLiteral(a) { LiteralIsNotBlanked(a); }
    if IsLiteral(b) { LiteralIsNotBlanked(b); }
    assert BlankAll(a)[0] == Blank(a[0]) && BlankAll(b)[0] == Blank(b[0]);
    assert IsLiteral(a) ==> a[0] in a;
    assert IsLiteral(b) ==> b[0] in b;
  }

  lemma {:induction false} SameBlankSameShape(a: seq<seq<Token>>, b: seq<seq<Token>>)
    requires GoodSegments(a) && GoodSegments(b) && BlankSegments(a) == BlankSegments(b)
    ensures SameShape(a, b)
  {
    if a != [] {
      assert BlankSegments(a)[0] == BlankSegments(b)[0];
      SameSegment(a[0], b[0]);
      assert BlankSegments(a)[1..] == BlankSegments(a[1..]) && BlankSegments(b)[1..] == BlankSegments(b[1..]);
      SameBlankSameShape(a[1..], b[1..]);
    }
  }

  /** Equal keys mean the same number of placeholders, whatever their names. */
  lemma {:induction false} SameKeySameCount(a: seq<Token>, b: seq<Token>)
    requires Plain(a) && Plain(b) && NormalizePath(Show(a)) == NormalizePath(Show(b))
    ensures BlankAll(a) == BlankAll(b) && |Holes(a)| == |Holes(b)|
  {
    NormalizeBlanks(a);
    NormalizeBlanks(b);
    BlankIsPlain(a);
    BlankIsPlain(b);
    ShowIsInjective(BlankAll(a), BlankAll(b));
    BlankHoles(a);
    BlankHoles(b);
  }

  /** For paths the mux can register, keys are equal exactly when the shapes are. */
  lemma {:induction false} SameKeySameShape(a: seq<Token>, b: seq<Token>)
    requires Plain(a) && Plain(b) && Routable(a) && Routable(b)
    ensures NormalizePath(Show(a)) == NormalizePath(Show(b)) <==> SameShape(SplitTokens(a)[1..], SplitTokens(b)[1..])
  {
    SplitOfBlank(a);
    SplitOfBlank(b);
    if NormalizePath(Show(a)) == NormalizePath(Show(b)) {
      SameKeySameCount(a, b);
      assert BlankSegments(SplitTokens(a))[1..] == BlankSegments(SplitTokens(a)[1..]);
      assert BlankSegments(SplitTokens(b))[1..] == BlankSegments(SplitTokens(b)[1..]);
      SameBlankSameShape(SplitTokens(a)[1..], SplitTokens(b)[1..]);
    }
    if SameShape(SplitTokens(a)[1..], SplitTokens(b)[1..]) {
      SameShapeSameKey(a, b);
    }
  }

  lemma {:induction false} ShapeBlanks(a: seq<seq<Token>>, b: seq<seq<Token>>)
    requires SameShape(a, b)
    ensures BlankSegments(a) == BlankSegments(b)
  {
    if a != [] { ShapeBlanks(a[1..], b[1..]); }
  }

  lemma {:induction false} SameShapeSameKey(a: seq<Token>, b: seq<Token>)
    requires Plain(a) && Plain(b) && Routable(a) && Routable(b)
    requires SameShape(SplitTokens(a)[1..], SplitTokens(b)[1..])
    ensures NormalizePath(Show(a)) == NormalizePath(Show(b))
  {
    ShapeBlanks(SplitTokens(a)[1..], SplitTokens(b)[1..]);
    SplitOfBlank(a);
    SplitOfBlank(b);
    assert BlankSegments(SplitTokens(a)) == [[]] + BlankSegments(SplitTokens(a)[1..]);
    assert BlankSegments(SplitTokens(b)) == [[]] + BlankSegments(SplitTokens(b)[1..]);
    ShownSegments(BlankAll(a));
    ShownSegments(BlankAll(b));
    NormalizeBlanks(a);
    NormalizeBlanks(b);
  }
}
