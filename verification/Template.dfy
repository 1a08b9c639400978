/** URL templates as tokens: literal characters and placeholders.

    The plugins build templates as strings, `Show` below, and the clients fill them by string
    replacement. The lemmas say that replacement on the string is substitution on the tokens. */
module Template {
  import opened Text

  /** "{name}", or "{name...}" for the rest of the path. */
  datatype Hole = Hole(name: string, rest: bool)

  datatype Token = Ch(c: char) | Var(hole: Hole)

  function Inner(h: Hole): string { h.name + if h.rest then "..." else "" }

  function Placeholder(h: Hole): string { "{" + Inner(h) + "}" }

  function ShowToken(t: Token): string {
    match t
    case Ch(c) => [c]
    case Var(h) => Placeholder(h)
  }

  function Show(ts: seq<Token>): string {
    if ts == [] then "" else ShowToken(ts[0]) + Show(ts[1..])
  }

  function Chars(s: string): (ts: seq<Token>)
    ensures |ts| == |s| && forall i | 0 <= i < |s| :: ts[i] == Ch(s[i])
  {
    seq(|s|, i requires 0 <= i < |s| => Ch(s[i]))
  }

  lemma CharsCons(s: string)
    requires s != ""
    ensures Chars(s) == [Ch(s[0])] + Chars(s[1..]) && Chars(s)[1..] == Chars(s[1..])
  {
  }

  function Holes(ts: seq<Token>): (hs: seq<Hole>)
    ensures forall h :: h in hs <==> Var(h) in ts
  {
    if ts == [] then [] else (if ts[0].Var? then [ts[0].hole] else []) + Holes(ts[1..])
  }

  lemma {:induction false} HolesConcat(a: seq<Token>, b: seq<Token>)
    ensures Holes(a + b) == Holes(a) + Holes(b)
  {
    if a == [] {
      assert a + b == b;
    } else {
      HolesConcat(a[1..], b);
      ConsConcat(a, b);
      Assoc(if a[0].Var? then [a[0].hole] else [], Holes(a[1..]), Holes(b));
    }
  }

  lemma {:induction false} HolesOfChars(s: string)
    ensures Holes(Chars(s)) == []
  {
    if s != "" {
      HolesOfChars(s[1..]);
      CharsCons(s);
    }
  }

  lemma {:induction false} ShowConcat(a: seq<Token>, b: seq<Token>)
    ensures Show(a + b) == Show(a) + Show(b)
  {
    if a == [] {
      assert a + b == b;
    } else {
      ShowConcat(a[1..], b);
      ConsConcat(a, b);
      Assoc(ShowToken(a[0]), Show(a[1..]), Show(b));
    }
  }

  lemma {:induction false} ShowChars(s: string)
    ensures Show(Chars(s)) == s
  {
    if s != "" {
      ShowChars(s[1..]);
      CharsCons(s);
    }
  }

  // ---- well-formed templates ----

  predicate PlainName(name: string) {
    name != "" && forall c | c in name :: c != '{' && c != '}' && c != '/' && c != '.' && c != '%'
  }

  predicate PlainToken(t: Token) {
    match t
    case Ch(c) => c != '{' && c != '}'
    case Var(h) => PlainName(h.name)
  }

  predicate Plain(ts: seq<Token>) { forall t | t in ts :: PlainToken(t) }

  /** The runtimes recognise a rest-of-path placeholder by its suffix. */
  lemma {:induction false} PlaceholderSuffix(h: Hole)
    requires PlainName(h.name)
    ensures HasSuffix(Placeholder(h), "...}") <==> h.rest
  {
    var p := Placeholder(h);
    if h.rest {
      assert p[|p| - 4..] == "...}";
    } else {
      assert Inner(h) == h.name;
      var last := h.name[|h.name| - 1];
      assert last in h.name && p[|p| - 2] == last;
      if |p| >= 4 { assert p[|p| - 4..][2] == last && "...}"[2] == '.'; }
    }
  }

  // ---- substitution ----

  /** Simultaneous substitution; holes outside `values` stay. */
  function Subst(ts: seq<Token>, values: map<Hole, string>): seq<Token> {
    if ts == [] then []
    else (if ts[0].Var? && ts[0].hole in values then Chars(values[ts[0].hole]) else [ts[0]]) + Subst(ts[1..], values)
  }

  lemma {:induction false} SubstConcat(a: seq<Token>, b: seq<Token>, values: map<Hole, string>)
    ensures Subst(a + b, values) == Subst(a, values) + Subst(b, values)
  {
    if a == [] {
      assert a + b == b;
    } else {
      SubstConcat(a[1..], b, values);
      ConsConcat(a, b);
      Assoc(if a[0].Var? && a[0].hole in values then Chars(values[a[0].hole]) else [a[0]],
            Subst(a[1..], values), Subst(b, values));
    }
  }

  lemma {:induction false} SubstChars(s: string, values: map<Hole, string>)
    ensures Subst(Chars(s), values) == Chars(s)
  {
    if s != "" {
      SubstChars(s[1..], values);
      CharsCons(s);
    }
  }

  lemma {:induction false} SubstPlain(ts: seq<Token>, values: map<Hole, string>)
    requires Plain(ts) && forall h | h in values :: BraceFree(values[h])
    ensures Plain(Subst(ts, values))
  {
    if ts != [] {
      SubstPlain(ts[1..], values);
      var h := ts[0];
      assert PlainToken(h);
      if h.Var? && h.hole in values {
        var v := values[h.hole];
        assert forall i | 0 <= i < |v| :: v[i] in v && PlainToken(Chars(v)[i]);
      }
    }
  }

  lemma {:induction false} SubstAbsent(ts: seq<Token>, values: map<Hole, string>)
    requires forall h | h in Holes(ts) :: h !in values
    ensures Subst(ts, values) == ts
  {
    if ts != [] {
      SubstAbsent(ts[1..], values);
    }
  }

  lemma HeadDiffers(p: string, c: char, s: string)
    requires p != "" && p[0] != c
    ensures !(p <= [c] + s)
  {
    assert ([c] + s)[0] == c;
  }

  /** Replacement passes over text that cannot begin what is replaced. */
  lemma {:induction false} ReplacePassesText(text: string, s: string, old_: string, new_: string)
    requires old_ != "" && old_[0] !in text
    ensures ReplaceFirst(text + s, old_, new_) == text + ReplaceFirst(s, old_, new_)
    ensures ReplaceAll(text + s, old_, new_) == text + ReplaceAll(s, old_, new_)
  {
    if text == "" {
      assert text + s == s;
    } else {
      assert text[0] in text && forall c | c in text[1..] :: c in text;
      ReplacePassesText(text[1..], s, old_, new_);
      ReplacePassesChar(text[0], text[1..] + s, old_, new_);
      Unroll(text, s);
      Unroll(text, ReplaceFirst(s, old_, new_));
      Unroll(text, ReplaceAll(s, old_, new_));
    }
  }

  lemma ReplacePassesChar(c: char, s: string, old_: string, new_: string)
    requires old_ != "" && old_[0] != c
    ensures ReplaceFirst([c] + s, old_, new_) == [c] + ReplaceFirst(s, old_, new_)
    ensures ReplaceAll([c] + s, old_, new_) == [c] + ReplaceAll(s, old_, new_)
  {
    HeadDiffers(old_, c, s);
    ReplaceSkips(c, s, old_, new_);
  }

  lemma Unroll(text: string, s: string)
    requires text != ""
    ensures text + s == [text[0]] + (text[1..] + s)
  {
  }

  /** Distinct placeholders never match each other. */
  lemma {:induction false} OtherPlaceholderDiffers(g: Hole, h: Hole, s: string)
    requires PlainName(g.name) && PlainName(h.name) && g != h
    ensures !(Placeholder(h) <= Placeholder(g) + s)
  {
    if Placeholder(h) <= Placeholder(g) + s {
      var t := Placeholder(g) + s;
      var rest := t[|Placeholder(h)|..];
      assert t == Placeholder(h) + rest;
      assert t[1..] == Inner(h) + ['}'] + rest;
      assert t[1..] == Inner(g) + ['}'] + s;
      BeforeOfSum(Inner(h), '}', rest);
      BeforeOfSum(Inner(g), '}', s);
      SameInner(g, h);
    }
  }

  lemma DotMeansRest(h: Hole)
    requires PlainName(h.name)
    ensures '.' in Inner(h) <==> h.rest
  {
    if h.rest { assert Inner(h)[|h.name|] == '.'; }
  }

  lemma {:induction false} SameInner(g: Hole, h: Hole)
    requires PlainName(g.name) && PlainName(h.name) && Inner(g) == Inner(h)
    ensures g == h
  {
    DotMeansRest(g);
    DotMeansRest(h);
    assert g.name == Inner(g)[..|g.name|] && h.name == Inner(h)[..|h.name|];
  }

  /** Filling the first occurrence of one placeholder. */
  function FillFirst(ts: seq<Token>, h: Hole, value: string): seq<Token> {
    if ts == [] then []
    else if ts[0] == Var(h) then Chars(value) + ts[1..]
    else [ts[0]] + FillFirst(ts[1..], h, value)
  }

  lemma {:induction false} ReplaceIsFill(ts: seq<Token>, h: Hole, value: string)
    requires Plain(ts) && PlainName(h.name)
    ensures ReplaceFirst(Show(ts), Placeholder(h), value) == Show(FillFirst(ts, h, value))
    ensures ReplaceAll(Show(ts), Placeholder(h), value) == Show(Subst(ts, map[h := value]))
  {
    if ts != [] {
      var rest := ts[1..];
      ReplaceIsFill(rest, h, value);
      if ts[0] == Var(h) {
        Text.ReplaceHits(Show(rest), Placeholder(h), value);
        ShowChars(value);
        ShowConcat(Chars(value), rest);
        ShowConcat(Chars(value), Subst(rest, map[h := value]));
      } else {
        ReplacePassesToken(ts[0], Show(rest), h, value);
        assert ([ts[0]] + FillFirst(rest, h, value))[1..] == FillFirst(rest, h, value);
        assert ([ts[0]] + Subst(rest, map[h := value]))[1..] == Subst(rest, map[h := value]);
      }
    }
  }

  lemma {:induction false} ReplacePassesToken(t: Token, s: string, h: Hole, value: string)
    requires PlainToken(t) && PlainName(h.name) && t != Var(h)
    ensures ReplaceFirst(ShowToken(t) + s, Placeholder(h), value)
      == ShowToken(t) + ReplaceFirst(s, Placeholder(h), value)
    ensures ReplaceAll(ShowToken(t) + s, Placeholder(h), value) == ShowToken(t) + ReplaceAll(s, Placeholder(h), value)
  {
    match t
    case Ch(c) => ReplacePassesText([c], s, Placeholder(h), value);
    case Var(g) => ReplacePassesPlaceholder(g, s, h, value);
  }

  lemma {:induction false} ReplacePassesPlaceholder(g: Hole, s: string, h: Hole, value: string)
    requires PlainName(g.name) && PlainName(h.name) && g != h
    ensures ReplaceFirst(Placeholder(g) + s, Placeholder(h), value)
      == Placeholder(g) + ReplaceFirst(s, Placeholder(h), value)
    ensures ReplaceAll(Placeholder(g) + s, Placeholder(h), value)
      == Placeholder(g) + ReplaceAll(s, Placeholder(h), value)
  {
    var tail := Inner(g) + "}";
    OtherPlaceholderDiffers(g, h, s);
    ReplacePassesText(tail, s, Placeholder(h), value);
    assert forall z: string {:trigger Placeholder(g) + z} :: Placeholder(g) + z == ['{'] + (tail + z);
    ReplaceSkips('{', tail + s, Placeholder(h), value);
  }

  lemma {:induction false} FillFirstIsSubst(ts: seq<Token>, h: Hole, value: string)
    requires Distinct(Holes(ts))
    ensures FillFirst(ts, h, value) == Subst(ts, map[h := value])
  {
    if ts != [] {
      if ts[0].Var? {
        DistinctTail(ts[0].hole, Holes(ts[1..]));
      } else {
        assert [] + Holes(ts[1..]) == Holes(ts[1..]);
      }
      if ts[0] == Var(h) {
        SubstAbsent(ts[1..], map[h := value]);
      } else {
        FillFirstIsSubst(ts[1..], h, value);
      }
    }
  }

  function Remaining(holes: seq<Hole>, values: map<Hole, string>): (r: seq<Hole>)
    ensures forall h | h in r :: h in holes && h !in values
  {
    if holes == [] then []
    else (if holes[0] in values then [] else [holes[0]]) + Remaining(holes[1..], values)
  }

  lemma {:induction false} RemainingIsDistinct(holes: seq<Hole>, values: map<Hole, string>)
    requires Distinct(holes)
    ensures Distinct(Remaining(holes, values))
  {
    if holes != [] {
      assert holes == [holes[0]] + holes[1..];
      DistinctTail(holes[0], holes[1..]);
      RemainingIsDistinct(holes[1..], values);
    }
  }

  lemma {:induction false} HolesOfSubst(ts: seq<Token>, values: map<Hole, string>)
    ensures Holes(Subst(ts, values)) == Remaining(Holes(ts), values)
  {
    if ts != [] {
      HolesOfSubst(ts[1..], values);
      var tail := Subst(ts[1..], values);
      if ts[0].Var? {
        assert ([ts[0].hole] + Holes(ts[1..]))[1..] == Holes(ts[1..]);
        if ts[0].hole in values {
          HolesOfChars(values[ts[0].hole]);
          HolesConcat(Chars(values[ts[0].hole]), tail);
        } else {
          HolesConcat([ts[0]], tail);
        }
      } else {
        HolesConcat([ts[0]], tail);
        assert [] + Holes(ts[1..]) == Holes(ts[1..]);
      }
    }
  }

  /** Characters are never substituted again. */
  lemma {:induction false} SubstTwice(ts: seq<Token>, first: map<Hole, string>, second: map<Hole, string>)
    ensures Subst(Subst(ts, first), second) == Subst(ts, second + first)
  {
    if ts != [] {
      SubstTwice(ts[1..], first, second);
      var tail := Subst(ts[1..], first);
      if ts[0].Var? && ts[0].hole in first {
        SubstConcat(Chars(first[ts[0].hole]), tail, second);
        SubstChars(first[ts[0].hole], second);
      } else {
        SubstConcat([ts[0]], tail, second);
        assert Subst([ts[0]], second) == Subst([ts[0]], second + first);
      }
      assert [ts[0]] + ts[1..] == ts;
      SubstConcat([ts[0]], ts[1..], second + first);
    }
  }

  // ---- the clients' substitution loops ----

  /** Go: one replacement of the first occurrence per variable. */
  function FillInOrder(url: string, holes: seq<Hole>, values: map<Hole, string>): string
    decreases |holes|
  {
    if holes == [] then url
    else
      var next := if holes[0] in values then ReplaceFirst(url, Placeholder(holes[0]), values[holes[0]]) else url;
      FillInOrder(next, holes[1..], values)
  }

  /** Python: one replacement of every occurrence per variable. */
  function FillAllInOrder(url: string, holes: seq<Hole>, values: map<Hole, string>): string
    decreases |holes|
  {
    if holes == [] then url
    else
      var next := if holes[0] in values then ReplaceAll(url, Placeholder(holes[0]), values[holes[0]]) else url;
      FillAllInOrder(next, holes[1..], values)
  }

  function Chosen(holes: seq<Hole>, values: map<Hole, string>): map<Hole, string> {
    map h | h in holes && h in values :: values[h]
  }

  /** One replacement substitutes one placeholder and leaves a plain template. */
  lemma {:induction false} FillOneHole(ts: seq<Token>, h: Hole, value: string)
    requires Plain(ts) && Distinct(Holes(ts)) && PlainName(h.name) && BraceFree(value)
    ensures var next := Subst(ts, map[h := value]);
      && ReplaceFirst(Show(ts), Placeholder(h), value) == Show(next)
      && ReplaceAll(Show(ts), Placeholder(h), value) == Show(next)
      && Plain(next) && Distinct(Holes(next))
  {
    var one := map[h := value];
    ReplaceIsFill(ts, h, value);
    FillFirstIsSubst(ts, h, value);
    SubstPlain(ts, one);
    HolesOfSubst(ts, one);
    RemainingIsDistinct(Holes(ts), one);
  }

  lemma ChosenCons(holes: seq<Hole>, values: map<Hole, string>)
    requires holes != [] && holes[0] in values
    ensures Chosen(holes[1..], values) + map[holes[0] := values[holes[0]]] == Chosen(holes, values)
  {
    assert holes == [holes[0]] + holes[1..];
  }

  /** Filling placeholders one after the other is filling them all at once, in whatever order and
      however often they are listed: no substituted value is ever substituted into. */
  lemma {:induction false} SequentialIsSimultaneous(ts: seq<Token>, holes: seq<Hole>, values: map<Hole, string>)
    requires Plain(ts) && Distinct(Holes(ts))
    requires forall h | h in holes :: PlainName(h.name)
    requires forall h | h in values :: BraceFree(values[h])
    ensures FillInOrder(Show(ts), holes, values) == Show(Subst(ts, Chosen(holes, values)))
    ensures FillAllInOrder(Show(ts), holes, values) == Show(Subst(ts, Chosen(holes, values)))
    decreases |holes|
  {
    if holes == [] {
      SubstAbsent(ts, Chosen(holes, values));
    } else {
      var h, rest := holes[0], holes[1..];
      if h in values {
        var one := map[h := values[h]];
        FillOneHole(ts, h, values[h]);
        SequentialIsSimultaneous(Subst(ts, one), rest, values);
        SubstTwice(ts, one, Chosen(rest, values));
        ChosenCons(holes, values);
      } else {
        SequentialIsSimultaneous(ts, rest, values);
        assert Chosen(rest, values) == Chosen(holes, values);
      }
    }
  }

  // ---- segments ----

  function SplitTokens(ts: seq<Token>): (segs: seq<seq<Token>>)
    ensures |segs| >= 1
  {
    if ts == [] then [[]]
    else
      var rest := SplitTokens(ts[1..]);
      if ts[0] == Ch('/') then [[]] + rest else [[ts[0]] + rest[0]] + rest[1..]
  }

  function ShowAll(segs: seq<seq<Token>>): (texts: seq<string>)
    ensures |texts| == |segs| && forall i | 0 <= i < |segs| :: texts[i] == Show(segs[i])
  {
    if segs == [] then [] else [Show(segs[0])] + ShowAll(segs[1..])
  }

  function SubstAll(segs: seq<seq<Token>>, values: map<Hole, string>): (r: seq<seq<Token>>)
    ensures |r| == |segs| && forall i | 0 <= i < |segs| :: r[i] == Subst(segs[i], values)
  {
    if segs == [] then [] else [Subst(segs[0], values)] + SubstAll(segs[1..], values)
  }

  lemma {:induction false} FilledSlash(rest: seq<seq<Token>>, values: map<Hole, string>)
    requires |rest| >= 1
    ensures Join(ShowAll(SubstAll([[]] + rest, values)), "/") == "/" + Join(ShowAll(SubstAll(rest, values)), "/")
  {
    var texts := ShowAll(SubstAll(rest, values));
    assert ShowAll(SubstAll([[]] + rest, values)) == [""] + texts;
    assert ([""] + texts)[1..] == texts;
  }

  lemma {:induction false} FilledHead(t: Token, rest: seq<seq<Token>>, values: map<Hole, string>)
    requires |rest| >= 1
    ensures Join(ShowAll(SubstAll([[t] + rest[0]] + rest[1..], values)), "/")
      == Show(Subst([t], values)) + Join(ShowAll(SubstAll(rest, values)), "/")
  {
    var texts := ShowAll(SubstAll(rest, values));
    var head := Show(Subst([t], values));
    SubstConcat([t], rest[0], values);
    ShowConcat(Subst([t], values), Subst(rest[0], values));
    assert ShowAll(SubstAll([[t] + rest[0]] + rest[1..], values)) == [head + texts[0]] + texts[1..];
    JoinHead(head, texts);
  }

  /** A filled template is its filled segments, joined. */
  lemma {:induction false} FilledSegments(ts: seq<Token>, values: map<Hole, string>)
    ensures Show(Subst(ts, values)) == Join(ShowAll(SubstAll(SplitTokens(ts), values)), "/")
  {
    if ts != [] {
      FilledSegments(ts[1..], values);
      var rest := SplitTokens(ts[1..]);
      assert ts == [ts[0]] + ts[1..];
      SubstConcat([ts[0]], ts[1..], values);
      ShowConcat(Subst([ts[0]], values), Subst(ts[1..], values));
      if ts[0] == Ch('/') {
        assert Subst([ts[0]], values) == [Ch('/')];
        assert Show([Ch('/')]) == "/";
        FilledSlash(rest, values);
      } else {
        FilledHead(ts[0], rest, values);
      }
    }
  }

  /** Slash-free text after the template lands in the last segment. */
  function WithTail(segs: seq<seq<Token>>, tail: string): seq<seq<Token>>
    requires |segs| >= 1
  {
    if |segs| == 1 then [segs[0] + Chars(tail)] else [segs[0]] + WithTail(segs[1..], tail)
  }

  lemma {:induction false} SplitTokensOfText(s: string)
    requires '/' !in s
    ensures SplitTokens(Chars(s)) == [Chars(s)]
  {
    if s != "" {
      SplitTokensOfText(s[1..]);
      assert Chars(s)[1..] == Chars(s[1..]);
      assert [Ch(s[0])] + Chars(s[1..]) == Chars(s);
    }
  }

  lemma {:induction false} SplitTokensAppend(ts: seq<Token>, tail: string)
    requires '/' !in tail
    ensures SplitTokens(ts + Chars(tail)) == WithTail(SplitTokens(ts), tail)
  {
    if ts == [] {
      assert [] + Chars(tail) == Chars(tail);
      SplitTokensOfText(tail);
    } else {
      SplitTokensAppend(ts[1..], tail);
      assert (ts + Chars(tail))[1..] == ts[1..] + Chars(tail);
      var rest := SplitTokens(ts[1..]);
      if ts[0] == Ch('/') {
        assert ([[]] + rest)[1..] == rest;
      } else {
        TailAfterHead(ts[0], rest, tail);
      }
    }
  }

  lemma {:induction false} TailAfterHead(t: Token, rest: seq<seq<Token>>, tail: string)
    requires |rest| >= 1
    ensures var w := WithTail(rest, tail);
      |w| >= 1 && WithTail([[t] + rest[0]] + rest[1..], tail) == [[t] + w[0]] + w[1..]
  {
    var segs := [[t] + rest[0]] + rest[1..];
    assert segs[1..] == rest[1..];
    if |rest| == 1 {
      assert segs == [[t] + rest[0]];
      Assoc([t], rest[0], Chars(tail));
    }
  }

  /** A template is its segments, joined. */
  lemma {:induction false} ShownSegments(ts: seq<Token>)
    ensures Show(ts) == Join(ShowAll(SplitTokens(ts)), "/")
  {
    FilledSegments(ts, map[]);
    SubstAbsent(ts, map[]);
    forall i | 0 <= i < |SplitTokens(ts)|
      ensures Subst(SplitTokens(ts)[i], map[]) == SplitTokens(ts)[i]
    {
      SubstAbsent(SplitTokens(ts)[i], map[]);
    }
    assert SubstAll(SplitTokens(ts), map[]) == SplitTokens(ts);
  }
}
