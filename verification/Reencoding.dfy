/** A client's path encoded anew from what it says: when its route serves that like the path that was
    built, and how many segments the two have. */
module Reencoding {
  import opened Text
  import opened Escape
  import opened Template
  import opened ServeMux
  import opened Routing
  import opened Patterns
  import opened RoundTrip
  import opened NetUrl
  import Decimal
  import SseTransport

  // ---- the bytes of a pattern ----

  predicate Only(s: string, chars: set<char>) { forall c | c in s :: c in chars }

  predicate TokenOnly(t: Token, chars: set<char>) { if t.Ch? then t.c in chars else Only(t.hole.name, chars) }

  predicate TokensOnly(ts: seq<Token>, chars: set<char>) { forall t | t in ts :: TokenOnly(t, chars) }

  predicate SpecOnly(v: VarSpec, chars: set<char>) {
    Only(v.fieldPath, chars) && forall p | p in v.parts :: Only(p, chars)
  }

  /** Numbered names need more than the pattern's own characters. */
  predicate HasNumbers(chars: set<char>) { '_' in chars && forall c | Decimal.IsDigit(c) :: c in chars }

  lemma TokensOnlySum(a: seq<Token>, b: seq<Token>, chars: set<char>)
    requires TokensOnly(a, chars) && TokensOnly(b, chars)
    ensures TokensOnly(a + b, chars)
  {
  }

  lemma CharsOnly(text: string, chars: set<char>)
    requires Only(text, chars)
    ensures TokensOnly(Chars(text), chars)
  {
    forall t | t in Chars(text)
      ensures TokenOnly(t, chars)
    {
      var i :| 0 <= i < |text| && Chars(text)[i] == t;
      assert text[i] in text;
    }
  }

  lemma OnlyPart(part: string, s: string, chars: set<char>)
    requires Only(s, chars) && forall c | c in part :: c in s
    ensures Only(part, chars)
  {
  }

  lemma {:induction false} OnlySplit(s: string, c: char, chars: set<char>)
    requires Only(s, chars)
    ensures forall p | p in Split(s, c) :: Only(p, chars)
  {
    if s != "" {
      assert s[0] in s && forall x | x in s[1..] :: x in s;
      OnlySplit(s[1..], c, chars);
      var rest := Split(s[1..], c);
      assert rest[0] in rest && forall p | p in rest[1..] :: p in rest;
    }
  }

  lemma {:induction false} OnlyLastSegment(s: string, chars: set<char>)
    requires Only(s, chars)
    ensures Only(LastSegment(s), chars)
  {
    if '.' in s { OnlyLastSegment(s[1..], chars); }
  }

  lemma OnlySubName(name: string, k: nat, chars: set<char>)
    requires Only(name, chars) && HasNumbers(chars)
    ensures Only(SubName(name, k), chars)
  {
  }

  lemma {:induction false} OnlyGroup(s: string, chars: set<char>)
    requires Only(s, chars) && AtGroup(s)
    ensures SpecOnly(ReadGroup(s).spec, chars) && Only(ReadGroup(s).after, chars)
  {
    var inside := Before(s, '}');
    var body := inside[1..];
    OnlyPart(body, s, chars);
    var cut := CutAt(body, "=");
    OnlyPart(cut.before, s, chars);
    OnlyPart(cut.after, s, chars);
    OnlySplit(cut.after, '*', chars);
  }

  lemma {:induction false} OnlyMulti(name: string, parts: seq<string>, k: nat, chars: set<char>)
    requires k < |parts| - 1 && Only(name, chars) && HasNumbers(chars) && forall p | p in parts :: Only(p, chars)
    ensures TokensOnly(MultiTokens(name, parts, k), chars)
    decreases |parts| - k
  {
    OnlySubName(name, k, chars);
    if k + 1 < |parts| - 1 {
      OnlyMulti(name, parts, k + 1, chars);
      CharsOnly(parts[k + 1], chars);
    }
  }

  lemma {:induction false} OnlyVar(v: VarSpec, toEnd: bool, verb: string, chars: set<char>)
    requires v.Valid() && SpecOnly(v, chars) && HasNumbers(chars)
    ensures TokensOnly(VarTokens(v, toEnd, verb), chars)
  {
    OnlyLastSegment(v.fieldPath, chars);
    CharsOnly(v.Prefix(), chars);
    CharsOnly(v.parts[|v.parts| - 1], chars);
    if v.IsMulti() { OnlyMulti(v.Name(), v.parts, 0, chars); }
  }

  /** The parser writes no characters but the pattern's own and those of numbers. */
  lemma {:induction false} ParsedOnly(s: string, verb: string, chars: set<char>)
    requires Only(s, chars) && Only(verb, chars) && HasNumbers(chars)
    ensures TokensOnly(GoFrom(s, verb).tokens, chars) && Only(GoFrom(s, verb).verb, chars)
    decreases |s|
  {
    if s == "" {
    } else if !AtGroup(s) {
      assert s[0] in s;
      OnlyPart(s[1..], s, chars);
      ParsedOnly(s[1..], verb, chars);
    } else {
      var g := ReadGroup(s);
      OnlyGroup(s, chars);
      var newVerb := VerbAfter(g.spec, g.after, verb);
      OnlyPart(Before(g.after, '/'), g.after, chars);
      var after := SkipVerb(g.after, newVerb);
      OnlyPart(after, g.after, chars);
      ParsedOnly(after, newVerb, chars);
      OnlyVar(g.spec, GoAtEnd(g.after, newVerb), newVerb, chars);
      TokensOnlySum(VarTokens(g.spec, GoAtEnd(g.after, newVerb), newVerb), GoFrom(after, newVerb).tokens, chars);
    }
  }

  predicate InPath(t: Token) { if t.Ch? then IsPathByte(t.c) else PathBytes(t.hole.name) }

  predicate AllInPath(ts: seq<Token>) { forall t | t in ts :: InPath(t) }

  /** What a pattern writes into its path are path bytes when its own bytes are. */
  lemma {:induction false} ParsedBytes(pattern: string)
    requires PathBytes(pattern)
    ensures AllInPath(GoParse(pattern).tokens) && PathBytes(GoParse(pattern).verb)
  {
    var chars := set c: char | IsPathByte(c);
    ParsedOnly(pattern, "", chars);
    forall t | t in GoParse(pattern).tokens
      ensures InPath(t)
    {
      assert TokenOnly(t, chars);
    }
  }

  /** The bytes of a pattern that net/url leaves alone: no escapes, and braces only for variables. */
  function PlainBytes(): set<char> { RawBytes() - {'%'} + {'{', '}'} }

  lemma PlainBytesHaveNumbers()
    ensures HasNumbers(PlainBytes()) && forall c | c in PlainBytes() :: IsPathByte(c)
  {
    forall c | Decimal.IsDigit(c)
      ensures c in PlainBytes()
    {
      assert IsAlphanumeric(c) && c in Alphanumerics();
    }
  }

  // ---- one text of the path ----

  /** `ct` is the template of a client that has `values` for its placeholders, `sent` what stands in
      each of their places. */
  predicate Sends(ct: seq<Token>, values: map<Hole, string>, sent: map<Hole, string>, verb: string) {
    && Routable(ct) && Plain(ct) && AllInPath(ct) && GoodVerb(verb) && PathBytes(verb)
    && (verb != "" ==> LastIsHole(SplitTokens(ct)))
    && AllOctets(values)
    && Covers(sent, SplitTokens(ct)[1..]) && Arrives(SplitTokens(ct)[1..], values, sent)
  }

  predicate LiteralsDecode(segs: seq<seq<Token>>) {
    forall seg | seg in segs && !IsHole(seg) :: Unescape(Show(seg)).Text?
  }

  /** No literal holds an encoded slash or spells "." or "..". */
  predicate SteadyLiterals(segs: seq<seq<Token>>) {
    forall seg | seg in segs && !IsHole(seg) ::
      '/' !in DecodeSegment(Show(seg)) && !IsDots(DecodeSegment(Show(seg)))
  }

  /** Literals without escapes say what they show. */
  lemma {:induction false} PlainLiterals(ts: seq<Token>)
    requires Routable(ts) && Ch('%') !in ts
    ensures LiteralsDecode(SplitTokens(ts)[1..]) && SteadyLiterals(SplitTokens(ts)[1..])
  {
    var segs := SplitTokens(ts)[1..];
    PercentInSegments(ts);
    forall seg | seg in segs && !IsHole(seg)
      ensures Unescape(Show(seg)) == Text(Show(seg)) && '/' !in Show(seg) && !IsDots(Show(seg))
    {
      LiteralOf(segs, seg);
      LiteralParses(seg);
      NoPercent(seg);
      PlainTextDecodes(Show(seg));
    }
  }

  lemma {:induction false} LiteralOf(segs: seq<seq<Token>>, seg: seq<Token>)
    requires GoodSegments(segs) && seg in segs && !IsHole(seg)
    ensures IsLiteral(seg)
  {
    if seg != segs[0] {
      assert segs == [segs[0]] + segs[1..];
      LiteralOf(segs[1..], seg);
    }
  }

  /** What the texts of the path say once decoded. */
  function Says(segs: seq<seq<Token>>, sent: map<Hole, string>, verb: string): (texts: seq<string>)
    requires Covers(sent, segs)
    ensures |texts| == |segs|
  {
    if segs == [] then []
    else
      CoversHead(sent, segs);
      [if IsHole(segs[0]) then sent[segs[0][0].hole] + (if |segs| == 1 then verb else "")
       else DecodeSegment(Show(segs[0]))]
      + Says(segs[1..], sent, verb)
  }

  function DecodeAll(texts: seq<string>): (r: seq<string>)
    ensures |r| == |texts| && forall i | 0 <= i < |texts| :: r[i] == DecodeSegment(texts[i])
  {
    seq(|texts|, i requires 0 <= i < |texts| => DecodeSegment(texts[i]))
  }

  lemma DecodeAllHead(texts: seq<string>)
    requires texts != []
    ensures DecodeAll(texts) == [DecodeSegment(texts[0])] + DecodeAll(texts[1..])
  {
  }

  /** Texts written for a template say its values. */
  lemma {:induction false} WrittenSays(segs: seq<seq<Token>>, texts: seq<string>, sent: map<Hole, string>, verb: string)
    requires |segs| == |texts| && Covers(sent, segs) && Written(segs, texts, sent, verb)
    ensures DecodeAll(texts) == Says(segs, sent, verb)
  {
    if segs != [] {
      CoversHead(sent, segs);
      WrittenSays(segs[1..], texts[1..], sent, verb);
      DecodeAllHead(texts);
      OneSays(segs[0], texts[0], sent, if |segs| == 1 then verb else "");
    }
  }

  lemma OneSays(seg: seq<Token>, text: string, sent: map<Hole, string>, verb: string)
    requires (IsHole(seg) ==> seg[0].hole in sent) && WrittenFor(seg, text, sent, verb)
    ensures DecodeSegment(text) == if IsHole(seg) then sent[seg[0].hole] + verb else DecodeSegment(Show(seg))
  {
  }

  predicate AllDecode(texts: seq<string>) { forall t | t in texts :: Unescape(t).Text? }

  lemma AllDecodeCons(text: string, texts: seq<string>)
    ensures AllDecode([text] + texts) <==> Unescape(text).Text? && AllDecode(texts)
  {
    assert text in [text] + texts && forall t | t in texts :: t in [text] + texts;
  }

  /** What fills a placeholder decodes, whatever its value. */
  lemma FilledDecodes(value: string, rest: bool, verb: string)
    requires Octets(value) && GoodVerb(verb)
    ensures Unescape(EscapeVar(GoCodec(), value, rest) + verb).Text?
  {
    EscapeVarEncodes(value, rest);
    EncodingDecodes(EscapeVar(GoCodec(), value, rest), value);
    PlainTextDecodes(verb);
    UnescapeSum(EscapeVar(GoCodec(), value, rest), verb);
  }

  lemma LeftPlaceholderDecodes(h: Hole, verb: string)
    requires PlainName(h.name) && GoodVerb(verb)
    ensures Unescape(Placeholder(h) + verb).Text?
  {
    PlainTextDecodes(Placeholder(h) + verb);
  }

  lemma LeftPlaceholderIsNotRaw(h: Hole)
    ensures !AllRaw(Placeholder(h))
  {
    assert Placeholder(h)[0] in Placeholder(h) && '{' !in RawBytes();
  }

  lemma {:induction false} HoleTextDecodes(seg: seq<Token>, values: map<Hole, string>, verb: string)
    requires IsHole(seg) && PlainName(seg[0].hole.name) && AllOctets(values) && GoodVerb(verb)
    ensures Unescape(SegmentText(seg, Escaped(GoCodec(), values)) + verb).Text?
  {
    var h := seg[0].hole;
    if h in values {
      FilledDecodes(values[h], h.rest, verb);
    } else {
      ShowHole(seg);
      LeftPlaceholderDecodes(h, verb);
    }
  }

  lemma LiteralsDecodeCons(segs: seq<seq<Token>>)
    requires segs != []
    ensures LiteralsDecode(segs) <==> (IsHole(segs[0]) || Unescape(Show(segs[0])).Text?) && LiteralsDecode(segs[1..])
  {
    assert segs[0] in segs && forall seg | seg in segs[1..] :: seg in segs;
    assert forall seg | seg in segs :: seg == segs[0] || seg in segs[1..];
  }

  lemma {:induction false} TextsDecode(segs: seq<seq<Token>>, values: map<Hole, string>, verb: string)
    requires GoodSegments(segs) && AllOctets(values) && GoodVerb(verb)
      && (verb != "" && segs != [] ==> LastIsHole(segs))
    ensures AllDecode(FilledTexts(segs, Escaped(GoCodec(), values), verb)) <==> LiteralsDecode(segs)
  {
    if segs != [] {
      var own, rest := if |segs| == 1 then verb else "", segs[1..];
      if |segs| > 1 && LastIsHole(segs) { assert rest[|rest| - 1] == segs[|segs| - 1]; }
      TextsDecode(rest, values, verb);
      LiteralsDecodeCons(segs);
      var text := SegmentText(segs[0], Escaped(GoCodec(), values)) + own;
      AllDecodeCons(text, FilledTexts(rest, Escaped(GoCodec(), values), verb));
      if IsHole(segs[0]) { HoleTextDecodes(segs[0], values, own); } else { assert Show(segs[0]) + "" == Show(segs[0]); }
    }
  }

  // ---- the path ----

  /** A slash ends an escape: a path decodes when its segments do. */
  lemma {:induction false} UnescapeSlash(a: string, b: string)
    ensures Unescape(a + "/" + b).Text? <==> Unescape(a).Text? && Unescape(b).Text?
    ensures Unescape(a).Text? && Unescape(b).Text? ==>
      Unescape(a + "/" + b) == Text(Unescape(a).text + "/" + Unescape(b).text)
  {
    Assoc(a, "/", b);
    SlashDecodes(b);
    if Unescape(a).Text? {
      UnescapeSum(a, "/" + b);
      if Unescape(b).Text? { Assoc(Unescape(a).text, "/", Unescape(b).text); }
    } else {
      InvalidStays(a, "/" + b);
    }
  }

  lemma SlashDecodes(b: string)
    ensures Unescape("/" + b).Text? <==> Unescape(b).Text?
    ensures Unescape(b).Text? ==> Unescape("/" + b) == Text("/" + Unescape(b).text)
  {
    assert ("/" + b)[1..] == b;
  }

  lemma {:induction false} InvalidStays(a: string, rest: string)
    requires Unescape(a).Invalid? && rest != "" && rest[0] == '/'
    ensures Unescape(a + rest).Invalid?
  {
    var n := if a[0] == '%' then 3 else 1;
    if n > |a| {
      assert (a + rest)[|a|] == '/' && HexValue('/') < 0;
    } else {
      FirstUnit(a, rest, n);
      if Unescape(a[n..]).Invalid? { InvalidStays(a[n..], rest); }
    }
  }

  lemma {:induction false} JoinDecodes(texts: seq<string>)
    requires texts != []
    ensures Unescape(Join(texts, "/")).Text? <==> AllDecode(texts)
    ensures AllDecode(texts) ==> Unescape(Join(texts, "/")) == Text(Join(DecodeAll(texts), "/"))
  {
    assert texts == [texts[0]] + texts[1..];
    AllDecodeCons(texts[0], texts[1..]);
    if |texts| > 1 {
      JoinDecodes(texts[1..]);
      UnescapeSlash(texts[0], Join(texts[1..], "/"));
      DecodeAllHead(texts);
    }
  }

  /** The path a client builds decodes exactly when its literals do, and says what is sent. */
  lemma {:induction false} PathDecodes(ct: seq<Token>, values: map<Hole, string>, sent: map<Hole, string>, verb: string)
    requires Sends(ct, values, sent, verb)
    ensures var cs, path := SplitTokens(ct)[1..], ClientPath(GoCodec(), ct, values, verb);
      && (Unescape(path).Text? <==> LiteralsDecode(cs))
      && (LiteralsDecode(cs) ==> Unescape(path) == Text("/" + Join(Says(cs, sent, verb), "/")))
  {
    var cs := SplitTokens(ct)[1..];
    var texts := FilledTexts(cs, Escaped(GoCodec(), values), verb);
    RoundTrip.LastOfTail(ct);
    CodecsAreValid();
    PathIsTexts(ct, Escaped(GoCodec(), values), verb);
    TextsDecode(cs, values, verb);
    FilledIsWritten(GoCodec(), cs, values, sent, verb);
    WrittenSays(cs, texts, sent, verb);
    JoinDecodes(texts);
    SlashDecodes(Join(texts, "/"));
  }

  // ---- the bytes of the path ----

  predicate RawLiterals(ts: seq<Token>) { forall t | t in ts && t.Ch? :: t.c in RawBytes() }

  predicate AllFilled(ts: seq<Token>, values: map<Hole, string>) { forall t | t in ts && t.Var? :: t.hole in values }

  lemma RawSum(a: string, b: string)
    ensures AllRaw(a + b) <==> AllRaw(a) && AllRaw(b)
    ensures PathBytes(a + b) <==> PathBytes(a) && PathBytes(b)
  {
    assert forall c | c in a :: c in a + b;
    assert forall c | c in b :: c in a + b;
  }

  lemma RawIsPathBytes(s: string)
    requires AllRaw(s)
    ensures PathBytes(s)
  {
  }

  lemma {:induction false} TokenBytes(t: Token, values: map<Hole, string>)
    requires PlainToken(t) && InPath(t) && AllOctets(values)
    ensures var text := Show(Subst([t], Escaped(GoCodec(), values)));
      PathBytes(text) && (AllRaw(text) <==> if t.Ch? then t.c in RawBytes() else t.hole in values)
  {
    assert [t][1..] == [];
    var filled := Escaped(GoCodec(), values);
    if t.Var? && t.hole in values {
      assert Subst([t], filled) == Chars(filled[t.hole]) + [] == Chars(filled[t.hole]);
      ShowChars(filled[t.hole]);
      VarIsRaw(values[t.hole], t.hole.rest);
      RawIsPathBytes(filled[t.hole]);
    } else {
      assert Subst([t], filled) == [t] + [] == [t];
      SseTransport.OneToken(t);
      if t.Var? {
        LeftPlaceholderIsNotRaw(t.hole);
        PlaceholderBytes(t.hole);
      }
    }
  }

  lemma PlaceholderBytes(h: Hole)
    requires PathBytes(h.name)
    ensures PathBytes(Placeholder(h))
  {
    assert forall c | c in Placeholder(h) :: c in h.name || c == '{' || c == '}' || c == '.';
  }

  lemma FilledCons(t: Token, rest: seq<Token>, values: map<Hole, string>)
    ensures AllFilled([t] + rest, values) && RawLiterals([t] + rest)
      <==> (if t.Ch? then t.c in RawBytes() else t.hole in values) && AllFilled(rest, values) && RawLiterals(rest)
  {
    assert ([t] + rest)[0] == t && forall x | x in rest :: x in [t] + rest;
  }

  /** The path is made of raw bytes exactly when its literals are and no placeholder is left. */
  lemma {:induction false} TemplateBytes(ts: seq<Token>, values: map<Hole, string>)
    requires Plain(ts) && AllInPath(ts) && AllOctets(values)
    ensures var path := Show(Subst(ts, Escaped(GoCodec(), values)));
      PathBytes(path) && (AllRaw(path) <==> AllFilled(ts, values) && RawLiterals(ts))
  {
    if ts != [] {
      var t, rest, filled := ts[0], ts[1..], Escaped(GoCodec(), values);
      assert ts == [t] + rest && t in ts && forall x | x in rest :: x in ts;
      assert PlainToken(t) && InPath(t);
      TemplateBytes(rest, values);
      TokenBytes(t, values);
      FilledCons(t, rest, values);
      SseTransport.FilledConcat([t], rest, filled);
      RawSum(Show(Subst([t], filled)), Show(Subst(rest, filled)));
    }
  }

  // ---- the path encoded anew ----

  /** A text that stays one segment when its path is encoded anew; the rest of the path may be more. */
  predicate StandsApart(seg: seq<Token>, text: string) {
    if IsHole(seg) then seg[0].hole.rest || '/' !in text else '/' !in text && !IsDots(text)
  }

  predicate Apart(segs: seq<seq<Token>>, texts: seq<string>)
    requires |segs| == |texts|
  {
    forall i | 0 <= i < |segs| :: StandsApart(segs[i], texts[i])
  }

  lemma {:induction false} ApartExactly(segs: seq<seq<Token>>, sent: map<Hole, string>, verb: string)
    requires Covers(sent, segs) && GoodVerb(verb)
    ensures Apart(segs, Says(segs, sent, verb))
      <==> SteadyLiterals(segs) && forall h | h in SegHoles(segs) && !h.rest :: '/' !in sent[h]
  {
    if segs != [] {
      CoversHead(sent, segs);
      ApartExactly(segs[1..], sent, verb);
      var text, texts := Says(segs, sent, verb)[0], Says(segs, sent, verb)[1..];
      assert texts == Says(segs[1..], sent, verb);
      ApartCons(segs, Says(segs, sent, verb));
      SteadyCons(segs);
      SegHolesCons(segs, sent);
    }
  }

  lemma ApartCons(segs: seq<seq<Token>>, texts: seq<string>)
    requires |segs| == |texts| > 0
    ensures Apart(segs, texts) <==> StandsApart(segs[0], texts[0]) && Apart(segs[1..], texts[1..])
  {
    if StandsApart(segs[0], texts[0]) && Apart(segs[1..], texts[1..]) {
      forall i | 0 <= i < |segs|
        ensures StandsApart(segs[i], texts[i])
      {
        if i > 0 { assert segs[i] == segs[1..][i - 1] && texts[i] == texts[1..][i - 1]; }
      }
    }
  }

  lemma SteadyCons(segs: seq<seq<Token>>)
    requires segs != []
    ensures SteadyLiterals(segs)
      <==> (IsHole(segs[0]) || ('/' !in DecodeSegment(Show(segs[0])) && !IsDots(DecodeSegment(Show(segs[0])))))
           && SteadyLiterals(segs[1..])
  {
    assert segs[0] in segs && forall seg | seg in segs[1..] :: seg in segs;
    assert forall seg | seg in segs :: seg == segs[0] || seg in segs[1..];
  }

  lemma SegHolesCons(segs: seq<seq<Token>>, sent: map<Hole, string>)
    requires segs != [] && Covers(sent, segs)
    ensures Covers(sent, segs[1..]) && (IsHole(segs[0]) ==> segs[0][0].hole in sent)
    ensures (forall h | h in SegHoles(segs) && !h.rest :: '/' !in sent[h])
      <==> (IsHole(segs[0]) && !segs[0][0].hole.rest ==> '/' !in sent[segs[0][0].hole])
           && forall h | h in SegHoles(segs[1..]) && !h.rest :: '/' !in sent[h]
  {
    CoversHead(sent, segs);
    var first := if IsHole(segs[0]) then [segs[0][0].hole] else [];
    assert forall h | h in SegHoles(segs) :: h in first || h in SegHoles(segs[1..]);
    assert forall h | h in SegHoles(segs[1..]) :: h in SegHoles(segs);
  }

  lemma {:induction false} SegmentOnWire(seg: seq<Token>, text: string, sent: map<Hole, string>, verb: string)
    requires Octets(text) && StandsApart(seg, text)
    requires if IsHole(seg) then seg[0].hole in sent && text == sent[seg[0].hole] + verb
             else IsLiteral(seg) && verb == "" && Unescape(Show(seg)) == Text(text)
    ensures WrittenFor(seg, EscapeText(PathCodec(), text), sent, verb)
  {
    var raw := EscapeText(PathCodec(), text);
    CodecsAreFaithful();
    EscapingKeepsSlashes(PathCodec(), text);
    if '/' !in text { SlashFreeKeeps(raw, text); }
    if IsHole(seg) {
      EncodingCarries(raw, text, seg[0].hole.rest);
    } else {
      EncodingDecodes(raw, text);
      EncodedSpecial(raw, text);
      LiteralParses(seg);
    }
  }

  lemma {:induction false} SaysOnWire(segs: seq<seq<Token>>, sent: map<Hole, string>, verb: string)
    requires GoodSegments(segs) && Covers(sent, segs) && (verb != "" && segs != [] ==> LastIsHole(segs))
    requires EachOctets(Says(segs, sent, verb)) && Apart(segs, Says(segs, sent, verb)) && LiteralsDecode(segs)
    ensures Written(segs, EscapeAll(PathCodec(), Says(segs, sent, verb)), sent, verb)
  {
    if segs != [] {
      var texts, own := Says(segs, sent, verb), if |segs| == 1 then verb else "";
      CoversHead(sent, segs);
      assert texts[1..] == Says(segs[1..], sent, verb);
      assert texts[0] in texts && forall t | t in texts[1..] :: t in texts;
      ApartCons(segs, texts);
      LiteralsDecodeCons(segs);
      if |segs| > 1 && LastIsHole(segs) { assert segs[1..][|segs| - 2] == segs[|segs| - 1]; }
      SaysOnWire(segs[1..], sent, verb);
      SegmentOnWire(segs[0], texts[0], sent, own);
      assert EscapeAll(PathCodec(), texts)[1..] == EscapeAll(PathCodec(), texts[1..]);
    }
  }

  lemma {:induction false} EscapeJoin(codec: Codec, texts: seq<string>)
    requires EachOctets(texts) && '/' in codec.safe
    ensures Octets(Join(texts, "/")) && EscapeText(codec, Join(texts, "/")) == Join(EscapeAll(codec, texts), "/")
  {
    if texts != [] {
      var rest := texts[1..];
      assert texts[0] in texts && forall t | t in rest :: t in texts;
      EscapeJoin(codec, rest);
      assert EscapeAll(codec, texts)[1..] == EscapeAll(codec, rest);
      if rest != [] { EscapeSlash(codec, texts[0], Join(rest, "/")); }
    }
  }

  lemma EscapeSlash(codec: Codec, a: string, b: string)
    requires Octets(a) && Octets(b) && '/' in codec.safe
    ensures Octets(a + "/" + b)
    ensures EscapeText(codec, a + "/" + b) == EscapeText(codec, a) + "/" + EscapeText(codec, b)
  {
    EscapeConcat(codec, a, "/");
    EscapeConcat(codec, a + "/", b);
    assert "/"[1..] == "" && EscapeText(codec, "/") == "/" + "";
  }

  lemma {:induction false} JoinOctets(texts: seq<string>)
    requires Octets(Join(texts, "/"))
    ensures EachOctets(texts)
  {
    if texts != [] {
      var rest := texts[1..];
      assert texts == [texts[0]] + rest;
      if rest != [] {
        assert Join(texts, "/") == (texts[0] + "/") + Join(rest, "/");
        OctetParts(texts[0] + "/", Join(rest, "/"));
        OctetParts(texts[0], "/");
      }
      JoinOctets(rest);
    }
  }

  lemma OctetParts(a: string, b: string)
    requires Octets(a + b)
    ensures Octets(a) && Octets(b)
  {
    assert forall i | 0 <= i < |a| :: (a + b)[i] == a[i];
    assert forall i | 0 <= i < |b| :: (a + b)[|a| + i] == b[i];
  }

  lemma VerbTokens(ct: seq<Token>, verb: string)
    requires AllInPath(ct) && PathBytes(verb)
    ensures AllInPath(ct + Chars(verb))
  {
    forall t | t in Chars(verb)
      ensures InPath(t)
    {
      var i :| 0 <= i < |verb| && Chars(verb)[i] == t;
      assert verb[i] in verb;
    }
  }

  lemma {:induction false} PathIsPathBytes(ct: seq<Token>, values: map<Hole, string>, sent: map<Hole, string>,
                                           verb: string)
    requires Sends(ct, values, sent, verb)
    ensures var all, path := ct + Chars(verb), ClientPath(GoCodec(), ct, values, verb);
      PathBytes(path) && "/" <= path && (AllRaw(path) <==> AllFilled(all, values) && RawLiterals(all))
  {
    var all := ct + Chars(verb);
    VerbTokens(ct, verb);
    VerbAddsNoHoles(ct, verb);
    TemplateBytes(all, values);
    PathIsTexts(ct, Escaped(GoCodec(), values), verb);
  }

  /** The default encoding of a client's path is that of its texts. */
  lemma {:induction false} ReencodedTexts(ct: seq<Token>, values: map<Hole, string>, sent: map<Hole, string>,
                                          verb: string)
    requires Sends(ct, values, sent, verb) && LiteralsDecode(SplitTokens(ct)[1..])
    ensures var says, path := Says(SplitTokens(ct)[1..], sent, verb), ClientPath(GoCodec(), ct, values, verb);
      && EachOctets(says) && Octets(Join(says, "/")) && Octets("/" + Join(says, "/"))
      && PathBytes(path) && Unescape(path).Text?
      && Reencoded(path) == EscapeText(PathCodec(), "/" + Join(says, "/"))
      && Reencoded(path) == "/" + Join(EscapeAll(PathCodec(), says), "/")
  {
    var says, path := Says(SplitTokens(ct)[1..], sent, verb), ClientPath(GoCodec(), ct, values, verb);
    PathDecodes(ct, values, sent, verb);
    PathIsPathBytes(ct, values, sent, verb);
    assert ParsePath(path).path == "/" + Join(says, "/");
    OctetParts("/", Join(says, "/"));
    JoinOctets(says);
    EscapeJoin(PathCodec(), says);
    EscapeSlash(PathCodec(), "", Join(says, "/"));
    SlashFirst(Join(says, "/"), EscapeText(PathCodec(), Join(says, "/")));
  }

  lemma SlashFirst(text: string, raw: string)
    ensures "" + "/" + text == "/" + text && "" + "/" + raw == "/" + raw
  {
  }

  lemma {:induction false} InnerIsOneText(segs: seq<seq<Token>>, texts: seq<string>, i: nat)
    requires GoodSegments(segs) && |segs| == |texts| && Apart(segs, texts) && i < |segs| - 1
    ensures '/' !in texts[i]
  {
    if i > 0 {
      ApartCons(segs, texts);
      InnerIsOneText(segs[1..], texts[1..], i - 1);
    } else {
      assert StandsApart(segs[0], texts[0]);
    }
  }

  lemma {:induction false} WireSplits(segs: seq<seq<Token>>, says: seq<string>)
    requires segs != [] && GoodSegments(segs) && |segs| == |says| && EachOctets(says) && Apart(segs, says)
    ensures var texts := EscapeAll(PathCodec(), says);
      Split("/" + Join(texts, "/"), '/') == [""] + Request(texts)
  {
    var texts := EscapeAll(PathCodec(), says);
    CodecsAreFaithful();
    forall i | 0 <= i < |texts| - 1
      ensures '/' !in texts[i]
    {
      InnerIsOneText(segs, says, i);
      EscapingEncodes(PathCodec(), says[i]);
      SlashFreeKeeps(texts[i], says[i]);
    }
    RequestOfTexts(texts);
    SplitPath(Join(texts, "/"));
  }

  /** When every text stays a segment, the path encoded anew is served like the one that was built. */
  lemma {:induction false} AlikeWhenApart(ct: seq<Token>, st: seq<Token>, values: map<Hole, string>,
                                          sent: map<Hole, string>, verb: string)
    requires Sends(ct, values, sent, verb) && LiteralsDecode(SplitTokens(ct)[1..])
    requires Routable(st) && SameShape(SplitTokens(ct)[1..], SplitTokens(st)[1..])
    requires Apart(SplitTokens(ct)[1..], Says(SplitTokens(ct)[1..], sent, verb))
    ensures var path := ClientPath(GoCodec(), ct, values, verb);
      && PathBytes(path) && Unescape(path).Text?
      && Serve(Show(st), Reencoded(path)) == Serve(Show(st), path)
  {
    var cs := SplitTokens(ct)[1..];
    var says := Says(cs, sent, verb);
    RoundTrip.LastOfTail(ct);
    ReencodedTexts(ct, values, sent, verb);
    SaysOnWire(cs, sent, verb);
    WireSplits(cs, says);
    WrittenIsServed(ct, st, EscapeAll(PathCodec(), says), sent, verb,
                    Reencoded(ClientPath(GoCodec(), ct, values, verb)));
    CodecsAreValid();
    ServedExactlyWhenServable(GoCodec(), ct, st, values, sent, verb);
  }

  // ---- counting the segments of the request ----

  lemma {:induction false} JoinEncodes(raws: seq<string>, paths: seq<string>)
    requires EachEncodes(raws, paths)
    ensures Encodes(Join(raws, "/"), Join(paths, "/"))
  {
    if |raws| == 1 {
      assert Encodes(raws[0], paths[0]);
    } else if |raws| > 1 {
      assert EachEncodes(raws[1..], paths[1..]);
      JoinEncodes(raws[1..], paths[1..]);
      assert "/"[1..] == "" && Encodes("/", "/");
      EncodingsJoin(raws[0], paths[0], "/", "/");
      EncodingsJoin(raws[0] + "/", paths[0] + "/", Join(raws[1..], "/"), Join(paths[1..], "/"));
    }
  }

  /** What the rest of an encoded request says has as many parts. */
  lemma {:induction false} RestDecodes(raws: seq<string>, paths: seq<string>, k: nat)
    requires EachEncodes(raws, paths) && k < |raws| && forall p | p in paths :: '/' !in p
    ensures |Split(DecodeSegment(Join(raws[k..], "/")), '/')| == |raws| - k
  {
    assert EachEncodes(raws[k..], paths[k..]);
    JoinEncodes(raws[k..], paths[k..]);
    EncodingDecodes(Join(raws[k..], "/"), Join(paths[k..], "/"));
    assert forall p | p in paths[k..] :: p in paths;
    SplitAfterJoin(paths[k..], '/');
  }

  /** Each text but a last one that takes the rest of the path is one segment. */
  predicate OneSegmentEach(segs: seq<seq<Token>>, texts: seq<string>)
    requires |segs| == |texts|
  {
    forall i | 0 <= i < |segs| && (i < |segs| - 1 || !EndsInRest(segs)) :: '/' !in texts[i]
  }

  lemma {:induction false} CountedIsOneEach(segs: seq<seq<Token>>, texts: seq<string>, count: nat)
    requires segs != [] && |segs| == |texts| && count == PartCount(texts, '/')
    requires count == |segs| - 1 + if EndsInRest(segs) then |Split(texts[|texts| - 1], '/')| else 1
    ensures OneSegmentEach(segs, texts)
  {
    var n := |segs| - 1;
    if EndsInRest(segs) {
      LastPartCount(texts, '/');
      OnePartEach(texts[..n], '/');
      assert forall i | 0 <= i < n :: texts[..n][i] == texts[i];
    } else {
      OnePartEach(texts, '/');
    }
  }

  /** A clean request holds no literal that says "." or "..". */
  lemma {:induction false} CleanIsApart(segs: seq<seq<Token>>, says: seq<string>, request: seq<string>)
    requires segs != [] && |segs| == |says| && OneSegmentEach(segs, says)
    requires CleanSegments(request) && EachEncodes(request, Split(Join(says, "/"), '/'))
    ensures Apart(segs, says)
  {
    RequestOfTexts(says);
    forall i | 0 <= i < |segs|
      ensures StandsApart(segs[i], says[i])
    {
      if !IsHole(segs[i]) || !segs[i][0].hole.rest {
        assert i < |segs| - 1 || !EndsInRest(segs);
        RequestAt(says, i);
        EncodedSpecial(request[i], says[i]);
      }
    }
  }

  lemma {:induction false} WireParts(says: seq<string>)
    requires says != [] && Octets("/" + Join(says, "/"))
    ensures var parts, raws := Split(Join(says, "/"), '/'), Split(EscapeText(PathCodec(), "/" + Join(says, "/")), '/');
      && raws == [""] + raws[1..] && EachEncodes(raws[1..], parts) && |parts| == PartCount(says, '/')
  {
    var text := "/" + Join(says, "/");
    var raw := EscapeText(PathCodec(), text);
    CodecsAreFaithful();
    EscapingKeepsSlashes(PathCodec(), text);
    PartsEncode(raw, text);
    SplitPath(Join(says, "/"));
    var raws := Split(raw, '/');
    assert Encodes(raws[0], Split(text, '/')[0]);
    assert raws == [raws[0]] + raws[1..];
    JoinParts(says, '/');
  }

  lemma {:induction false} ServedCounts(st: seq<Token>, path: string, request: seq<string>)
    requires Routable(st) && Split(path, '/') == [""] + request && request != []
    requires Serve(Show(st), path).Captured?
    ensures CleanSegments(request) && Counted(SplitTokens(st)[1..], request, Serve(Show(st), path).values)
  {
    var ss := SplitTokens(st)[1..];
    RegisteredSegments(st);
    ServeSplit(Show(st), path, ParseSegments(ShowAll(ss)), request);
    MatchCounts(ss, request);
  }

  /** The last value captured has as many segments as what was sent for it, if it takes the rest. */
  predicate SameRestParts(segs: seq<seq<Token>>, says: seq<string>, captured: seq<string>)
    requires |segs| == |says|
  {
    EndsInRest(segs) ==>
      captured != [] && |Split(captured[|captured| - 1], '/')| == |Split(says[|segs| - 1], '/')|
  }

  lemma {:induction false} CountedIsApart(cs: seq<seq<Token>>, ss: seq<seq<Token>>, says: seq<string>,
                                          request: seq<string>, captured: seq<string>)
    requires SameShape(cs, ss) && |cs| == |says| && Counted(ss, request, captured) && CleanSegments(request)
    requires EachEncodes(request, Split(Join(says, "/"), '/')) && |request| == PartCount(says, '/')
    requires SameRestParts(cs, says, captured)
    ensures Apart(cs, says)
  {
    SameShapeSameEnd(cs, ss);
    if EndsInRest(cs) { RestDecodes(request, Split(Join(says, "/"), '/'), |cs| - 1); }
    CountedIsOneEach(cs, says, PartCount(says, '/'));
    CleanIsApart(cs, says, request);
  }

  /** A path encoded anew that is served, the rest of it with as many segments as were sent, had a
      segment for every text: nothing that was escaped as a slash came apart. */
  lemma {:induction false} ApartWhenServed(ct: seq<Token>, st: seq<Token>, values: map<Hole, string>,
                                           sent: map<Hole, string>, verb: string)
    requires Sends(ct, values, sent, verb) && LiteralsDecode(SplitTokens(ct)[1..])
    requires Routable(st) && SameShape(SplitTokens(ct)[1..], SplitTokens(st)[1..])
    requires var path := ClientPath(GoCodec(), ct, values, verb);
      PathBytes(path) && Unescape(path).Text? && Serve(Show(st), Reencoded(path)).Captured?
    requires var cs, served := SplitTokens(ct)[1..],
      Serve(Show(st), Reencoded(ClientPath(GoCodec(), ct, values, verb)));
      SameRestParts(cs, Says(cs, sent, verb), served.values)
    ensures Apart(SplitTokens(ct)[1..], Says(SplitTokens(ct)[1..], sent, verb))
  {
    var cs, ss := SplitTokens(ct)[1..], SplitTokens(st)[1..];
    var says, wire := Says(cs, sent, verb), Reencoded(ClientPath(GoCodec(), ct, values, verb));
    ReencodedTexts(ct, values, sent, verb);
    WireParts(says);
    var request := Split(wire, '/')[1..];
    ServedCounts(st, wire, request);
    CountedIsApart(cs, ss, says, request, Serve(Show(st), wire).values);
  }
}
