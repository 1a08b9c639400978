/** The pattern texts the theorems are about, written by a grammar: the path templates of
    google.api.HttpRule (AIP-127) with whole-segment wildcards. What the Go plugin makes of such a
    text, and when it is one of the supported patterns. */
module Grammar {
  import opened Text
  import opened Template
  import opened ServeMux
  import opened Routing
  import opened Patterns
  import opened Fields
  import opened RoundTrip
  import Agreement
  import Decimal

  /** A segment inside a variable's braces. */
  datatype Element = Lit(text: string) | Star

  /** A segment of the template: literal text, {field}, or {field=a/star/b}. */
  datatype Part = Literally(text: string) | Bare(fieldPath: string) | Bound(fieldPath: string, path: seq<Element>)

  datatype Rule = Rule(parts: seq<Part>, verb: string)

  // ---- the text ----

  function ElementText(e: Element): string { if e.Star? then "*" else e.text }

  function ElementTexts(path: seq<Element>): (texts: seq<string>)
    ensures |texts| == |path|
  {
    if path == [] then [] else [ElementText(path[0])] + ElementTexts(path[1..])
  }

  function PathText(path: seq<Element>): string { Join(ElementTexts(path), "/") }

  /** What stands between the braces. */
  function Inside(p: Part): string
    requires !p.Literally?
  {
    if p.Bare? then p.fieldPath else p.fieldPath + "=" + PathText(p.path)
  }

  function WritePart(p: Part): string { if p.Literally? then p.text else "{" + Inside(p) + "}" }

  function WriteParts(parts: seq<Part>): string {
    if parts == [] then "" else "/" + WritePart(parts[0]) + WriteParts(parts[1..])
  }

  function Write(r: Rule): string { WriteParts(r.parts) + r.verb }

  // ---- which texts ----

  predicate GoodLiteral(text: string) {
    text != "" && !IsDots(text) && forall c | c in text :: c != '{' && c != '}' && c != '/'
  }

  predicate GoodElement(e: Element) { e.Lit? ==> GoodLiteral(e.text) && '*' !in e.text }

  predicate GoodField(fieldPath: string) {
    && fieldPath != "" && '=' !in fieldPath && BraceFree(fieldPath)
    && PlainName(LastSegment(fieldPath))
  }

  predicate GoodPath(path: seq<Element>) { Star in path && forall e | e in path :: GoodElement(e) }

  predicate GoodPart(p: Part) {
    match p
    case Literally(text) => GoodLiteral(text)
    case Bare(fieldPath) => GoodField(fieldPath)
    case Bound(fieldPath, path) => GoodField(fieldPath) && GoodPath(path)
  }

  predicate GoodParts(parts: seq<Part>) { forall p | p in parts :: GoodPart(p) }

  function SpecOf(p: Part): (v: VarSpec)
    requires !p.Literally?
    ensures v.Valid()
  {
    if p.Bare? then VarSpec(p.fieldPath, [""]) else VarSpec(p.fieldPath, Split(PathText(p.path), '*'))
  }

  function PartNames(p: Part): seq<string> {
    if p.Literally? then [] else FieldOf(SpecOf(p), "").names
  }

  function NamesOf(parts: seq<Part>): seq<string> {
    if parts == [] then [] else PartNames(parts[0]) + NamesOf(parts[1..])
  }

  predicate GoodRule(r: Rule) {
    r.parts != [] && GoodParts(r.parts) && GoodVerb(r.verb) && Distinct(NamesOf(r.parts))
  }

  // ---- what the parser makes of it ----

  function Reparse(parts: seq<Part>, verb: string): Parsed {
    if parts == [] then Parsed([], Chars(verb), "")
    else
      var p, rest := parts[0], Reparse(parts[1..], verb);
      if p.Literally? then rest.(tokens := [Ch('/')] + (Chars(p.text) + rest.tokens))
      else if |parts| == 1 && p.Bound? && verb != "" then
        Parsed(GoVars(SpecOf(p), verb), [Ch('/')] + VarTokens(SpecOf(p), true, verb), verb)
      else
        Parsed(GoVars(SpecOf(p), "") + rest.vars,
               [Ch('/')] + (VarTokens(SpecOf(p), |parts| == 1 && verb == "", "") + rest.tokens), rest.verb)
  }

  lemma GoFromCons(c: char, s: string)
    requires c != '{'
    ensures GoFrom([c] + s, "") == GoFrom(s, "").(tokens := [Ch(c)] + GoFrom(s, "").tokens)
  {
    assert ([c] + s)[0] == c && ([c] + s)[1..] == s;
  }

  lemma {:induction false} GoFromText(text: string, s: string)
    requires '{' !in text
    ensures GoFrom(text + s, "") == GoFrom(s, "").(tokens := Chars(text) + GoFrom(s, "").tokens)
  {
    var ts := GoFrom(s, "").tokens;
    if text == "" {
      assert text + s == s && Chars(text) + ts == ts;
    } else {
      var more := text[1..];
      assert text[0] in text && forall c | c in more :: c in text;
      GoFromText(more, s);
      GoFromCons(text[0], more + s);
      ConsConcat(text, s);
      CharsCons(text);
      Assoc([Ch(text[0])], Chars(more), ts);
    }
  }

  /** The braces of a variable, and what stands between them. */
  lemma {:induction false} ReadWritten(p: Part, after: string)
    requires GoodPart(p) && !p.Literally?
    ensures AtGroup(WritePart(p) + after) && ReadGroup(WritePart(p) + after) == Group(SpecOf(p), after)
  {
    var inside := Inside(p);
    InsideIsBraceFree(p);
    var s := WritePart(p) + after;
    assert s == ("{" + inside) + ['}'] + after;
    BeforeOfSum("{" + inside, '}', after);
    assert ("{" + inside)[1..] == inside && s[|inside| + 1] == '}';
    assert s[|inside| + 2..] == after;
    ParseInside(p);
  }

  lemma {:induction false} InsideIsBraceFree(p: Part)
    requires GoodPart(p) && !p.Literally?
    ensures BraceFree(Inside(p)) && '}' !in "{" + Inside(p)
  {
    if p.Bound? { PathTextIsBraceFree(p.path); }
  }

  lemma {:induction false} PathTextIsBraceFree(path: seq<Element>)
    requires forall e | e in path :: GoodElement(e)
    ensures BraceFree(PathText(path))
  {
    if |path| > 0 {
      assert path[0] in path && forall e | e in path[1..] :: e in path;
      PathTextIsBraceFree(path[1..]);
      PathTextCons(path);
    }
  }

  lemma PathTextCons(path: seq<Element>)
    requires path != []
    ensures PathText(path) == if |path| == 1 then ElementText(path[0])
      else ElementText(path[0]) + "/" + PathText(path[1..])
  {
    var texts := ElementTexts(path);
    assert texts[0] == ElementText(path[0]) && texts[1..] == ElementTexts(path[1..]);
  }

  lemma {:induction false} ParseInside(p: Part)
    requires GoodPart(p) && !p.Literally?
    ensures ParsePlaceholder(Inside(p)) == SpecOf(p)
  {
    if p.Bare? {
      NoCut(p.fieldPath, '=');
    } else {
      CutAtChar(p.fieldPath, '=', PathText(p.path));
    }
  }

  lemma {:induction false} NoCut(s: string, c: char)
    requires c !in s
    ensures IndexOf(s, [c]) == -1
  {
    if s != "" {
      assert s[0] in s && forall x | x in s[1..] :: x in s;
      NoCut(s[1..], c);
    }
  }

  lemma {:induction false} CutAtChar(before: string, c: char, after: string)
    requires c !in before
    ensures CutAt(before + [c] + after, [c]) == Cut(before, after, true)
  {
    var s := before + [c] + after;
    IndexOfChar(before, c, after);
    assert s[..|before|] == before && s[|before| + 1..] == after;
  }

  lemma {:induction false} IndexOfChar(before: string, c: char, after: string)
    requires c !in before
    ensures IndexOf(before + [c] + after, [c]) == |before|
  {
    var s := before + [c] + after;
    if before == "" {
      assert s == [c] + after;
    } else {
      assert s[0] == before[0] && before[0] in before && s[1..] == before[1..] + [c] + after;
      assert !([c] <= s);
      IndexOfChar(before[1..], c, after);
    }
  }

  /** A bound variable has a wildcard. */
  lemma {:induction false} BoundHasWildcard(path: seq<Element>)
    requires Star in path
    ensures '*' in PathText(path) && |Split(PathText(path), '*')| >= 2
  {
    PathTextCons(path);
    assert path == [path[0]] + path[1..];
    if path[0].Star? { assert PathText(path)[0] == '*'; } else { BoundHasWildcard(path[1..]); }
    MoreParts(PathText(path), '*');
  }

  lemma {:induction false} MoreParts(s: string, c: char)
    requires c in s
    ensures |Split(s, c)| >= 2
  {
    if s[0] != c { MoreParts(s[1..], c); }
  }

  /** What follows a part: another part, the verb, or nothing. */
  lemma {:induction false} AfterPart(parts: seq<Part>, verb: string)
    requires GoodParts(parts) && GoodVerb(verb)
    ensures var after := WriteParts(parts) + verb;
      && after != "/" && (after == "" <==> parts == [] && verb == "")
      && (":" <= after <==> parts == [] && verb != "")
  {
    var after := WriteParts(parts) + verb;
    if parts == [] {
      assert after == verb;
      if verb != "" { assert verb[..1] == ":"; }
    } else {
      assert parts[0] in parts && WritePart(parts[0]) != "";
      assert after[0] == '/' && |after| > 1;
    }
  }

  /** The verb the parser knows after a variable, and the text it goes on with. */
  lemma {:induction false} VerbAtPart(p: Part, rest: seq<Part>, verb: string)
    requires GoodPart(p) && !p.Literally? && GoodParts(rest) && GoodVerb(verb)
    ensures var after, taken := WriteParts(rest) + verb, rest == [] && p.Bound? && verb != "";
      && VerbAfter(SpecOf(p), after, "") == (if taken then verb else "")
      && SkipVerb(after, if taken then verb else "") == (if taken then "" else after)
      && (GoAtEnd(after, if taken then verb else "") <==> taken || (rest == [] && verb == ""))
  {
    var after := WriteParts(rest) + verb;
    AfterPart(rest, verb);
    if p.Bound? { BoundHasWildcard(p.path); }
    if rest == [] { assert after == verb; }
    assert verb != "" ==> Before(verb, '/') == verb && SkipVerb(verb, verb) == "";
    assert SkipVerb(after, "") == after;
  }

  lemma GroupParses(s: string, v: VarSpec, after: string, newVerb: string, r: Parsed)
    requires AtGroup(s) && ReadGroup(s) == Group(v, after) && newVerb == VerbAfter(v, after, "")
    requires r == GoFrom(SkipVerb(after, newVerb), newVerb)
    ensures v.Valid()
    ensures GoFrom(s, "")
      == Parsed(GoVars(v, newVerb) + r.vars, VarTokens(v, GoAtEnd(after, newVerb), newVerb) + r.tokens, r.verb)
  {
  }

  lemma {:induction false} ReparseVar(p: Part, rest: seq<Part>, verb: string)
    requires GoodPart(p) && !p.Literally? && GoodParts(rest) && GoodVerb(verb)
    requires GoFrom(WriteParts(rest) + verb, "") == Reparse(rest, verb)
    ensures var s := WritePart(p) + (WriteParts(rest) + verb);
      GoFrom(s, "") ==
        if rest == [] && p.Bound? && verb != "" then
            Parsed(GoVars(SpecOf(p), verb), VarTokens(SpecOf(p), true, verb), verb)
        else Parsed(GoVars(SpecOf(p), "") + Reparse(rest, verb).vars,
                    VarTokens(SpecOf(p), rest == [] && verb == "", "") + Reparse(rest, verb).tokens,
                    Reparse(rest, verb).verb)
  {
    var after, v := WriteParts(rest) + verb, SpecOf(p);
    ReadWritten(p, after);
    VerbAtPart(p, rest, verb);
    if rest == [] && p.Bound? && verb != "" {
      GroupParses(WritePart(p) + after, v, after, verb, Parsed([], [], verb));
      NothingMore(GoVars(v, verb), VarTokens(v, true, verb));
    } else {
      GroupParses(WritePart(p) + after, v, after, "", Reparse(rest, verb));
    }
  }

  lemma NothingMore(vars: seq<PathVar>, ts: seq<Token>)
    ensures vars + [] == vars && ts + [] == ts
  {
  }

  /** The parse of every text the grammar writes. */
  lemma {:induction false} ReparseIs(parts: seq<Part>, verb: string)
    requires GoodParts(parts) && GoodVerb(verb)
    ensures GoFrom(WriteParts(parts) + verb, "") == Reparse(parts, verb)
  {
    if parts == [] {
      GoFromText(verb, "");
      assert "" + verb == verb && verb + "" == verb && Chars(verb) + [] == Chars(verb);
    } else {
      var p, rest := parts[0], parts[1..];
      assert p in parts && forall q | q in rest :: q in parts;
      ReparseIs(rest, verb);
      WrittenFirst(parts, verb);
      GoFromCons('/', WritePart(p) + (WriteParts(rest) + verb));
      if p.Literally? { ReparseLiteral(parts, verb); } else { ReparseVariable(parts, verb); }
    }
  }

  lemma WrittenFirst(parts: seq<Part>, verb: string)
    requires parts != []
    ensures WriteParts(parts) + verb == ['/'] + (WritePart(parts[0]) + (WriteParts(parts[1..]) + verb))
  {
  }

  lemma {:induction false} ReparseLiteral(parts: seq<Part>, verb: string)
    requires parts != [] && GoodPart(parts[0]) && parts[0].Literally?
    requires GoFrom(WriteParts(parts[1..]) + verb, "") == Reparse(parts[1..], verb)
    ensures var r := GoFrom(WritePart(parts[0]) + (WriteParts(parts[1..]) + verb), "");
      r.(tokens := [Ch('/')] + r.tokens) == Reparse(parts, verb)
  {
    GoFromText(parts[0].text, WriteParts(parts[1..]) + verb);
  }

  lemma {:induction false} ReparseVariable(parts: seq<Part>, verb: string)
    requires parts != [] && GoodParts(parts[1..]) && GoodVerb(verb) && GoodPart(parts[0]) && !parts[0].Literally?
    requires GoFrom(WriteParts(parts[1..]) + verb, "") == Reparse(parts[1..], verb)
    ensures var r := GoFrom(WritePart(parts[0]) + (WriteParts(parts[1..]) + verb), "");
      r.(tokens := [Ch('/')] + r.tokens) == Reparse(parts, verb)
  {
    ReparseVar(parts[0], parts[1..], verb);
    assert |parts| == 1 <==> parts[1..] == [];
  }

  lemma WriteParses(r: Rule)
    requires GoodParts(r.parts) && GoodVerb(r.verb)
    ensures GoParse(Write(r)) == Reparse(r.parts, r.verb)
  {
    ReparseIs(r.parts, r.verb);
  }

  /** A verb at the end is taken off exactly when the last part is a variable with a wildcard. */
  lemma {:induction false} VerbIsTakenOffExactly(r: Rule)
    requires GoodRule(r) && r.verb != ""
    ensures GoParse(Write(r)).verb == r.verb <==> r.parts[|r.parts| - 1].Bound?
    ensures !r.parts[|r.parts| - 1].Bound? ==> GoParse(Write(r)).verb == ""
  {
    WriteParses(r);
    VerbOfReparse(r.parts, r.verb);
  }

  lemma {:induction false} VerbOfReparse(parts: seq<Part>, verb: string)
    requires parts != []
    ensures Reparse(parts, verb).verb == if parts[|parts| - 1].Bound? then verb else ""
  {
    if |parts| > 1 {
      VerbOfMore(parts, verb);
      VerbOfReparse(parts[1..], verb);
    } else {
      assert parts[1..] == [];
    }
  }

  lemma VerbOfMore(parts: seq<Part>, verb: string)
    requires |parts| > 1
    ensures parts[1..][|parts[1..]| - 1] == parts[|parts| - 1]
    ensures Reparse(parts, verb).verb == Reparse(parts[1..], verb).verb
  {
  }

  // ---- the tokens of a variable ----

  /** `text` with a placeholder for every star, numbered from k. */
  function StarTokens(text: string, name: string, k: nat): seq<Token> {
    if text == "" then []
    else if text[0] == '*' then [Var(Hole(SubName(name, k), false))] + StarTokens(text[1..], name, k + 1)
    else [Ch(text[0])] + StarTokens(text[1..], name, k)
  }

  /** The same from the texts between the stars. */
  function Walk(name: string, texts: seq<string>, k: nat): seq<Token>
    requires texts != []
  {
    Chars(texts[0]) +
    if |texts| == 1 then [] else [Var(Hole(SubName(name, k), false))] + Walk(name, texts[1..], k + 1)
  }

  lemma {:induction false} WalkIsStars(text: string, name: string, k: nat)
    ensures Walk(name, Split(text, '*'), k) == StarTokens(text, name, k)
  {
    if text == "" {
      assert Chars("") + [] == [];
    } else if text[0] == '*' {
      var rest := Split(text[1..], '*');
      WalkIsStars(text[1..], name, k + 1);
      assert ([""] + rest)[1..] == rest && Chars("") == [];
      assert [] + ([Var(Hole(SubName(name, k), false))] + Walk(name, rest, k + 1))
        == [Var(Hole(SubName(name, k), false))] + Walk(name, rest, k + 1);
    } else {
      var rest := Split(text[1..], '*');
      WalkIsStars(text[1..], name, k);
      WalkCons(text[0], rest, name, k);
    }
  }

  lemma WalkCons(c: char, texts: seq<string>, name: string, k: nat)
    requires texts != []
    ensures Walk(name, [[c] + texts[0]] + texts[1..], k) == [Ch(c)] + Walk(name, texts, k)
  {
    var all := [[c] + texts[0]] + texts[1..];
    assert all[0] == [c] + texts[0] && all[1..] == texts[1..];
    CharsCons([c] + texts[0]);
    assert ([c] + texts[0])[1..] == texts[0];
    var tail := if |texts| == 1 then [] else [Var(Hole(SubName(name, k), false))] + Walk(name, texts[1..], k + 1);
    Assoc([Ch(c)], Chars(texts[0]), tail);
  }

  /** The plugin's loop over the wildcards writes the same. */
  lemma {:induction false} MultiIsWalk(name: string, texts: seq<string>, k: nat, left: seq<string>)
    requires |texts| >= 2 && k < |texts| - 1 && |left| == |texts| - k
    requires forall j | 0 <= j < |left| :: left[j] == texts[k + j]
    ensures Chars(texts[k]) + (MultiTokens(name, texts, k) + Chars(texts[|texts| - 1])) == Walk(name, left, k)
    decreases |left|
  {
    var hole := [Var(Hole(SubName(name, k), false))];
    var last := Chars(texts[|texts| - 1]);
    assert left[0] == texts[k];
    if k + 2 == |texts| {
      assert MultiTokens(name, texts, k) == hole + [];
      assert left[1..] == [texts[k + 1]];
      assert Walk(name, left[1..], k + 1) == last + [] && last + [] == last && hole + [] == hole;
    } else {
      MultiIsWalk(name, texts, k + 1, left[1..]);
      var more := MultiTokens(name, texts, k + 1);
      Assoc(hole, Chars(texts[k + 1]) + more, last);
      Assoc(Chars(texts[k + 1]), more, last);
    }
  }

  // ---- the segments of a variable ----

  /** One segment per element, a placeholder for each star. */
  function ElementSegs(path: seq<Element>, name: string, k: nat): seq<seq<Token>> {
    if path == [] then []
    else if path[0].Star? then [[Var(Hole(SubName(name, k), false))]] + ElementSegs(path[1..], name, k + 1)
    else [Chars(path[0].text)] + ElementSegs(path[1..], name, k)
  }

  /** The segments up to the first star, which becomes `hole`. */
  function SegsToHole(path: seq<Element>, hole: Hole): seq<seq<Token>> {
    if path == [] then []
    else if path[0].Star? then [[Var(hole)]]
    else [Chars(path[0].text)] + SegsToHole(path[1..], hole)
  }

  function PartSegs(p: Part, last: bool): seq<seq<Token>> {
    match p
    case Literally(text) => [Chars(text)]
    case Bare(_) => [[Var(Hole(SpecOf(p).Name(), false))]]
    case Bound(_, path) =>
      var v := SpecOf(p);
      if v.IsMulti() then ElementSegs(path, v.Name(), 0) else SegsToHole(path, Hole(v.Name(), v.IsRest() && last))
  }

  function PartTokens(p: Part, last: bool): seq<Token> {
    if p.Literally? then Chars(p.text) else VarTokens(SpecOf(p), last, "")
  }

  lemma {:induction false} SplitTokensSum(a: seq<Token>, b: seq<Token>)
    ensures SplitTokens(a + ([Ch('/')] + b)) == SplitTokens(a) + SplitTokens(b)
  {
    var slash := [Ch('/')] + b;
    if a == [] {
      assert a + slash == slash && slash[0] == Ch('/') && slash[1..] == b;
    } else {
      ConsConcat(a, slash);
      SplitTokensSum(a[1..], b);
      var x, y := SplitTokens(a[1..]), SplitTokens(b);
      assert (x + y)[0] == x[0] && (x + y)[1..] == x[1..] + y;
      if a[0] == Ch('/') {
        Assoc([[]], x, y);
      } else {
        Assoc([[a[0]] + x[0]], x[1..], y);
      }
    }
  }

  lemma {:induction false} StarTokensSum(a: string, b: string, name: string, k: nat)
    requires '*' !in a
    ensures StarTokens(a + b, name, k) == Chars(a) + StarTokens(b, name, k)
  {
    if a == "" {
      assert a + b == b && Chars(a) == [] && [] + StarTokens(b, name, k) == StarTokens(b, name, k);
    } else {
      assert a[0] in a && forall c | c in a[1..] :: c in a;
      ConsConcat(a, b);
      StarTokensSum(a[1..], b, name, k);
      CharsCons(a);
      Assoc([Ch(a[0])], Chars(a[1..]), StarTokens(b, name, k));
    }
  }

  lemma OneVar(h: Hole)
    ensures SplitTokens([Var(h)]) == [[Var(h)]]
  {
    var rest := SplitTokens([]);
    assert [Var(h)][1..] == [] && rest == [[]] && rest[1..] == [];
    assert [Var(h)] + rest[0] == [Var(h)];
  }

  lemma {:induction false} OneElementSplits(e: Element, name: string, k: nat)
    requires GoodElement(e)
    ensures SplitTokens(StarTokens(ElementText(e), name, k)) == ElementSegs([e], name, k)
  {
    assert [e][1..] == [];
    if e.Star? {
      var hole := Var(Hole(SubName(name, k), false));
      assert "*"[1..] == "" && [hole] + [] == [hole];
      assert StarTokens("*", name, k) == [hole];
      OneVar(hole.hole);
    } else {
      StarTokensSum(e.text, "", name, k);
      assert e.text + "" == e.text && Chars(e.text) + [] == Chars(e.text);
      SplitTokensOfText(e.text);
    }
  }

  /** A path with all its stars splits into one segment per element. */
  lemma {:induction false} StarsSplit(path: seq<Element>, name: string, k: nat)
    requires path != [] && forall e | e in path :: GoodElement(e)
    ensures SplitTokens(StarTokens(PathText(path), name, k)) == ElementSegs(path, name, k)
    decreases |path|
  {
    PathTextCons(path);
    var e, rest := path[0], path[1..];
    assert e in path && forall x | x in rest :: x in path;
    if |path| == 1 {
      assert path == [e];
      OneElementSplits(e, name, k);
    } else if e.Star? {
      StarsSplit(rest, name, k + 1);
      StarSlash(PathText(rest), name, k);
      SplitTokensSum([Var(Hole(SubName(name, k), false))], StarTokens(PathText(rest), name, k + 1));
      OneVar(Hole(SubName(name, k), false));
    } else {
      StarsSplit(rest, name, k);
      LitSlash(e.text, PathText(rest), name, k);
      SplitTokensSum(Chars(e.text), StarTokens(PathText(rest), name, k));
      SplitTokensOfText(e.text);
    }
  }

  lemma LitSlash(lit: string, text: string, name: string, k: nat)
    requires '*' !in lit
    ensures StarTokens(lit + "/" + text, name, k) == Chars(lit) + ([Ch('/')] + StarTokens(text, name, k))
  {
    var t := "/" + text;
    assert t[1..] == text && lit + "/" + text == lit + t;
    StarTokensSum(lit, t, name, k);
  }

  lemma StarSlash(text: string, name: string, k: nat)
    ensures StarTokens("*" + "/" + text, name, k)
      == [Var(Hole(SubName(name, k), false))] + ([Ch('/')] + StarTokens(text, name, k + 1))
  {
    var s := "*" + "/" + text;
    assert s[0] == '*' && s[1..] == "/" + text && ("/" + text)[1..] == text;
  }

  /** The text in front of the first star. */
  lemma {:induction false} SegsBeforeHole(path: seq<Element>, hole: Hole)
    requires Star in path && forall e | e in path :: GoodElement(e)
    ensures SplitTokens(Chars(Split(PathText(path), '*')[0]) + [Var(hole)]) == SegsToHole(path, hole)
  {
    PathTextCons(path);
    var e, rest := path[0], path[1..];
    assert path == [e] + rest && e in path && forall x | x in rest :: x in path;
    if e.Star? {
      assert PathText(path)[0] == '*';
      assert Chars("") + [Var(hole)] == [Var(hole)];
      OneVar(hole);
    } else {
      SegsBeforeHole(rest, hole);
      var before := Split(PathText(rest), '*')[0];
      SplitPastText(e.text + "/", PathText(rest), '*');
      assert PathText(path) == (e.text + "/") + PathText(rest);
      CharsOfPath(e.text, before);
      Assoc(Chars(e.text), [Ch('/')] + Chars(before), [Var(hole)]);
      Assoc([Ch('/')], Chars(before), [Var(hole)]);
      SplitTokensSum(Chars(e.text), Chars(before) + [Var(hole)]);
      SplitTokensOfText(e.text);
    }
  }

  lemma CharsOfPath(a: string, b: string)
    ensures Chars(a + "/" + b) == Chars(a) + ([Ch('/')] + Chars(b))
  {
  }

  /** Text without the separator goes into the first part. */
  lemma {:induction false} SplitPastText(a: string, s: string, c: char)
    requires c !in a
    ensures Split(a + s, c) == [a + Split(s, c)[0]] + Split(s, c)[1..]
  {
    var rest := Split(s, c);
    if a == "" {
      assert a + s == s && a + rest[0] == rest[0];
    } else {
      assert a[0] in a && forall x | x in a[1..] :: x in a;
      ConsConcat(a, s);
      SplitPastText(a[1..], s, c);
      var head := a[1..] + rest[0];
      assert ([head] + rest[1..])[0] == head && ([head] + rest[1..])[1..] == rest[1..];
      assert [a[0]] + head == a + rest[0];
    }
  }
  /** The texts after the stars: nothing at the end, or text that begins with a slash. */
  predicate SlashAfterStar(texts: seq<string>) {
    forall i | 0 < i < |texts| :: if texts[i] == "" then i == |texts| - 1 else texts[i][0] == '/'
  }

  predicate EndsWithStar(path: seq<Element>) { path != [] && path[|path| - 1].Star? }

  lemma {:induction false} OneText(e: Element)
    requires GoodElement(e)
    ensures Split(ElementText(e), '*') == if e.Star? then ["", ""] else [e.text]
  {
    if e.Star? {
      SplitWhole("", '*');
      SplitCons('*', "", '*');
      assert "*" == ['*'] + "";
    } else {
      SplitWhole(e.text, '*');
    }
  }

  lemma {:induction false} MoreTexts(e: Element, text: string)
    requires GoodElement(e)
    ensures var more := Split(text, '*');
      Split(ElementText(e) + "/" + text, '*')
      == if e.Star? then [""] + (["/" + more[0]] + more[1..]) else [e.text + "/" + more[0]] + more[1..]
  {
    if e.Star? {
      SplitPastText("/", text, '*');
      assert "*" + "/" + text == ['*'] + ("/" + text);
      SplitCons('*', "/" + text, '*');
    } else {
      SplitPastText(e.text + "/", text, '*');
    }
  }

  /** What TextsAfterStars says of the texts of a path. */
  predicate StarTexts(texts: seq<string>, endsWithStar: bool) {
    texts != [] && SlashAfterStar(texts) && (endsWithStar <==> |texts| > 1 && texts[|texts| - 1] == "")
  }

  lemma {:induction false} TextsAfterStars(path: seq<Element>)
    requires path != [] && forall e | e in path :: GoodElement(e)
    ensures StarTexts(Split(PathText(path), '*'), EndsWithStar(path))
  {
    PathTextCons(path);
    var e, rest := path[0], path[1..];
    assert e in path && forall x | x in rest :: x in path;
    if |path| == 1 {
      OneText(e);
    } else {
      TextsAfterStars(rest);
      assert path[|path| - 1] == rest[|rest| - 1];
      MoreTexts(e, PathText(rest));
      MoreStarTexts(e, Split(PathText(rest), '*'), EndsWithStar(rest));
    }
  }

  lemma MoreStarTexts(e: Element, more: seq<string>, ends: bool)
    requires StarTexts(more, ends) && GoodElement(e)
    ensures StarTexts(if e.Star? then [""] + (["/" + more[0]] + more[1..])
      else [e.text + "/" + more[0]] + more[1..], ends)
  {
    if e.Star? { TextsAfterSlash(more); } else { TextsAfterLiteral(e.text + "/", more); }
  }

  lemma TextsAfterSlash(more: seq<string>)
    requires more != [] && SlashAfterStar(more)
    ensures var texts := [""] + (["/" + more[0]] + more[1..]);
      SlashAfterStar(texts) && |texts| == |more| + 1
      && (texts[|texts| - 1] == "" <==> |more| > 1 && more[|more| - 1] == "")
  {
    var texts := [""] + (["/" + more[0]] + more[1..]);
    assert forall i | 1 < i < |texts| :: texts[i] == more[i - 1];
    assert texts[1] == "/" + more[0];
  }

  lemma TextsAfterLiteral(text: string, more: seq<string>)
    requires more != [] && SlashAfterStar(more)
    ensures var texts := [text + more[0]] + more[1..];
      SlashAfterStar(texts) && |texts| == |more| && (|more| > 1 ==> texts[|texts| - 1] == more[|more| - 1])
  {
    var texts := [text + more[0]] + more[1..];
    assert forall i | 0 < i < |texts| :: texts[i] == more[i];
  }

  /** A verb never swallows the text after the last star. */
  lemma {:induction false} VerbKeepsTokens(p: Part, verb: string)
    requires GoodPart(p) && p.Bound? && GoodVerb(verb)
    ensures VarTokens(SpecOf(p), true, verb) == VarTokens(SpecOf(p), true, "")
  {
    var v := SpecOf(p);
    TextsAfterStars(p.path);
    if v.IsMulti() && verb != "" {
      var trailing := v.parts[|v.parts| - 1];
      assert Chars("") == [];
      if trailing != "" { assert trailing[0] == '/' && !(verb <= trailing); }
    }
  }

  lemma {:induction false} PartSplits(p: Part, last: bool)
    requires GoodPart(p)
    ensures SplitTokens(PartTokens(p, last)) == PartSegs(p, last)
  {
    if p.Literally? {
      SplitTokensOfText(p.text);
    } else {
      var v := SpecOf(p);
      var hole := Hole(v.Name(), v.IsRest() && last);
      if p.Bare? {
        assert Chars("") + [Var(hole)] == [Var(hole)];
        OneVar(hole);
      } else if v.IsMulti() {
        MultiIsWalk(v.Name(), v.parts, 0, v.parts);
        WalkIsStars(PathText(p.path), v.Name(), 0);
        StarsSplit(p.path, v.Name(), 0);
        Assoc(Chars(v.Prefix()), MultiTokens(v.Name(), v.parts, 0), Chars(v.parts[|v.parts| - 1]));
      } else {
        BoundHasWildcard(p.path);
        SegsBeforeHole(p.path, hole);
      }
    }
  }

  // ---- the segments of a rule ----

  predicate InnerGood(seg: seq<Token>) { IsLiteral(seg) || (IsHole(seg) && GoodHole(seg[0].hole, false)) }

  predicate AllInnerGood(segs: seq<seq<Token>>) { forall s | s in segs :: InnerGood(s) }

  lemma {:induction false} LiteralIsGood(text: string)
    requires GoodLiteral(text)
    ensures IsLiteral(Chars(text))
  {
    ShowChars(text);
    forall t | t in Chars(text)
      ensures t.Ch? && t.c != '{' && t.c != '}' && t.c != '/'
    {
      var i :| 0 <= i < |text| && Chars(text)[i] == t;
      assert text[i] in text;
    }
  }

  lemma {:induction false} SubNameIsPlain(name: string, k: nat)
    requires PlainName(name)
    ensures PlainName(SubName(name, k))
  {
    var digits := Decimal.Print(k);
    forall c | c in SubName(name, k)
      ensures c != '{' && c != '}' && c != '/' && c != '.' && c != '%'
    {
      if c !in name && c != '_' { DigitOf(digits, c); }
    }
  }

  lemma DigitOf(digits: string, c: char)
    requires Decimal.AllDigits(digits) && c in digits
    ensures '0' <= c <= '9'
  {
  }

  lemma {:induction false} ElementSegsGood(path: seq<Element>, name: string, k: nat)
    requires PlainName(name) && forall e | e in path :: GoodElement(e)
    ensures AllInnerGood(ElementSegs(path, name, k)) && |ElementSegs(path, name, k)| == |path|
    ensures path != [] ==> (LastIsHole(ElementSegs(path, name, k)) <==> EndsWithStar(path))
  {
    if path != [] {
      var e, rest := path[0], path[1..];
      assert e in path && forall x | x in rest :: x in path;
      var next := if e.Star? then k + 1 else k;
      ElementSegsGood(rest, name, next);
      var more := ElementSegs(rest, name, next);
      if e.Star? { SubNameIsPlain(name, k); } else { LiteralIsGood(e.text); assert Chars(e.text)[0] in Chars(e.text); }
      var segs := ElementSegs(path, name, k);
      assert segs == [segs[0]] + more;
      if rest == [] { assert segs == [segs[0]]; } else { assert path[|path| - 1] == rest[|rest| - 1]; }
    }
  }

  lemma {:induction false} SegsToHoleGood(path: seq<Element>, hole: Hole)
    requires PlainName(hole.name) && Star in path && forall e | e in path :: GoodElement(e)
    ensures var segs := SegsToHole(path, hole);
      segs != [] && LastIsHole(segs) && segs[|segs| - 1] == [Var(hole)] && AllInnerGood(segs[..|segs| - 1])
  {
    var e, rest := path[0], path[1..];
    assert path == [e] + rest && e in path && forall x | x in rest :: x in path;
    if e.Lit? {
      SegsToHoleGood(rest, hole);
      LiteralIsGood(e.text);
      var segs, more := SegsToHole(path, hole), SegsToHole(rest, hole);
      assert segs == [Chars(e.text)] + more;
      assert segs[..|segs| - 1] == [Chars(e.text)] + more[..|more| - 1];
    }
  }

  lemma {:induction false} InnerThenLast(segs: seq<seq<Token>>, hole: Hole)
    requires AllInnerGood(segs) && PlainName(hole.name)
    ensures GoodSegments(segs + [[Var(hole)]])
  {
    var all := segs + [[Var(hole)]];
    if segs == [] {
      assert all == [[Var(hole)]] && all[1..] == [];
      assert GoodSegments(all[1..]);
    } else {
      assert segs[0] in segs && forall s | s in segs[1..] :: s in segs;
      InnerThenLast(segs[1..], hole);
      assert all[0] == segs[0] && all[1..] == segs[1..] + [[Var(hole)]];
    }
  }

  lemma {:induction false} InnerThenMore(segs: seq<seq<Token>>, more: seq<seq<Token>>)
    requires AllInnerGood(segs) && GoodSegments(more)
    ensures GoodSegments(segs + more)
  {
    if segs == [] {
      assert segs + more == more;
    } else {
      assert segs[0] in segs && forall s | s in segs[1..] :: s in segs;
      InnerThenMore(segs[1..], more);
      assert (segs + more)[0] == segs[0] && (segs + more)[1..] == segs[1..] + more;
    }
  }

  /** Whether the last segment of a part is a placeholder. */
  predicate EndsInHole(p: Part) {
    match p
    case Literally(_) => false
    case Bare(_) => true
    case Bound(_, path) => SpecOf(p).IsMulti() ==> EndsWithStar(path)
  }

  lemma {:induction false} PartSegsGood(p: Part, last: bool)
    requires GoodPart(p)
    ensures PartSegs(p, last) != [] && GoodSegments(PartSegs(p, last))
    ensures !last ==> AllInnerGood(PartSegs(p, last))
    ensures LastIsHole(PartSegs(p, last)) <==> EndsInHole(p)
  {
    var segs := PartSegs(p, last);
    if p.Literally? {
      LiteralIsGood(p.text);
      assert Chars(p.text)[0] in Chars(p.text);
      InnerThenMore(segs, []);
      assert segs + [] == segs;
    } else {
      var v := SpecOf(p);
      if p.Bare? {
        InnerThenMore(segs, []);
        assert segs + [] == segs;
      } else if v.IsMulti() {
        ElementSegsGood(p.path, v.Name(), 0);
        InnerThenMore(segs, []);
        assert segs + [] == segs;
      } else {
        var hole := Hole(v.Name(), v.IsRest() && last);
        SegsToHoleGood(p.path, hole);
        InnerThenLast(segs[..|segs| - 1], hole);
        assert segs == segs[..|segs| - 1] + [[Var(hole)]];
      }
    }
  }
  function Segs(parts: seq<Part>): seq<seq<Token>> {
    if parts == [] then [] else PartSegs(parts[0], |parts| == 1) + Segs(parts[1..])
  }

  /** The registered tokens, without a verb. */
  function PathTokens(parts: seq<Part>): seq<Token> {
    if parts == [] then [] else [Ch('/')] + (PartTokens(parts[0], |parts| == 1) + PathTokens(parts[1..]))
  }

  function Last(parts: seq<Part>): Part
    requires parts != []
  {
    parts[|parts| - 1]
  }

  lemma LastOfRest(parts: seq<Part>)
    requires |parts| > 1
    ensures parts[1..] != [] && Last(parts[1..]) == Last(parts)
  {
  }

  /** The verb that stays in the path. */
  function LeftVerb(parts: seq<Part>, verb: string): string
    requires parts != []
  {
    if Last(parts).Bound? then "" else verb
  }

  lemma {:induction false} ReparseTokens(parts: seq<Part>, verb: string)
    requires parts != [] && GoodParts(parts) && GoodVerb(verb)
    ensures Reparse(parts, verb).tokens == PathTokens(parts) + Chars(LeftVerb(parts, verb))
  {
    var p, rest := parts[0], parts[1..];
    assert p in parts && forall q | q in rest :: q in parts;
    if |parts| == 1 {
      OneReparseTokens(parts, verb);
    } else {
      ReparseTokens(rest, verb);
      LastOfRest(parts);
      var more, tail := PathTokens(rest), Chars(LeftVerb(parts, verb));
      Assoc(PartTokens(p, false), more, tail);
      Assoc([Ch('/')], PartTokens(p, false) + more, tail);
    }
  }

  lemma {:induction false} OneReparseTokens(parts: seq<Part>, verb: string)
    requires |parts| == 1 && GoodPart(parts[0]) && GoodVerb(verb)
    ensures Reparse(parts, verb).tokens == PathTokens(parts) + Chars(LeftVerb(parts, verb))
  {
    var p, own := parts[0], PartTokens(parts[0], true);
    assert parts[1..] == [] && own + [] == own;
    assert PathTokens(parts[1..]) == [] && own + PathTokens(parts[1..]) == own && Chars("") == [];
    Assoc([Ch('/')], own, Chars(LeftVerb(parts, verb)));
    if p.Bound? {
      VerbKeepsTokens(p, verb);
      assert own + Chars("") == own && ([Ch('/')] + own) + Chars("") == [Ch('/')] + own;
    } else if p.Bare? {
      assert VarTokens(SpecOf(p), verb == "", "") == own;
    }
  }

  lemma SplitSlash(ts: seq<Token>)
    ensures SplitTokens([Ch('/')] + ts) == [[]] + SplitTokens(ts)
  {
    assert ([Ch('/')] + ts)[1..] == ts;
  }

  lemma {:induction false} SegsSplit(parts: seq<Part>)
    requires parts != [] && GoodParts(parts)
    ensures SplitTokens(PathTokens(parts)) == [[]] + Segs(parts)
  {
    var p, rest := parts[0], parts[1..];
    assert p in parts && forall q | q in rest :: q in parts;
    var own := PartTokens(p, |parts| == 1);
    PartSplits(p, |parts| == 1);
    SplitSlash(own + PathTokens(rest));
    if rest == [] {
      assert own + [] == own && PartSegs(p, true) + [] == PartSegs(p, true);
    } else {
      SegsSplit(rest);
      var more := PartTokens(rest[0], |rest| == 1) + PathTokens(rest[1..]);
      SplitSlash(more);
      SplitTokensSum(own, more);
      assert ([[]] + SplitTokens(more))[1..] == SplitTokens(more) && ([[]] + Segs(rest))[1..] == Segs(rest);
    }
  }

  lemma {:induction false} SegsGood(parts: seq<Part>)
    requires parts != [] && GoodParts(parts)
    ensures Segs(parts) != [] && GoodSegments(Segs(parts))
    ensures LastIsHole(Segs(parts)) <==> EndsInHole(Last(parts))
  {
    var p, rest := parts[0], parts[1..];
    assert p in parts && forall q | q in rest :: q in parts;
    PartSegsGood(p, |parts| == 1);
    if rest == [] {
      assert PartSegs(p, true) + [] == PartSegs(p, true);
    } else {
      SegsGood(rest);
      LastOfRest(parts);
      InnerThenMore(PartSegs(p, false), Segs(rest));
      LastIsInTail(PartSegs(p, false), Segs(rest));
      assert Segs(parts) == PartSegs(p, false) + Segs(rest);
    }
  }

  lemma LastIsInTail(a: seq<seq<Token>>, b: seq<seq<Token>>)
    requires b != []
    ensures LastIsHole(a + b) <==> LastIsHole(b)
  {
    assert (a + b)[|a + b| - 1] == b[|b| - 1];
  }

  // ---- the fields of a rule ----

  function FieldsOfParts(parts: seq<Part>, verb: string): seq<Field> {
    if parts == [] then []
    else
      (if parts[0].Literally? then []
          else [FieldOf(SpecOf(parts[0]), if |parts| == 1 && parts[0].Bound? then verb else "")])
        + FieldsOfParts(parts[1..], verb)
  }

  lemma {:induction false} FieldsFromText(text: string, s: string)
    requires '{' !in text
    ensures FieldsFrom(text + s, "") == FieldsFrom(s, "")
  {
    if text == "" {
      assert text + s == s;
    } else {
      assert text[0] in text && forall c | c in text[1..] :: c in text;
      ConsConcat(text, s);
      FieldsFromText(text[1..], s);
    }
  }

  lemma {:induction false} FieldsWritten(parts: seq<Part>, verb: string)
    requires GoodParts(parts) && GoodVerb(verb)
    ensures FieldsFrom(WriteParts(parts) + verb, "") == FieldsOfParts(parts, verb)
  {
    if parts == [] {
      FieldsFromText(verb, "");
      assert "" + verb == verb && verb + "" == verb;
    } else {
      var p, rest := parts[0], parts[1..];
      assert p in parts && forall q | q in rest :: q in parts;
      FieldsWritten(rest, verb);
      WrittenFirst(parts, verb);
      var after := WriteParts(rest) + verb;
      FieldsFromText("/", WritePart(p) + after);
      if p.Literally? {
        FieldsFromText(p.text, after);
        assert [] + FieldsOfParts(rest, verb) == FieldsOfParts(rest, verb);
      } else {
        FieldOfFirst(p, rest, verb);
      }
    }
  }

  lemma {:induction false} FieldOfFirst(p: Part, rest: seq<Part>, verb: string)
    requires GoodPart(p) && !p.Literally? && GoodParts(rest) && GoodVerb(verb)
    requires FieldsFrom(WriteParts(rest) + verb, "") == FieldsOfParts(rest, verb)
    ensures FieldsFrom(WritePart(p) + (WriteParts(rest) + verb), "")
      == [FieldOf(SpecOf(p), if rest == [] && p.Bound? then verb else "")] + FieldsOfParts(rest, verb)
  {
    ReadWritten(p, WriteParts(rest) + verb);
    VerbAtPart(p, rest, verb);
    assert FieldsFrom("", verb) == [];
  }

  lemma {:induction false} FieldIsGood(p: Part, verb: string)
    requires GoodPart(p) && !p.Literally?
    ensures var f := FieldOf(SpecOf(p), verb);
      |f.names| == |f.seps| + 1 && f.fieldPath != "" && SlashSeps(f.seps)
  {
    if p.Bound? && SpecOf(p).IsMulti() {
      TextsAfterStars(p.path);
      var texts := SpecOf(p).parts;
      var seps := Separators(texts);
      forall i | 0 <= i < |seps|
        ensures seps[i] != "" && seps[i][0] == '/'
      {
        assert seps[i] == texts[i + 1];
      }
    }
  }

  lemma {:induction false} FieldsAreGood(parts: seq<Part>, verb: string)
    requires GoodParts(parts)
    ensures WellFormed(FieldsOfParts(parts, verb)) && forall f | f in FieldsOfParts(parts, verb) :: SlashSeps(f.seps)
  {
    if parts != [] {
      assert parts[0] in parts && forall q | q in parts[1..] :: q in parts;
      FieldsAreGood(parts[1..], verb);
      if !parts[0].Literally? { FieldIsGood(parts[0], if |parts| == 1 && parts[0].Bound? then verb else ""); }
    }
  }

  lemma {:induction false} NamesWritten(parts: seq<Part>, verb: string)
    ensures AllNames(FieldsOfParts(parts, verb)) == NamesOf(parts)
  {
    if parts != [] {
      NamesWritten(parts[1..], verb);
      var rest := FieldsOfParts(parts[1..], verb);
      if parts[0].Literally? {
        assert [] + rest == rest && [] + NamesOf(parts[1..]) == NamesOf(parts[1..]);
      } else {
        var f := FieldOf(SpecOf(parts[0]), if |parts| == 1 && parts[0].Bound? then verb else "");
        assert ([f] + rest)[1..] == rest && f.names == FieldOf(SpecOf(parts[0]), "").names;
      }
    }
  }

  // ---- a verb only at the end ----

  lemma {:induction false} VerbAtEndOfText(text: string, after: string)
    requires '}' !in text && Agreement.VerbOnlyAtEnd(after)
    ensures Agreement.VerbOnlyAtEnd(text + after)
  {
    var s := text + after;
    assert forall k | 0 <= k < |text| :: s[k] == text[k] && text[k] != '}';
    forall i | 0 <= i && i + 1 < |s| && s[i] == '}' && s[i + 1] == ':'
      ensures '/' !in s[i + 1..] && '{' !in s[i + 1..]
    {
      if i >= |text| {
        var k := i - |text|;
        assert s[i + 1..] == after[k + 1..] && after[k] == '}' && after[k + 1] == ':';
      }
    }
  }

  lemma {:induction false} VerbAtEndOfBrace(after: string)
    requires Agreement.VerbOnlyAtEnd(after) && (":" <= after ==> '/' !in after && '{' !in after)
    ensures Agreement.VerbOnlyAtEnd("}" + after)
  {
    var s := "}" + after;
    forall i | 0 <= i && i + 1 < |s| && s[i] == '}' && s[i + 1] == ':'
      ensures '/' !in s[i + 1..] && '{' !in s[i + 1..]
    {
      if i == 0 {
        assert s[1..] == after && after[..1] == ":";
      } else {
        assert s[i + 1..] == after[i..] && after[i - 1] == '}' && after[i] == ':';
      }
    }
  }

  lemma {:induction false} VerbAtEndOfVariable(p: Part, rest: seq<Part>, verb: string)
    requires GoodPart(p) && !p.Literally? && GoodParts(rest) && GoodVerb(verb)
    requires Agreement.VerbOnlyAtEnd(WriteParts(rest) + verb)
    ensures Agreement.VerbOnlyAtEnd(WritePart(p) + (WriteParts(rest) + verb))
  {
    var after := WriteParts(rest) + verb;
    InsideIsBraceFree(p);
    AfterPart(rest, verb);
    if rest == [] { assert after == verb; }
    VerbAtEndOfBrace(after);
    VerbAtEndOfText("{" + Inside(p), "}" + after);
    CloseBrace("{" + Inside(p), after);
  }

  lemma CloseBrace(open: string, after: string)
    ensures open + "}" + after == open + ("}" + after)
  {
  }

  lemma VerbAlone(verb: string)
    requires GoodVerb(verb)
    ensures Agreement.VerbOnlyAtEnd(verb)
  {
    forall i | 0 <= i < |verb|
      ensures verb[i] != '}'
    {
      assert verb[i] in verb;
    }
  }

  lemma {:induction false} VerbAtEndWritten(parts: seq<Part>, verb: string)
    requires GoodParts(parts) && GoodVerb(verb)
    ensures Agreement.VerbOnlyAtEnd(WriteParts(parts) + verb)
  {
    if parts == [] {
      VerbAlone(verb);
      assert WriteParts(parts) + verb == verb;
    } else {
      assert parts[0] in parts && forall q | q in parts[1..] :: q in parts;
      VerbAtEndWritten(parts[1..], verb);
      VerbAtEndOfPart(parts[0], parts[1..], verb);
      WrittenFirst(parts, verb);
    }
  }

  lemma {:induction false} VerbAtEndOfPart(p: Part, rest: seq<Part>, verb: string)
    requires GoodPart(p) && GoodParts(rest) && GoodVerb(verb)
    requires Agreement.VerbOnlyAtEnd(WriteParts(rest) + verb)
    ensures Agreement.VerbOnlyAtEnd(['/'] + (WritePart(p) + (WriteParts(rest) + verb)))
  {
    var after := WriteParts(rest) + verb;
    if p.Literally? { VerbAtEndOfText(p.text, after); } else { VerbAtEndOfVariable(p, rest, verb); }
    VerbAtEndOfText("/", WritePart(p) + after);
  }

  // ---- supported, exactly ----

  /** A verb may follow literal text, and a wildcard that ends its variable. */
  predicate TakesVerb(p: Part) { p.Literally? || (p.Bound? && EndsInHole(p)) }

  lemma {:induction false} TokensAreInSegments(ts: seq<Token>, t: Token)
    requires t in ts && t != Ch('/')
    ensures exists seg | seg in SplitTokens(ts) :: t in seg
  {
    var rest := SplitTokens(ts[1..]);
    assert ts == [ts[0]] + ts[1..];
    if ts[0] == t {
      assert t in [[ts[0]] + rest[0]][0];
      assert ([[ts[0]] + rest[0]] + rest[1..])[0] == [ts[0]] + rest[0];
    } else {
      TokensAreInSegments(ts[1..], t);
      var seg :| seg in rest && t in seg;
      if ts[0] == Ch('/') {
        assert seg in [[]] + rest;
      } else {
        var i :| 0 <= i < |rest| && rest[i] == seg;
        var all := [[ts[0]] + rest[0]] + rest[1..];
        assert t in all[i] && all[i] in all;
      }
    }
  }

  lemma {:induction false} GoodSegment(segs: seq<seq<Token>>, i: nat)
    requires GoodSegments(segs) && i < |segs|
    ensures IsLiteral(segs[i]) || (IsHole(segs[i]) && PlainName(segs[i][0].hole.name))
  {
    if i > 0 { GoodSegment(segs[1..], i - 1); }
  }

  lemma {:induction false} RoutableIsPlain(ts: seq<Token>)
    requires Routable(ts)
    ensures Plain(ts)
  {
    var segs := SplitTokens(ts);
    forall t | t in ts && t != Ch('/')
      ensures PlainToken(t)
    {
      TokensAreInSegments(ts, t);
      var i :| 0 <= i < |segs| && t in segs[i];
      assert i > 0;
      GoodSegment(segs[1..], i - 1);
      assert segs[i] == segs[1..][i - 1];
    }
  }

  lemma {:induction false} WithTailLast(segs: seq<seq<Token>>, tail: string)
    requires segs != []
    ensures WithTail(segs, tail) == segs[..|segs| - 1] + [segs[|segs| - 1] + Chars(tail)]
  {
    if |segs| > 1 {
      WithTailLast(segs[1..], tail);
      assert segs[1..][..|segs| - 2] == segs[1..|segs| - 1];
      assert segs[..|segs| - 1] == [segs[0]] + segs[1..|segs| - 1];
      Assoc([segs[0]], segs[1..|segs| - 1], [segs[|segs| - 1] + Chars(tail)]);
    }
  }

  /** Literal text may carry a verb that is not taken off; a placeholder may not. */
  lemma {:induction false} VerbOnSegment(seg: seq<Token>, verb: string)
    requires GoodVerb(verb) && verb != "" && (IsLiteral(seg) || (IsHole(seg) && PlainName(seg[0].hole.name)))
    ensures !IsHole(seg + Chars(verb)) && (IsLiteral(seg + Chars(verb)) <==> IsLiteral(seg))
  {
    var all := seg + Chars(verb);
    ShowConcat(seg, Chars(verb));
    ShowChars(verb);
    assert all[|seg|] == Ch(':');
    if IsLiteral(seg) {
      LiteralText(seg);
      assert Show(all)[|seg|] == ':';
      assert seg[0] in seg && seg[0].Ch?;
      forall t | t in all
        ensures t.Ch? && t.c != '{' && t.c != '}' && t.c != '/'
      {
        if t in Chars(verb) {
          var i :| 0 <= i < |verb| && Chars(verb)[i] == t;
          assert verb[i] in verb;
        }
      }
    } else {
      assert all[0] == seg[0] && all[0] in all;
    }
  }

  lemma {:induction false} ReplaceLast(segs: seq<seq<Token>>, last: seq<Token>)
    requires segs != [] && GoodSegments(segs) && IsLiteral(segs[|segs| - 1]) && IsLiteral(last)
    ensures GoodSegments(segs[..|segs| - 1] + [last])
  {
    var all := segs[..|segs| - 1] + [last];
    if |segs| == 1 {
      assert all == [last] && all[1..] == [] && GoodSegments([]);
    } else {
      assert segs[1..][|segs| - 2] == segs[|segs| - 1];
      ReplaceLast(segs[1..], last);
      assert all[0] == segs[0] && all[1..] == segs[1..][..|segs| - 2] + [last];
    }
  }

  lemma {:induction false} LeftVerbSplit(parts: seq<Part>, verb: string)
    requires parts != [] && GoodParts(parts) && GoodVerb(verb)
    ensures var segs := Segs(parts);
      segs != []
          && SplitTokens(PathTokens(parts) + Chars(verb))
            == [[]] + (segs[..|segs| - 1] + [segs[|segs| - 1] + Chars(verb)])
  {
    var segs := Segs(parts);
    SegsSplit(parts);
    SegsGood(parts);
    SplitTokensAppend(PathTokens(parts), verb);
    TailAfterSlash(segs, verb);
  }

  lemma {:induction false} TailAfterSlash(segs: seq<seq<Token>>, tail: string)
    requires segs != []
    ensures WithTail([[]] + segs, tail) == [[]] + (segs[..|segs| - 1] + [segs[|segs| - 1] + Chars(tail)])
  {
    assert ([[]] + segs)[1..] == segs;
    WithTailLast(segs, tail);
  }

  /** The path of a rule with its verb still on it. */
  lemma {:induction false} LeftVerbSegments(parts: seq<Part>, verb: string)
    requires parts != [] && GoodParts(parts) && GoodVerb(verb) && verb != "" && !Last(parts).Bound?
    ensures Routable(PathTokens(parts) + Chars(verb)) <==> Last(parts).Literally?
  {
    var segs := Segs(parts);
    LeftVerbSplit(parts, verb);
    SegsGood(parts);
    LastSegmentKind(parts);
    var last := segs[|segs| - 1];
    var now := segs[..|segs| - 1] + [last + Chars(verb)];
    RoutableSegs(PathTokens(parts) + Chars(verb), now);
    GoodSegment(segs, |segs| - 1);
    VerbOnSegment(last, verb);
    if Last(parts).Literally? {
      ReplaceLast(segs, last + Chars(verb));
    } else if GoodSegments(now) {
      GoodSegment(now, |now| - 1);
    }
  }

  lemma RoutableSegs(ts: seq<Token>, segs: seq<seq<Token>>)
    requires SplitTokens(ts) == [[]] + segs && segs != []
    ensures Routable(ts) <==> GoodSegments(segs)
  {
    assert ([[]] + segs)[1..] == segs;
  }

  lemma {:induction false} LastSegmentKind(parts: seq<Part>)
    requires parts != [] && GoodParts(parts) && !Last(parts).Bound?
    ensures Segs(parts) != [] && (IsLiteral(Segs(parts)[|Segs(parts)| - 1]) <==> Last(parts).Literally?)
  {
    var p, rest := parts[0], parts[1..];
    assert p in parts && forall q | q in rest :: q in parts;
    if rest == [] {
      if p.Literally? { LiteralIsGood(p.text); }
    } else {
      LastOfRest(parts);
      LastSegmentKind(rest);
    }
  }

  /** Which rules make a path the mux can register, with the verb where the server expects it. */
  lemma {:induction false} RoutesExactly(parts: seq<Part>, verb: string)
    requires parts != [] && GoodParts(parts) && GoodVerb(verb)
    ensures var r := Reparse(parts, verb);
      Routable(r.tokens) && (r.verb != "" ==> LastIsHole(SplitTokens(r.tokens)))
      <==> verb == "" || TakesVerb(Last(parts))
  {
    ReparseTokens(parts, verb);
    VerbOfReparse(parts, verb);
    SegsSplit(parts);
    SegsGood(parts);
    var segs := Segs(parts);
    assert ([[]] + segs)[1..] == segs && ([[]] + segs)[|segs|] == segs[|segs| - 1];
    if Last(parts).Bound? || verb == "" {
      assert PathTokens(parts) + Chars("") == PathTokens(parts);
    } else {
      LeftVerbSegments(parts, verb);
    }
  }

  /** A text of the grammar is a supported pattern exactly when its verb, if any, follows literal
      text or a wildcard at the end of its variable. */
  lemma {:induction false} SupportedExactly(r: Rule)
    requires GoodRule(r)
    ensures Supported(Write(r)) <==> r.verb == "" || TakesVerb(Last(r.parts))
  {
    var pattern, parsed := Write(r), Reparse(r.parts, r.verb);
    WriteParses(r);
    RoutesExactly(r.parts, r.verb);
    VerbOfReparse(r.parts, r.verb);
    VerbAtEndWritten(r.parts, r.verb);
    FieldsWritten(r.parts, r.verb);
    FieldsAreGood(r.parts, r.verb);
    NamesWritten(r.parts, r.verb);
    PlaceholdersCounted(pattern);
    ParseIsAligned(pattern, "");
    ValuesAndNames(parsed.vars, FieldsOfParts(r.parts, r.verb), map[]);
    if Routable(parsed.tokens) { RoutableIsPlain(parsed.tokens); }
  }

  // ---- what a rest-of-path placeholder may not be followed by ----

  /** ServeMux panics on a pattern in which something follows "{name...}". */
  predicate RestInside(ts: seq<Token>) { exists i | 0 <= i < |ts| - 1 :: ts[i].Var? && ts[i].hole.rest }

  predicate HasRest(ts: seq<Token>) { exists t | t in ts :: t.Var? && t.hole.rest }

  predicate AnyRestHole(holes: seq<Hole>) { exists h | h in holes :: h.rest }

  function StarCount(path: seq<Element>): nat {
    if path == [] then 0 else (if path[0].Star? then 1 else 0) + StarCount(path[1..])
  }

  /** {field=a/star/b}: exactly one star, and text after it. */
  predicate TakesRestOfPath(p: Part) { p.Bound? && StarCount(p.path) == 1 && !EndsWithStar(p.path) }

  lemma {:induction false} StarsCounted(path: seq<Element>)
    requires path != [] && forall e | e in path :: GoodElement(e)
    ensures |Split(PathText(path), '*')| == StarCount(path) + 1
  {
    PathTextCons(path);
    assert path[0] in path && forall x | x in path[1..] :: x in path;
    if |path| == 1 {
      OneText(path[0]);
      assert path[1..] == [];
    } else {
      StarsCounted(path[1..]);
      MoreTexts(path[0], PathText(path[1..]));
    }
  }

  lemma {:induction false} RestSpecExactly(p: Part)
    requires GoodPart(p) && !p.Literally?
    ensures SpecOf(p).IsRest() <==> TakesRestOfPath(p)
  {
    if p.Bound? {
      StarsCounted(p.path);
      TextsAfterStars(p.path);
    }
  }

  lemma RestOfSum(a: seq<Token>, b: seq<Token>)
    ensures HasRest(a + b) <==> HasRest(a) || HasRest(b)
  {
    assert forall t | t in a :: t in a + b;
    assert forall t | t in b :: t in a + b;
  }

  lemma InsideOfSum(a: seq<Token>, b: seq<Token>)
    requires !HasRest(a)
    ensures RestInside(a + b) <==> RestInside(b)
  {
    var all := a + b;
    assert forall i | 0 <= i < |a| :: all[i] == a[i] && a[i] in a;
    assert forall i | 0 <= i < |b| :: all[|a| + i] == b[i];
    if RestInside(all) {
      var i :| 0 <= i < |all| - 1 && all[i].Var? && all[i].hole.rest;
      assert b[i - |a|] == all[i];
    }
  }

  lemma NoRestInChars(text: string)
    ensures !HasRest(Chars(text))
  {
  }

  /** In the tokens of one variable a rest-of-path placeholder stands at the end. */
  lemma {:induction false} RestOfVariable(p: Part, last: bool, verb: string)
    requires GoodPart(p) && !p.Literally?
    ensures HasRest(VarTokens(SpecOf(p), last, verb)) <==> last && TakesRestOfPath(p)
    ensures !RestInside(VarTokens(SpecOf(p), last, verb))
  {
    var v := SpecOf(p);
    RestSpecExactly(p);
    if v.IsMulti() {
      MultiIsExpanded(v, last, verb);
      RestIsHole(VarTokens(v, last, verb));
      assert forall i | 0 <= i < |VarTokens(v, last, verb)| :: VarTokens(v, last, verb)[i] in VarTokens(v, last, verb);
    } else {
      OneRest(v.Prefix(), Hole(v.Name(), v.IsRest() && last));
    }
  }

  lemma OneRest(prefix: string, h: Hole)
    ensures HasRest(Chars(prefix) + [Var(h)]) <==> h.rest
    ensures !RestInside(Chars(prefix) + [Var(h)])
  {
    NoRestInChars(prefix);
    RestOfSum(Chars(prefix), [Var(h)]);
    InsideOfSum(Chars(prefix), [Var(h)]);
    assert [Var(h)][0] == Var(h);
  }

  lemma {:induction false} RestIsHole(ts: seq<Token>)
    ensures HasRest(ts) <==> AnyRestHole(Holes(ts))
  {
    if ts != [] {
      RestIsHole(ts[1..]);
      assert ts == [ts[0]] + ts[1..];
      RestOfSum([ts[0]], ts[1..]);
    }
  }

  /** Every text of the grammar parses into a path in which nothing follows a rest-of-path
      placeholder; one is there when the last part makes it. */
  lemma {:induction false} RestOfReparse(parts: seq<Part>, verb: string)
    requires parts != [] && GoodParts(parts) && GoodVerb(verb)
    ensures HasRest(Reparse(parts, verb).tokens) <==> TakesRestOfPath(Last(parts))
    ensures !RestInside(Reparse(parts, verb).tokens)
  {
    var p, rest := parts[0], parts[1..];
    assert p in parts && forall q | q in rest :: q in parts;
    NoRestInChars(verb);
    if rest == [] {
      RestOfLast(p, verb);
      assert parts == [p];
    } else {
      RestOfReparse(rest, verb);
      LastOfRest(parts);
      var own := if p.Literally? then Chars(p.text) else VarTokens(SpecOf(p), false, "");
      if p.Literally? { NoRestInChars(p.text); } else { RestOfVariable(p, false, ""); }
      SlashThen(own, Reparse(rest, verb).tokens);
    }
  }

  lemma SlashThen(own: seq<Token>, more: seq<Token>)
    requires !HasRest(own)
    ensures HasRest([Ch('/')] + (own + more)) <==> HasRest(more)
    ensures RestInside([Ch('/')] + (own + more)) <==> RestInside(more)
  {
    RestOfSum([Ch('/')], own + more);
    RestOfSum(own, more);
    InsideOfSum([Ch('/')], own + more);
    InsideOfSum(own, more);
  }

  lemma {:induction false} RestOfLast(p: Part, verb: string)
    requires GoodPart(p) && GoodVerb(verb)
    ensures HasRest(Reparse([p], verb).tokens) <==> TakesRestOfPath(p)
    ensures !RestInside(Reparse([p], verb).tokens)
  {
    assert [p][1..] == [];
    NoRestInChars(verb);
    if p.Literally? {
      NoRestInChars(p.text);
      SlashThen(Chars(p.text), Chars(verb));
    } else if p.Bound? {
      RestOfVariable(p, true, verb);
      SlashThen([], VarTokens(SpecOf(p), true, verb));
      assert [] + VarTokens(SpecOf(p), true, verb) == VarTokens(SpecOf(p), true, verb);
      NothingMore([], VarTokens(SpecOf(p), true, verb));
      assert Chars("") == [];
    } else {
      RestOfVariable(p, verb == "", "");
      SlashThen(VarTokens(SpecOf(p), verb == "", ""), Chars(verb));
    }
  }

  /** A slash after the last part changes nothing in the parse but adds itself. */
  lemma {:induction false} SlashReparse(parts: seq<Part>)
    requires GoodParts(parts)
    ensures var r := Reparse(parts, "");
      GoFrom(WriteParts(parts) + "/", "") == r.(tokens := r.tokens + [Ch('/')])
  {
    if parts == [] {
      SlashAlone();
      assert "" + "/" == "/" && Chars("") == [] && [] + [Ch('/')] == [Ch('/')];
    } else {
      var p, rest := parts[0], parts[1..];
      assert p in parts && forall q | q in rest :: q in parts;
      SlashReparse(rest);
      WrittenFirst(parts, "/");
      GoFromCons('/', WritePart(p) + (WriteParts(rest) + "/"));
      if p.Literally? { SlashAfterLiteral(parts); } else { SlashAfterVariable(parts); }
    }
  }

  lemma SlashAlone()
    ensures GoFrom("/", "") == Parsed([], [Ch('/')], "")
  {
    GoFromCons('/', "");
    assert ['/'] + "" == "/" && GoFrom("", "") == Parsed([], [], "") && [Ch('/')] + [] == [Ch('/')];
  }

  lemma {:induction false} SlashAfterLiteral(parts: seq<Part>)
    requires parts != [] && GoodPart(parts[0]) && parts[0].Literally?
    requires var t := Reparse(parts[1..], "");
      GoFrom(WriteParts(parts[1..]) + "/", "") == t.(tokens := t.tokens + [Ch('/')])
    ensures var g, r := GoFrom(WritePart(parts[0]) + (WriteParts(parts[1..]) + "/"), ""), Reparse(parts, "");
      g.(tokens := [Ch('/')] + g.tokens) == r.(tokens := r.tokens + [Ch('/')])
  {
    var own, more := Chars(parts[0].text), Reparse(parts[1..], "").tokens;
    GoFromText(parts[0].text, WriteParts(parts[1..]) + "/");
    FourInARow([Ch('/')], own, more, [Ch('/')]);
  }

  lemma FourInARow<T>(a: seq<T>, b: seq<T>, c: seq<T>, d: seq<T>)
    ensures a + (b + (c + d)) == (a + (b + c)) + d
  {
  }

  lemma {:induction false} SlashAfterVariable(parts: seq<Part>)
    requires parts != [] && GoodPart(parts[0]) && !parts[0].Literally? && GoodParts(parts[1..])
    requires var t := Reparse(parts[1..], "");
      GoFrom(WriteParts(parts[1..]) + "/", "") == t.(tokens := t.tokens + [Ch('/')])
    ensures var g, r := GoFrom(WritePart(parts[0]) + (WriteParts(parts[1..]) + "/"), ""), Reparse(parts, "");
      g.(tokens := [Ch('/')] + g.tokens) == r.(tokens := r.tokens + [Ch('/')])
  {
    var p, rest := parts[0], parts[1..];
    var after, more := WriteParts(rest) + "/", Reparse(rest, "");
    ReadWritten(p, after);
    AfterSlash(rest);
    assert |parts| == 1 <==> rest == [];
    GroupParses(WritePart(p) + after, SpecOf(p), after, "", more.(tokens := more.tokens + [Ch('/')]));
    FourInARow([Ch('/')], VarTokens(SpecOf(p), rest == [], ""), more.tokens, [Ch('/')]);
  }

  lemma AfterSlash(rest: seq<Part>)
    requires GoodParts(rest)
    ensures var after := WriteParts(rest) + "/";
      after[0] == '/' && (after == "/" <==> rest == []) && SkipVerb(after, "") == after && !(":" <= after)
  {
    if rest != [] { assert rest[0] in rest && WritePart(rest[0]) != ""; }
  }

  /** With a slash at the end, something follows a rest-of-path placeholder if and only if the last
      part is a variable with exactly one star that is not last in its path. Without the slash,
      nothing ever does. */
  lemma {:induction false} RestInsideExactly(r: Rule)
    requires GoodRule(r)
    ensures !RestInside(GoParse(Write(r)).tokens)
    ensures r.verb == "" ==> (RestInside(GoParse(Write(r) + "/").tokens) <==> TakesRestOfPath(Last(r.parts)))
  {
    WriteParses(r);
    RestOfReparse(r.parts, r.verb);
    if r.verb == "" {
      assert Write(r) + "/" == WriteParts(r.parts) + "/" by { assert WriteParts(r.parts) + "" == WriteParts(r.parts); }
      SlashReparse(r.parts);
      RestThenMore(Reparse(r.parts, "").tokens);
    }
  }

  lemma RestThenMore(ts: seq<Token>)
    ensures RestInside(ts + [Ch('/')]) <==> HasRest(ts)
  {
    var all := ts + [Ch('/')];
    assert forall i | 0 <= i < |ts| :: all[i] == ts[i];
    if HasRest(ts) {
      var i :| 0 <= i < |ts| && ts[i].Var? && ts[i].hole.rest;
      assert all[i].Var?;
    }
  }

  predicate AnyRest(pattern: seq<Segment>) { exists s | s in pattern :: s.Rest? }

  lemma RestCons(first: Segment, later: seq<Segment>)
    ensures AnyRest([first] + later) <==> first.Rest? || AnyRest(later)
  {
    assert ([first] + later)[0] == first && forall s | s in later :: s in [first] + later;
  }

  lemma HoleCons(h: Hole, later: seq<Hole>)
    ensures AnyRestHole([h] + later) <==> h.rest || AnyRestHole(later)
  {
    assert ([h] + later)[0] == h && forall g | g in later :: g in [h] + later;
  }

  /** A template of good segments has a rest-of-path placeholder where its registered path has one. */
  lemma {:induction false} RestIsRegistered(segs: seq<seq<Token>>)
    requires GoodSegments(segs)
    ensures AnyRest(ParseSegments(ShowAll(segs))) <==> AnyRestHole(SegHoles(segs))
  {
    if segs != [] {
      var seg, rest := segs[0], segs[1..];
      RestIsRegistered(rest);
      ParsedCons(seg, rest);
      assert segs == [seg] + rest;
      RestCons(ParseSegment(Show(seg)), ParseSegments(ShowAll(rest)));
      if IsHole(seg) {
        ShowHole(seg);
        HoleParses(seg[0].hole);
        HoleCons(seg[0].hole, SegHoles(rest));
      } else {
        LiteralParses(seg);
        assert [] + SegHoles(rest) == SegHoles(rest);
      }
    }
  }

  lemma ParsedCons(seg: seq<Token>, rest: seq<seq<Token>>)
    ensures ParseSegments(ShowAll([seg] + rest)) == [ParseSegment(Show(seg))] + ParseSegments(ShowAll(rest))
  {
    assert ([seg] + rest)[1..] == rest;
    assert ShowAll([seg] + rest) == [Show(seg)] + ShowAll(rest) && ([Show(seg)] + ShowAll(rest))[1..] == ShowAll(rest);
  }

  /** The same of a registered path, and of one with a slash after it. */
  lemma {:induction false} RegisteredRest(ts: seq<Token>)
    requires Routable(ts) && !RestInside(ts)
    ensures !RestNotLast(Register(Show(ts)))
    ensures RestNotLast(Register(Show(ts) + "/")) <==> HasRest(ts)
  {
    var cs := SplitTokens(ts)[1..];
    RegisteredSegments(ts);
    RestIsRegistered(cs);
    RoutableHoles(ts);
    RestIsHole(ts);
    OnlyLastIsRest(cs);
    RegisterSlash(Show(ts));
    RestThenLiteral(Register(Show(ts)));
    RestCons(Literal(""), ParseSegments(ShowAll(cs)));
  }

  lemma RegisterSlash(path: string)
    ensures Register(path + "/") == Register(path) + [Literal("")]
  {
    SplitSum(path, '/', "");
    assert path + ['/'] + "" == path + "/" && Split("", '/') == [""];
    ParseSegmentsSum(Split(path, '/'), [""]);
    assert ParseSegments([""]) == [Literal("")] + [];
  }

  lemma {:induction false} ParseSegmentsSum(a: seq<string>, b: seq<string>)
    ensures ParseSegments(a + b) == ParseSegments(a) + ParseSegments(b)
  {
    if a == [] {
      assert a + b == b;
    } else {
      ParseSegmentsSum(a[1..], b);
      ConsConcat(a, b);
      Assoc([ParseSegment(a[0])], ParseSegments(a[1..]), ParseSegments(b));
    }
  }

  lemma RestThenLiteral(registered: seq<Segment>)
    ensures RestNotLast(registered + [Literal("")]) <==> AnyRest(registered)
  {
    var all := registered + [Literal("")];
    assert forall i | 0 <= i < |registered| :: all[i] == registered[i];
    if i :| 0 <= i < |registered| && registered[i].Rest? { assert all[i].Rest?; }
  }

  /** "{name...}" only at the end, by GoodSegments. */
  lemma {:induction false} OnlyLastIsRest(segs: seq<seq<Token>>)
    requires GoodSegments(segs)
    ensures !RestNotLast([Literal("")] + ParseSegments(ShowAll(segs)))
    ensures forall i | 0 <= i < |segs| - 1 :: !ParseSegments(ShowAll(segs))[i].Rest?
  {
    if segs != [] {
      var seg, rest := segs[0], segs[1..];
      OnlyLastIsRest(rest);
      assert ShowAll(segs)[1..] == ShowAll(rest);
      assert ParseSegments(ShowAll(segs)) == [ParseSegment(Show(seg))] + ParseSegments(ShowAll(rest));
      if IsHole(seg) {
        ShowHole(seg);
        HoleParses(seg[0].hole);
      } else {
        LiteralParses(seg);
      }
    }
  }

  /** Which texts of the grammar the mux refuses for that reason: those with a slash after a variable
      of exactly one star that is not last in its path, and no others. */
  lemma {:induction false} MuxRefusesExactly(r: Rule)
    requires GoodRule(r) && r.verb == ""
    ensures !RestNotLast(Register(Show(GoParse(Write(r)).tokens)))
    ensures RestNotLast(Register(Show(GoParse(Write(r) + "/").tokens))) <==> TakesRestOfPath(Last(r.parts))
  {
    var ts := Reparse(r.parts, "").tokens;
    WriteParses(r);
    RoutesExactly(r.parts, "");
    RestOfReparse(r.parts, "");
    assert Write(r) + "/" == WriteParts(r.parts) + "/" by { assert WriteParts(r.parts) + "" == WriteParts(r.parts); }
    SlashReparse(r.parts);
    RegisteredRest(ts);
    ShowConcat(ts, [Ch('/')]);
    assert [Ch('/')][1..] == [] && Show([Ch('/')]) == "/";
  }
}
