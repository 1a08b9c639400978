/** For each promise that holds only under a condition, an input at which it fails. */
module Counterexamples {
  import opened Text
  import opened Escape
  import opened Template
  import opened ServeMux
  import opened Routing
  import opened Patterns
  import opened Wildcards
  import opened Fields
  import opened Clients
  import opened RoundTrip
  import opened EndToEnd
  import opened NetUrl
  import opened Reencoding
  import opened GoWire
  import opened Grammar
  import opened Examples
  import Agreement
  import Decimal

  // ---- a verb after a rest-of-path variable: the plugins' paths differ ----

  lemma {:induction false} SharedFromText(text: string, s: string)
    requires '{' !in text
    ensures SharedFrom(text + s) == SharedFrom(s).(tokens := Chars(text) + SharedFrom(s).tokens)
  {
    var ts := SharedFrom(s).tokens;
    if text == "" {
      assert text + s == s && Chars(text) + ts == ts;
    } else {
      assert text[0] in text && forall c | c in text[1..] :: c in text;
      SharedFromText(text[1..], s);
      ConsConcat(text, s);
      CharsCons(text);
      Assoc([Ch(text[0])], Chars(text[1..]), ts);
    }
  }

  /** What the Python and TypeScript plugins make of a text of the grammar. */
  function SharedTokens(parts: seq<Part>, verb: string): seq<Token> {
    if parts == [] then Chars(verb)
    else
      var own := if parts[0].Literally? then Chars(parts[0].text)
                 else VarTokens(SpecOf(parts[0]), |parts| == 1 && verb == "", "");
      [Ch('/')] + (own + SharedTokens(parts[1..], verb))
  }

  lemma {:induction false} SharedWritten(parts: seq<Part>, verb: string)
    requires GoodParts(parts) && GoodVerb(verb)
    ensures SharedFrom(WriteParts(parts) + verb).tokens == SharedTokens(parts, verb)
  {
    if parts == [] {
      SharedVerb(verb);
    } else {
      assert parts[0] in parts && forall q | q in parts[1..] :: q in parts;
      SharedWritten(parts[1..], verb);
      WrittenFirst(parts, verb);
      SharedSlash(WritePart(parts[0]) + (WriteParts(parts[1..]) + verb));
      SharedPart(parts, verb);
    }
  }

  lemma SharedVerb(verb: string)
    requires GoodVerb(verb)
    ensures SharedFrom("" + verb).tokens == Chars(verb)
  {
    SharedFromText(verb, "");
    assert "" + verb == verb && verb + "" == verb && Chars(verb) + [] == Chars(verb);
  }

  lemma SharedSlash(s: string)
    ensures SharedFrom(['/'] + s).tokens == [Ch('/')] + SharedFrom(s).tokens
  {
    assert (['/'] + s)[0] == '/' && (['/'] + s)[1..] == s;
  }

  lemma {:induction false} SharedPart(parts: seq<Part>, verb: string)
    requires parts != [] && GoodParts(parts[1..]) && GoodPart(parts[0]) && GoodVerb(verb)
    requires SharedFrom(WriteParts(parts[1..]) + verb).tokens == SharedTokens(parts[1..], verb)
    ensures [Ch('/')] + SharedFrom(WritePart(parts[0]) + (WriteParts(parts[1..]) + verb)).tokens
      == SharedTokens(parts, verb)
  {
    var p, after := parts[0], WriteParts(parts[1..]) + verb;
    if p.Literally? {
      SharedFromText(p.text, after);
    } else {
      ReadWritten(p, after);
      AfterPart(parts[1..], verb);
    }
  }

  /** "/first/literal/{placeholder}", as tokens and as text. */
  function TwoLevels(first: string, literal: string, h: Hole): seq<Token> {
    [Ch('/')] + (Chars(first) + ([Ch('/')] + (Chars(literal + "/") + [Var(h)])))
  }

  function TwoLevelText(first: string, literal: string, h: Hole): string {
    "/" + (first + ("/" + ((literal + "/") + Placeholder(h))))
  }

  lemma ShowPath(first: string, literal: string, h: Hole)
    ensures Show(TwoLevels(first, literal, h)) == TwoLevelText(first, literal, h)
  {
    ShowLevel(literal + "/", [Var(h)]);
    assert [Var(h)][1..] == [] && Show([Var(h)]) == Placeholder(h);
    ShowLevel(first, [Ch('/')] + (Chars(literal + "/") + [Var(h)]));
  }

  lemma ShowLevel(text: string, ts: seq<Token>)
    ensures Show([Ch('/')] + (Chars(text) + ts)) == "/" + (text + Show(ts))
  {
    ShowConcat(Chars(text), ts);
    ShowChars(text);
    ShowConcat([Ch('/')], Chars(text) + ts);
    assert [Ch('/')][1..] == [] && Show([Ch('/')]) == "/";
  }

  function RestRule(first: string, field: string, literal: string, more: string, verb: string): Rule {
    Rule([Literally(first), TakesRest(field, literal, more)], verb)
  }

  predicate GoodRest(first: string, field: string, literal: string, more: string, verb: string) {
    && GoodLiteral(first) && Simple(field) && SimpleLiteral(literal) && SimpleLiteral(more)
    && GoodVerb(verb) && verb != ""
  }

  /** The Go plugin on "/first/{field=literal/star/more}:verb". */
  lemma {:induction false} RestWithVerbInGo(first: string, field: string, literal: string, more: string, verb: string)
    requires GoodRest(first, field, literal, more, verb)
    ensures GoParse(Write(RestRule(first, field, literal, more, verb))).verb == verb
    ensures GoParse(Write(RestRule(first, field, literal, more, verb))).tokens
      == TwoLevels(first, literal, Hole(field, true))
  {
    var r := RestRule(first, field, literal, more, verb);
    var q := r.parts[1];
    TakesRestText(field, literal, more);
    TakesRestParses(field, literal, more, true, verb);
    WriteParses(r);
    assert r.parts[1..] == [q] && [q][1..] == [];
    assert Reparse([q], verb).tokens == [Ch('/')] + (Chars(literal + "/") + [Var(Hole(field, true))]);
  }

  lemma {:induction false} RestWithVerbElsewhere(first: string, field: string, literal: string, more: string,
                                                 verb: string)
    requires GoodRest(first, field, literal, more, verb)
    ensures SharedFrom(Write(RestRule(first, field, literal, more, verb))).tokens
      == TwoLevels(first, literal, Hole(field, false)) + Chars(verb)
  {
    var r := RestRule(first, field, literal, more, verb);
    var q, h := r.parts[1], Var(Hole(field, false));
    TakesRestText(field, literal, more);
    TakesRestParses(field, literal, more, false, "");
    SharedWritten(r.parts, verb);
    assert r.parts[1..] == [q] && [q][1..] == [];
    var last := Chars(literal + "/") + [h];
    assert SharedTokens([q], verb) == [Ch('/')] + (last + Chars(verb));
    Assoc([Ch('/')], last, Chars(verb));
    Assoc(Chars(first), [Ch('/')] + last, Chars(verb));
    Assoc([Ch('/')], Chars(first) + ([Ch('/')] + last), Chars(verb));
  }

  function RestPartText(field: string, literal: string, more: string): string {
    "{" + (field + "=" + (literal + "/*/" + more)) + "}"
  }

  lemma RestRuleText(first: string, field: string, literal: string, more: string, verb: string)
    requires GoodRest(first, field, literal, more, verb)
    ensures Write(RestRule(first, field, literal, more, verb))
      == "/" + first + ("/" + RestPartText(field, literal, more)) + verb
  {
    TakesRestText(field, literal, more);
    TwoParts(Literally(first), TakesRest(field, literal, more), verb);
  }

  lemma TwoParts(p: Part, q: Part, verb: string)
    ensures Write(Rule([p, q], verb)) == "/" + WritePart(p) + ("/" + WritePart(q)) + verb
  {
    var parts := [p, q];
    assert parts[1..] == [q] && [q][1..] == [];
    assert WriteParts([q]) == "/" + WritePart(q) + "";
  }

  /** For every such pattern: the Go plugin registers a rest-of-path wildcard where the other two
      fill one segment. */
  lemma {:induction false} RestWithVerbDisagrees(first: string, field: string, literal: string, more: string,
                                                 verb: string)
    requires GoodRest(first, field, literal, more, verb) && ':' !in field && ':' !in literal && ':' !in more
    ensures var pattern := Write(RestRule(first, field, literal, more, verb));
      && Agreement.VerbOnlyAtEnd(pattern) && Agreement.NoColonInBraces(pattern) && Agreement.RestWithVerb(pattern)
      && Show(GoParse(pattern).tokens) == TwoLevelText(first, literal, Hole(field, true))
        && GoParse(pattern).verb == verb
      && Show(SharedFrom(pattern).tokens) == TwoLevelText(first, literal, Hole(field, false)) + verb
  {
    var pattern := Write(RestRule(first, field, literal, more, verb));
    RestWithVerbInGo(first, field, literal, more, verb);
    RestWithVerbElsewhere(first, field, literal, more, verb);
    ShowPath(first, literal, Hole(field, true));
    ShowPath(first, literal, Hole(field, false));
    ShowConcat(TwoLevels(first, literal, Hole(field, false)), Chars(verb));
    ShowChars(verb);
    OneColon(first, field, literal, more, verb);
    Disagreement(pattern, first, literal, field, verb);
  }

  lemma Disagreement(pattern: string, first: string, literal: string, field: string, verb: string)
    requires Agreement.VerbOnlyAtEnd(pattern) && Agreement.NoColonInBraces(pattern) && GoParse(pattern).verb == verb
    requires Show(GoParse(pattern).tokens) == TwoLevelText(first, literal, Hole(field, true))
    requires Show(SharedFrom(pattern).tokens) == TwoLevelText(first, literal, Hole(field, false)) + verb
    ensures Agreement.RestWithVerb(pattern)
  {
    assert |Placeholder(Hole(field, true))| == |Placeholder(Hole(field, false))| + 3;
    Agreement.PluginsAgree(pattern);
  }

  lemma {:induction false} OneColon(first: string, field: string, literal: string, more: string, verb: string)
    requires GoodRest(first, field, literal, more, verb) && ':' !in field && ':' !in literal && ':' !in more
    ensures var pattern := Write(RestRule(first, field, literal, more, verb));
      Agreement.VerbOnlyAtEnd(pattern) && Agreement.NoColonInBraces(pattern)
  {
    var r := RestRule(first, field, literal, more, verb);
    TakesRestText(field, literal, more);
    VerbAtEndWritten(r.parts, verb);
    RestRuleText(first, field, literal, more, verb);
    InsideIsBraceFree(r.parts[1]);
    var before, inside := "/" + first + "/", field + "=" + (literal + "/*/" + more);
    assert Inside(r.parts[1]) == inside;
    OneBrace(before, inside, verb);
    RegroupBrace("/" + first, inside, verb);
  }

  lemma RegroupBrace(before: string, inside: string, after: string)
    ensures before + ("/" + ("{" + inside + "}")) + after == (before + "/") + "{" + inside + "}" + after
  {
  }

  /** A text whose only brace opens a colon-free variable. */
  lemma OneBrace(before: string, inside: string, after: string)
    requires '{' !in before && BraceFree(inside) && ':' !in inside && BraceFree(after)
    ensures Agreement.NoColonInBraces(before + "{" + inside + "}" + after)
  {
    var s := before + "{" + inside + "}" + after;
    forall i | 0 <= i < |s| && AtGroup(s[i..])
      ensures ':' !in Before(s[i..], '}')
    {
      assert s[i..][0] == s[i] == '{';
      if i != |before| { OnlyBrace(before, inside, after, i); }
      assert s[i..] == ("{" + inside) + ['}'] + after;
      BeforeOfSum("{" + inside, '}', after);
    }
  }

  lemma OnlyBrace(before: string, inside: string, after: string, i: nat)
    requires '{' !in before && BraceFree(inside) && BraceFree(after)
    requires i < |before| + |inside| + |after| + 2 && i != |before|
    ensures (before + "{" + inside + "}" + after)[i] != '{'
  {
    if i < |before| {
      assert before[i] in before;
    } else if i <= |before| + |inside| {
      assert inside[i - |before| - 1] in inside;
    } else if i > |before| + |inside| + 1 {
      assert after[i - |before| - |inside| - 2] in after;
    }
  }

  // The texts of the literal inputs.
  const V1 := "v1"
  const NAME := "name"
  const FILES := "files"
  const X := "x"
  const GO := ":go"

  /** "/v1/{name=files/star/x}:go" */
  const REST_WITH_VERB := "/v1/{name=files/*/x}:go"

  lemma GoodNames()
    ensures GoodRest(V1, NAME, FILES, X, GO) && ':' !in NAME && ':' !in FILES && ':' !in X
  {
  }

  lemma RestPartTextAt()
    ensures RestPartText(NAME, FILES, X) == "{name=files/*/x}"
  {
    assert FILES + "/*/" + X == "files/*/x" && NAME + "=" + "files/*/x" == "name=files/*/x";
  }

  lemma HoleTexts()
    ensures Placeholder(Hole(NAME, true)) == "{name...}" && Placeholder(Hole(NAME, false)) == "{name}"
  {
  }

  lemma RestWithVerbText()
    ensures "/" + V1 + ("/" + RestPartText(NAME, FILES, X)) + GO == REST_WITH_VERB
  {
    RestPartTextAt();
  }

  lemma PathTexts()
    ensures TwoLevelText(V1, FILES, Hole(NAME, true)) == "/v1/files/{name...}"
    ensures TwoLevelText(V1, FILES, Hole(NAME, false)) + GO == "/v1/files/{name}:go"
  {
    HoleTexts();
    assert FILES + "/" == "files/";
  }

  lemma PluginsDisagree()
    ensures Agreement.VerbOnlyAtEnd(REST_WITH_VERB) && Agreement.NoColonInBraces(REST_WITH_VERB)
    ensures Agreement.RestWithVerb(REST_WITH_VERB)
    ensures Show(GoParse(REST_WITH_VERB).tokens) == "/v1/files/{name...}" && GoParse(REST_WITH_VERB).verb == ":go"
    ensures Show(SharedFrom(REST_WITH_VERB).tokens) == "/v1/files/{name}:go"
  {
    GoodNames();
    RestRuleText(V1, NAME, FILES, X, GO);
    RestWithVerbText();
    PathTexts();
    RestWithVerbDisagrees(V1, NAME, FILES, X, GO);
  }

  // ---- a verb after a variable without a wildcard is not taken off ----

  /** "/first/{field}:verb" parses to a path with the verb still on its last segment, which no mux can
      register; the pattern is not supported. */
  lemma {:induction false} BareVerbStays(first: string, field: string, verb: string)
    requires GoodLiteral(first) && Simple(field) && GoodVerb(verb) && verb != ""
    ensures var pattern := Write(Rule([Literally(first), Bare(field)], verb));
      GoParse(pattern).verb == "" && !Routable(GoParse(pattern).tokens) && !Supported(pattern)
    ensures Write(Rule([Literally(first), Bare(field)], verb)) == "/" + first + ("/" + ("{" + field + "}")) + verb
  {
    var r := Rule([Literally(first), Bare(field)], verb);
    SimpleIsGood(field);
    assert r.parts[1..] == [Bare(field)] && [Bare(field)][1..] == [] && Last(r.parts) == Bare(field);
    TwoNames(Literally(first), Bare(field));
    assert PartNames(Bare(field)) == [field];
    VerbIsTakenOffExactly(r);
    SupportedExactly(r);
    WriteParses(r);
    ReparseTokens(r.parts, verb);
    LeftVerbSegments(r.parts, verb);
    TwoParts(Literally(first), Bare(field), verb);
  }

  lemma TwoNames(p: Part, q: Part)
    ensures NamesOf([p, q]) == PartNames(p) + PartNames(q)
  {
    assert [p, q][1..] == [q] && [q][1..] == [];
    assert NamesOf([]) == [];
    assert NamesOf([q]) == PartNames(q) + [];
    assert PartNames(q) + [] == PartNames(q);
    assert NamesOf([p, q]) == PartNames(p) + NamesOf([q]);
  }

  const ID := "id"
  const BARE_WITH_VERB := "/v1/{id}:go"

  lemma BareTexts()
    ensures "/" + V1 + ("/" + ("{" + ID + "}")) + GO == BARE_WITH_VERB
    ensures GoodLiteral(V1) && Simple(ID) && GoodVerb(GO) && GO != ""
  {
    assert "{" + ID + "}" == "{id}" && "/" + V1 + ("/" + "{id}") == "/v1/{id}";
  }

  lemma BareVerb()
    ensures GoParse(BARE_WITH_VERB).verb == "" && !Routable(GoParse(BARE_WITH_VERB).tokens)
      && !Supported(BARE_WITH_VERB)
  {
    BareTexts();
    BareVerbStays(V1, ID, GO);
  }

  // ---- a slash after a rest-of-path variable: nothing may follow "{name...}" ----

  /** The Go plugin on "/first/{field=literal/star/more}". */
  lemma {:induction false} RestInGo(first: string, field: string, literal: string, more: string)
    requires GoodLiteral(first) && Simple(field) && SimpleLiteral(literal) && SimpleLiteral(more)
    ensures GoodRule(RestRule(first, field, literal, more, ""))
    ensures Reparse(RestRule(first, field, literal, more, "").parts, "").tokens
      == TwoLevels(first, literal, Hole(field, true))
  {
    var p, q := Literally(first), TakesRest(field, literal, more);
    TakesRestText(field, literal, more);
    TakesRestParses(field, literal, more, true, "");
    TwoNames(p, q);
    assert PartNames(q) == [field] && [] + [field] == [field];
    assert [p, q][1..] == [q] && [q][1..] == [] && Chars("") == [];
    NothingMore([], Chars(literal + "/") + [Var(Hole(field, true))]);
    assert Reparse([q], "").tokens == [Ch('/')] + (Chars(literal + "/") + [Var(Hole(field, true))]);
  }

  /** It takes the slash for the end of the path and writes "{field...}/", which the mux refuses. */
  lemma {:induction false} RestThenSlash(first: string, field: string, literal: string, more: string)
    requires GoodLiteral(first) && Simple(field) && SimpleLiteral(literal) && SimpleLiteral(more)
    ensures var pattern := Write(RestRule(first, field, literal, more, "")) + "/";
      var ts := GoParse(pattern).tokens;
      && Show(ts) == TwoLevelText(first, literal, Hole(field, true)) + "/"
      && RestInside(ts) && RestNotLast(Register(Show(ts)))
  {
    var r := RestRule(first, field, literal, more, "");
    RestInGo(first, field, literal, more);
    OneStarInside(literal, more);
    RestInsideExactly(r);
    MuxRefusesExactly(r);
    SlashReparse(r.parts);
    assert WriteParts(r.parts) + "" == WriteParts(r.parts);
    ShowPath(first, literal, Hole(field, true));
    ShowSlash(TwoLevels(first, literal, Hole(field, true)));
  }

  lemma OneStarInside(literal: string, more: string)
    ensures StarCount([Lit(literal), Star, Lit(more)]) == 1 && !EndsWithStar([Lit(literal), Star, Lit(more)])
  {
    var path := [Lit(literal), Star, Lit(more)];
    assert path[1..] == [Star, Lit(more)] && path[1..][1..] == [Lit(more)] && [Lit(more)][1..] == [];
    assert StarCount([Lit(more)]) == 0;
  }

  lemma ShowSlash(ts: seq<Token>)
    ensures Show(ts + [Ch('/')]) == Show(ts) + "/"
  {
    ShowConcat(ts, [Ch('/')]);
    assert [Ch('/')][1..] == [] && Show([Ch('/')]) == "/";
  }

  lemma RestSlashText(first: string, field: string, literal: string, more: string)
    requires Simple(field) && SimpleLiteral(literal) && SimpleLiteral(more)
    ensures Write(RestRule(first, field, literal, more, "")) + "/"
      == "/" + first + ("/" + RestPartText(field, literal, more)) + "/"
  {
    TakesRestText(field, literal, more);
    TwoParts(Literally(first), TakesRest(field, literal, more), "");
    var text := "/" + first + ("/" + RestPartText(field, literal, more));
    assert text + "" == text;
  }

  const REST_WITH_SLASH := "/v1/{name=files/*/x}/"

  lemma SlashTexts()
    ensures "/" + V1 + ("/" + RestPartText(NAME, FILES, X)) + "/" == REST_WITH_SLASH
    ensures TwoLevelText(V1, FILES, Hole(NAME, true)) + "/" == "/v1/files/{name...}/"
  {
    RestPartTextAt();
    PathTexts();
  }

  lemma TrailingSlash()
    ensures var ts := GoParse(REST_WITH_SLASH).tokens;
      Show(ts) == "/v1/files/{name...}/" && RestInside(ts) && RestNotLast(Register(Show(ts)))
  {
    GoodNames();
    RestSlashText(V1, NAME, FILES, X);
    SlashTexts();
    RestThenSlash(V1, NAME, FILES, X);
  }

  // ---- a name that ends the name of a rest-of-path variable is missed ----

  function MissRule(first: string, e: string, a: string, name: string, files: string, x: string): Rule {
    Rule([Literally(first), OneWildcard(e, a), TakesRest(name, files, x)], "")
  }

  predicate GoodMiss(first: string, e: string, a: string, name: string, files: string, x: string) {
    && GoodLiteral(first) && Simple(e) && SimpleLiteral(a) && Simple(name) && SimpleLiteral(files) && SimpleLiteral(x)
    && e != name && HasSuffix(name, e) && '.' !in first && '.' !in a && '.' !in files
  }

  function MissTokens(first: string, e: string, a: string, name: string, files: string): seq<Token> {
    var last := [Ch('/')] + (Chars(files + "/") + [Var(Hole(name, true))]);
    [Ch('/')] + (Chars(first) + ([Ch('/')] + (Chars(a + "/") + [Var(Hole(e, false))] + last)))
  }

  ghost predicate IsMiss(pattern: string, first: string, e: string, a: string, name: string, files: string) {
    var p := GoParse(pattern);
    && Supported(pattern) && p.verb == "" && p.tokens == MissTokens(first, e, a, name, files)
    && FieldsOf(pattern) == [Field(e, a + "/", [], [e], ""), Field(name, files + "/", [], [name], "")]
    && p.vars == [PathVar(e, e, a + "/", true, "", None), PathVar(name, name, files + "/", true, "", None)]
    && SplitTokens(p.tokens)[1..]
      == [Chars(first), Chars(a), [Var(Hole(e, false))], Chars(files), [Var(Hole(name, true))]]
    && Holes(p.tokens) == [Hole(e, false), Hole(name, true)]
  }

  lemma {:induction false} MissRuleIsGood(first: string, e: string, a: string, name: string, files: string, x: string)
    requires GoodMiss(first, e, a, name, files, x)
    ensures GoodRule(MissRule(first, e, a, name, files, x))
  {
    var p, q, t := Literally(first), OneWildcard(e, a), TakesRest(name, files, x);
    OneWildcardText(e, a);
    TakesRestText(name, files, x);
    OneWildcardParses(e, a, false, "");
    TakesRestParses(name, files, x, true, "");
    TwoNames(q, t);
    assert PartNames(q) == [e] && PartNames(t) == [name];
    assert [p, q, t][1..] == [q, t];
    assert NamesOf([p, q, t]) == [] + NamesOf([q, t]);
  }

  lemma {:induction false} MissRuleParses(first: string, e: string, a: string, name: string, files: string, x: string)
    requires GoodMiss(first, e, a, name, files, x)
    ensures var r := MissRule(first, e, a, name, files, x);
      GoParse(Write(r))
          == Parsed([PathVar(e, e, a + "/", true, "", None), PathVar(name, name, files + "/", true, "", None)],
                                  MissTokens(first, e, a, name, files), "")
  {
    var p, q, t := Literally(first), OneWildcard(e, a), TakesRest(name, files, x);
    MissRuleIsGood(first, e, a, name, files, x);
    WriteParses(MissRule(first, e, a, name, files, x));
    assert [p, q, t][1..] == [q, t];
    MissRuleEnd(e, a, name, files, x);
  }

  lemma {:induction false} MissRuleEnd(e: string, a: string, name: string, files: string, x: string)
    requires Simple(e) && SimpleLiteral(a) && Simple(name) && SimpleLiteral(files) && SimpleLiteral(x)
    ensures var last := [Ch('/')] + (Chars(files + "/") + [Var(Hole(name, true))]);
      Reparse([OneWildcard(e, a), TakesRest(name, files, x)], "")
      == Parsed([PathVar(e, e, a + "/", true, "", None), PathVar(name, name, files + "/", true, "", None)],
                [Ch('/')] + (Chars(a + "/") + [Var(Hole(e, false))] + last), "")
  {
    var q, t := OneWildcard(e, a), TakesRest(name, files, x);
    OneWildcardParses(e, a, false, "");
    TakesRestParses(name, files, x, true, "");
    assert [q, t][1..] == [t] && [t][1..] == [];
    var v := PathVar(name, name, files + "/", true, "", None);
    NothingMore([v], Chars(files + "/") + [Var(Hole(name, true))]);
    assert Chars("") == [] && Reparse([], "") == Parsed([], [], "");
    assert Reparse([t], "") == Parsed([v], [Ch('/')] + (Chars(files + "/") + [Var(Hole(name, true))]), "");
  }

  /** Its segments and placeholders. */
  lemma {:induction false} MissSegments(first: string, e: string, a: string, name: string, files: string)
    requires GoodLiteral(first) && GoodLiteral(a) && GoodLiteral(files)
    ensures var ts, g, h := MissTokens(first, e, a, name, files), Hole(e, false), Hole(name, true);
      && SplitTokens(ts) == [[]] + [Chars(first), Chars(a), [Var(g)], Chars(files), [Var(h)]]
      && Holes(ts) == [g, h]
  {
    var g, h := Hole(e, false), Hole(name, true);
    var end := Chars(files + "/") + [Var(h)];
    LevelSegments(files, h);
    LevelThen(a, g, end);
    FirstThen(first, Chars(a + "/") + [Var(g)] + ([Ch('/')] + end));
    FiveInARow(Chars(first), Chars(a), [Var(g)], Chars(files), [Var(h)]);
    assert [g] + [h] == [g, h];
  }

  lemma FiveInARow<T>(p: T, q: T, r: T, s: T, t: T)
    ensures [p] + ([q, r] + [s, t]) == [p, q, r, s, t]
  {
  }

  lemma {:induction false} LevelThen(a: string, h: Hole, end: seq<Token>)
    requires GoodLiteral(a)
    ensures var ts := Chars(a + "/") + [Var(h)] + ([Ch('/')] + end);
      SplitTokens(ts) == [Chars(a), [Var(h)]] + SplitTokens(end) && Holes(ts) == [h] + Holes(end)
  {
    LevelSegments(a, h);
    SplitTokensSum(Chars(a + "/") + [Var(h)], end);
    HolesConcat(Chars(a + "/") + [Var(h)], [Ch('/')] + end);
    SlashHasNoHole(end);
  }

  lemma SlashHasNoHole(ts: seq<Token>)
    ensures Holes([Ch('/')] + ts) == Holes(ts)
  {
    HolesConcat([Ch('/')], ts);
    assert [Ch('/')][1..] == [] && Holes([Ch('/')]) == [] + [];
  }

  lemma {:induction false} FirstThen(first: string, ts: seq<Token>)
    requires GoodLiteral(first)
    ensures var all := [Ch('/')] + (Chars(first) + ([Ch('/')] + ts));
      SplitTokens(all) == [[]] + ([Chars(first)] + SplitTokens(ts)) && Holes(all) == Holes(ts)
  {
    SplitTokensOfText(first);
    SplitTokensSum(Chars(first), ts);
    SplitSlash(Chars(first) + ([Ch('/')] + ts));
    SlashHasNoHole(ts);
    HolesOfChars(first);
    HolesConcat(Chars(first), [Ch('/')] + ts);
    SlashHasNoHole(Chars(first) + ([Ch('/')] + ts));
  }

  lemma {:induction false} LevelSegments(a: string, h: Hole)
    requires GoodLiteral(a)
    ensures SplitTokens(Chars(a + "/") + [Var(h)]) == [Chars(a), [Var(h)]] && Holes(Chars(a + "/") + [Var(h)]) == [h]
  {
    SplitTokensOfText(a);
    OneVar(h);
    SplitTokensSum(Chars(a), [Var(h)]);
    CharsOfPath(a, "");
    assert a + "/" + "" == a + "/" && Chars("") == [] && [Ch('/')] + [] == [Ch('/')];
    Assoc(Chars(a), [Ch('/')], [Var(h)]);
    Fields.OneHole(h);
    HolesOfChars(a + "/");
    HolesConcat(Chars(a + "/"), [Var(h)]);
    assert [] + [h] == [h];
  }

  lemma {:induction false} MissRuleIs(first: string, e: string, a: string, name: string, files: string, x: string)
    requires GoodMiss(first, e, a, name, files, x)
    ensures IsMiss(Write(MissRule(first, e, a, name, files, x)), first, e, a, name, files)
  {
    var r := MissRule(first, e, a, name, files, x);
    MissRuleIsGood(first, e, a, name, files, x);
    MissRuleParses(first, e, a, name, files, x);
    MissIsSupported(r);
    MissSegments(first, e, a, name, files);
    var v, w := PathVar(e, e, a + "/", true, "", None), PathVar(name, name, files + "/", true, "", None);
    TwoAssignments(v, w);
  }

  lemma MissIsSupported(r: Rule)
    requires GoodRule(r) && r.verb == ""
    ensures Supported(Write(r))
  {
    SupportedExactly(r);
  }

  lemma TwoAssignments(v: PathVar, w: PathVar)
    ensures Assignments([v, w]) == Assigned(v) + Assigned(w)
  {
    assert [v, w][1..] == [w] && [w][1..] == [];
    assert Assignments([]) == [];
    assert Assignments([w]) == Assigned(w) + [];
    assert Assigned(w) + [] == Assigned(w);
  }

  /** The search for "e..." hits "name...", so the placeholder {e} is never replaced. */
  lemma {:induction false} NameIsMissed(pattern: string, first: string, e: string, a: string, name: string,
                                        files: string, x: string)
    requires GoodMiss(first, e, a, name, files, x) && IsMiss(pattern, first, e, a, name, files)
    ensures Missed(pattern) == {e}
  {
    FirstIsMissed(pattern, first, e, a, name, files, x);
    SecondIsFound(pattern, first, e, a, name, files, x);
    MissedIsNamed(pattern);
    OnlyFirst(Missed(pattern), VarNames(GoParse(pattern).vars), e, name);
  }

  lemma {:induction false} FirstIsMissed(pattern: string, first: string, e: string, a: string, name: string,
                                         files: string, x: string)
    requires GoodMiss(first, e, a, name, files, x) && IsMiss(pattern, first, e, a, name, files)
    ensures e in Missed(pattern)
  {
    var holes := [Hole(e, false), Hole(name, true)];
    assert holes[1].rest && holes[1] in holes && EndsRestName(holes, e);
    MissedExactly(pattern, 0);
  }

  lemma {:induction false} SecondIsFound(pattern: string, first: string, e: string, a: string, name: string,
                                         files: string, x: string)
    requires GoodMiss(first, e, a, name, files, x) && IsMiss(pattern, first, e, a, name, files)
    ensures name !in Missed(pattern)
  {
    MissHasNoDots(first, e, a, name, files);
    NoDotsNoText(GoParse(pattern).tokens, name);
    MissedExactly(pattern, 1);
  }

  lemma OnlyFirst(missed: set<string>, names: seq<string>, e: string, name: string)
    requires names == [e, name] && e in missed && name !in missed && forall n | n in missed :: n in names
    ensures missed == {e}
  {
  }

  lemma MissHasNoDots(first: string, e: string, a: string, name: string, files: string)
    requires '.' !in first && '.' !in a && '.' !in files
    ensures NoLiteralDots(MissTokens(first, e, a, name, files))
  {
    var ts := MissTokens(first, e, a, name, files);
    NoDots(first);
    NoDots(a + "/");
    NoDots(files + "/");
    assert Ch('.') !in ts;
    forall i | 0 <= i < |ts|
      ensures ts[i] != Ch('.')
    {
      assert ts[i] in ts;
    }
  }

  lemma NoDots(s: string)
    requires '.' !in s
    ensures Ch('.') !in Chars(s)
  {
  }

  /** What the Go client of that pattern sends, and what the handler reads: the first field comes back
      as its own placeholder, whatever was sent. */
  lemma {:induction false} MissedComesBackAltered(pattern: string, first: string, e: string, a: string, name: string,
                                                  files: string, x: string, k: string, v: string)
    requires GoodMiss(first, e, a, name, files, x) && IsMiss(pattern, first, e, a, name, files)
    requires Octets(a) && Octets(files) && Octets(k) && Octets(v) && CleanSegments(Split(v, '/'))
    ensures var msg, ts := map[e := a + "/" + k, name := files + "/" + v], GoParse(pattern).tokens;
      && OctetMessage(msg) && SameRoute(ts, ts)
      && AnswerTo(pattern, ts, GoPath(pattern, msg)) == Texts([a + "/" + ("{" + e + "}"), files + "/" + v])
  {
    var msg := map[e := a + "/" + k, name := files + "/" + v];
    OctetSum(a, k);
    OctetSum(files, v);
    OwnRoute(pattern);
    NameIsMissed(pattern, first, e, a, name, files, x);
    MissedRaws(pattern, first, e, a, name, files, k, v);
    MissedArrives(pattern, first, e, a, name, files, k, v);
    MissedServable(pattern, first, e, a, name, files, v);
    JoinedTwo(Field(e, a + "/", [], [e], ""), Field(name, files + "/", [], [name], ""), "{" + e + "}", v);
    GoAnswer(pattern, msg, [k, v]);
  }

  /** The handler joins what arrives. */
  lemma {:induction false} GoAnswer(pattern: string, msg: Message, raws: seq<string>)
    requires Supported(pattern) && OctetMessage(msg) && SameRoute(GoParse(pattern).tokens, GoParse(pattern).tokens)
    requires raws == GoRaws(GoParse(pattern).vars, msg) && ServableValues(pattern, ArrivingAt(pattern, raws))
    ensures WellFormed(FieldsOf(pattern)) && |AllNames(FieldsOf(pattern))| == |raws|
    ensures AnswerTo(pattern, GoParse(pattern).tokens, GoPath(pattern, msg))
      == Texts(Joined(FieldsOf(pattern), ArrivingAt(pattern, raws)))
  {
    OctetRaws(Go, GoParse(pattern).vars, msg);
    CodecsAreValid();
    ServerGetsTheValues(pattern, GoCodec(), raws, GoParse(pattern).tokens);
  }

  lemma MissedRaws(pattern: string, first: string, e: string, a: string, name: string, files: string, k: string,
                   v: string)
    requires IsMiss(pattern, first, e, a, name, files) && e != name
    ensures GoRaws(GoParse(pattern).vars, map[e := a + "/" + k, name := files + "/" + v]) == [k, v]
  {
    var msg := map[e := a + "/" + k, name := files + "/" + v];
    var vars := GoParse(pattern).vars;
    SingleRaw(vars[0], e, a + "/", k, msg);
    SingleRaw(vars[1], name, files + "/", v, msg);
    TwoRaws(vars, msg, k, v);
  }

  lemma SingleRaw(x: PathVar, field: string, prefix: string, value: string, msg: Message)
    requires x.multi.None? && x.fieldPath == field && x.prefix == prefix && field in msg && msg[field] == prefix + value
    ensures GoRaw(x, msg) == value
  {
    TrimOwn(prefix, value);
  }

  lemma TwoRaws(vars: seq<PathVar>, msg: Message, k: string, v: string)
    requires |vars| == 2 && GoRaw(vars[0], msg) == k && GoRaw(vars[1], msg) == v
    ensures GoRaws(vars, msg) == [k, v]
  {
  }

  lemma TrimOwn(prefix: string, value: string)
    ensures TrimPrefix(prefix + value, prefix) == value
  {
    assert (prefix + value)[|prefix|..] == value;
  }

  lemma MissedArrives(pattern: string, first: string, e: string, a: string, name: string, files: string, k: string,
                      v: string)
    requires IsMiss(pattern, first, e, a, name, files) && e != name && Missed(pattern) == {e}
    ensures ArrivingAt(pattern, [k, v]) == ["{" + e + "}", v]
  {
    TwoArrive(VarNames(GoParse(pattern).vars), e, name, k, v);
  }

  lemma TwoArrive(names: seq<string>, e: string, name: string, k: string, v: string)
    requires e != name && names == [e, name]
    ensures Arriving(names, [k, v], {e}) == ["{" + e + "}", v]
  {
  }

  lemma {:induction false} MissedServable(pattern: string, first: string, e: string, a: string, name: string,
                                          files: string, v: string)
    requires IsMiss(pattern, first, e, a, name, files) && CleanSegments(Split(v, '/'))
    ensures ServableValues(pattern, ["{" + e + "}", v])
  {
    TwoGood([Hole(e, false), Hole(name, true)], e, v);
    GoodValuesAreServable(pattern, ["{" + e + "}", v]);
  }

  lemma TwoGood(holes: seq<Hole>, e: string, v: string)
    requires |holes| == 2 && !holes[0].rest && holes[1].rest && CleanSegments(Split(v, '/'))
    ensures forall i | 0 <= i < 2 :: GoodText(["{" + e + "}", v][i], holes[i].rest)
  {
    assert |"{" + e + "}"| >= 2 && ("{" + e + "}")[0] == '{';
  }

  lemma LiteralIsNoHole(text: string)
    requires GoodLiteral(text)
    ensures !IsHole(Chars(text))
  {
    assert Chars(text)[0] == Ch(text[0]);
  }

  lemma JoinedTwo(f: Field, g: Field, x: string, y: string)
    requires |f.names| == 1 && |g.names| == 1 && f.seps == [] && g.seps == [] && f.fieldPath != "" && g.fieldPath != ""
    ensures WellFormed([f, g]) && |AllNames([f, g])| == 2 && Joined([f, g], [x, y]) == [f.prefix + x, g.prefix + y]
  {
    assert [f, g][1..] == [g] && [g][1..] == [];
    assert AllNames([g]) == g.names + [] && AllNames([f, g]) == f.names + AllNames([g]);
    assert [x, y][..1] == [x] && [x, y][1..] == [y] && [y][..1] == [y] && [y][1..] == [];
    assert Joined([g], [y]) == [g.prefix + y] + [];
  }

  lemma OneWildcardWritten(field: string, literal: string)
    requires Simple(field) && SimpleLiteral(literal)
    ensures WritePart(OneWildcard(field, literal)) == "{" + (field + "=" + (literal + "/*")) + "}"
  {
    OneWildcardText(field, literal);
  }

  function MissText(first: string, e: string, a: string, name: string, files: string, x: string): string {
    "/" + first + ("/" + ("{" + (e + "=" + (a + "/*")) + "}") + ("/" + RestPartText(name, files, x)))
  }

  lemma MissWritten(first: string, e: string, a: string, name: string, files: string, x: string)
    requires GoodMiss(first, e, a, name, files, x)
    ensures Write(MissRule(first, e, a, name, files, x)) == MissText(first, e, a, name, files, x)
  {
    OneWildcardWritten(e, a);
    TakesRestText(name, files, x);
    ThreeParts(Literally(first), OneWildcard(e, a), TakesRest(name, files, x));
  }

  const E := "e"
  const A := "a"
  const K := "k"
  const PQ := "p/q"

  const MISSING := "/v1/{e=a/*}/{name=files/*/x}"

  lemma MissTextAt()
    ensures MissText(V1, E, A, NAME, FILES, X) == MISSING
  {
    assert A + "/*" == "a/*" && E + "=" + "a/*" == "e=a/*";
    RestPartTextAt();
    assert "/" + ("{" + "e=a/*" + "}") == "/{e=a/*}";
  }

  lemma MissNamesAreGood()
    ensures GoodMiss(V1, E, A, NAME, FILES, X)
  {
    assert NAME[3..] == E;
  }

  lemma ThreeParts(p: Part, q: Part, t: Part)
    ensures Write(Rule([p, q, t], "")) == "/" + WritePart(p) + ("/" + WritePart(q) + ("/" + WritePart(t)))
  {
    assert [p, q, t][1..] == [q, t] && [q, t][1..] == [t] && [t][1..] == [];
    assert WriteParts([t]) == "/" + WritePart(t) + "" && WriteParts([q, t]) == "/" + WritePart(q) + WriteParts([t]);
  }

  /** For every such pattern and every value: the path that is built, and, of a pattern whose bytes
      net/url leaves alone, the request that is sent. */
  lemma MissedAlways(pattern: string, first: string, e: string, a: string, name: string, files: string, x: string,
                     k: string, v: string)
    requires GoodMiss(first, e, a, name, files, x) && pattern == MissText(first, e, a, name, files, x)
    requires Octets(a) && Octets(files) && Octets(k) && Octets(v) && CleanSegments(Split(v, '/'))
    ensures Missed(pattern) == {e} && Supported(pattern)
    ensures var msg, ts := map[e := a + "/" + k, name := files + "/" + v], GoParse(pattern).tokens;
      && OctetMessage(msg) && SameRoute(ts, ts)
      && AnswerTo(pattern, ts, GoPath(pattern, msg)) == Texts([a + "/" + ("{" + e + "}"), files + "/" + v])
      && (Only(pattern, PlainBytes()) ==>
            PathBytes(pattern) && AnswerToSent(pattern, ts, GoRequest(pattern, msg))
                                    == Texts([a + "/" + ("{" + e + "}"), files + "/" + v]))
  {
    MissWritten(first, e, a, name, files, x);
    MissRuleIs(first, e, a, name, files, x);
    NameIsMissed(pattern, first, e, a, name, files, x);
    MissedComesBackAltered(pattern, first, e, a, name, files, x, k, v);
    if Only(pattern, PlainBytes()) { MissedIsSteady(pattern, first, e, a, name, files, k, v); }
  }

  lemma {:induction false} MissedIsSteady(pattern: string, first: string, e: string, a: string, name: string,
                                          files: string, k: string, v: string)
    requires IsMiss(pattern, first, e, a, name, files) && e != name && Missed(pattern) == {e} && '/' !in e
    requires Only(pattern, PlainBytes()) && OctetMessage(map[e := a + "/" + k, name := files + "/" + v])
    requires SameRoute(GoParse(pattern).tokens, GoParse(pattern).tokens)
    ensures var msg, ts := map[e := a + "/" + k, name := files + "/" + v], GoParse(pattern).tokens;
      PathBytes(pattern)
      && AnswerToSent(pattern, ts, GoRequest(pattern, msg)) == AnswerTo(pattern, ts, GoPath(pattern, msg))
  {
    MissedRaws(pattern, first, e, a, name, files, k, v);
    MissedArrives(pattern, first, e, a, name, files, k, v);
    OneHasNoSlash(Hole(e, false), Hole(name, true), e, v);
    PlainIsAlike(pattern, GoParse(pattern).tokens, map[e := a + "/" + k, name := files + "/" + v]);
  }

  lemma OneHasNoSlash(g: Hole, h: Hole, e: string, v: string)
    requires '/' !in e && h.rest
    ensures SlashFree(ValueMap([g, h], ["{" + e + "}", v]))
  {
    assert [g, h][1..] == [h] && [h][1..] == [] && ["{" + e + "}", v][1..] == [v] && [v][1..] == [];
    assert ValueMap([h], [v]) == map[][h := v];
  }

  lemma SplitPQ()
    ensures Split(PQ, '/') == ["p", "q"] && CleanSegments(Split(PQ, '/'))
  {
    SplitWhole("p", '/');
    SplitWhole("q", '/');
    SplitSum("p", '/', "q");
    assert PQ == "p" + ['/'] + "q";
  }

  /** The texts of the literal inputs have only bytes that net/url leaves alone. */
  lemma MissingIsPlain()
    ensures Only(MISSING, PlainBytes())
  {
    PlainBytesHaveNumbers();
    forall c | c in MISSING
      ensures c in PlainBytes()
    {
      assert IsAlphanumeric(c) ==> c in Alphanumerics();
    }
  }

  lemma MissedTextsAt()
    ensures A + "/" + K == "a/k" && FILES + "/" + PQ == "files/p/q" && A + "/" + ("{" + E + "}") == "a/{e}"
  {
  }

  /** The name of the first field comes back as "a/{e}". */
  lemma MissedAltered()
    ensures Missed(MISSING) == {"e"} && Supported(MISSING) && PathBytes(MISSING)
    ensures var ts, msg := GoParse(MISSING).tokens, map["e" := "a/k", "name" := "files/p/q"];
      && OctetMessage(msg) && SameRoute(ts, ts)
      && AnswerToSent(MISSING, ts, GoRequest(MISSING, msg)) == Texts(["a/{e}", "files/p/q"])
  {
    MissTextAt();
    MissNamesAreGood();
    SplitPQ();
    MissedTextsAt();
    MissingIsPlain();
    MissedAlways(MISSING, V1, E, A, NAME, FILES, X, K, PQ);
  }

  // ---- three wildcards in one field: the Go client sends the whole field for each ----

  function ThreePath(a: string, b: string, c: string): seq<Element> { [Lit(a), Star, Lit(b), Star, Lit(c), Star] }

  function ThreeTexts(a: string, b: string, c: string): seq<string> {
    [a + "/", "/" + (b + "/"), "/" + (c + "/"), ""]
  }

  /** "literal/star/" in front of a path. */
  lemma LevelFirst(literal: string, path: seq<Element>)
    requires SimpleLiteral(literal) && path != []
    ensures PathText([Lit(literal), Star] + path) == literal + "/" + ("*" + "/" + PathText(path))
    ensures var more := Split(PathText(path), '*');
      Split(PathText([Lit(literal), Star] + path), '*') == [literal + "/"] + (["/" + more[0]] + more[1..])
  {
    var all, rest := [Lit(literal), Star] + path, [Star] + path;
    assert all[0] == Lit(literal) && all[1..] == rest && rest[0] == Star && rest[1..] == path;
    PathTextCons(all);
    PathTextCons(rest);
    MoreTexts(Star, PathText(path));
    MoreTexts(Lit(literal), PathText(rest));
    var more := Split(PathText(path), '*');
    var texts := ["/" + more[0]] + more[1..];
    assert ([""] + texts)[0] == "" && ([""] + texts)[1..] == texts;
    assert literal + "/" + "" == literal + "/";
  }

  lemma {:induction false} ThreeStarsText(a: string, b: string, c: string)
    requires SimpleLiteral(a) && SimpleLiteral(b) && SimpleLiteral(c)
    ensures Split(PathText(ThreePath(a, b, c)), '*') == ThreeTexts(a, b, c)
    ensures PathText(ThreePath(a, b, c)) == a + "/" + ("*" + "/" + (b + "/" + ("*" + "/" + (c + "/*"))))
  {
    var end, mid := [Lit(c), Star], [Lit(b), Star, Lit(c), Star];
    OneWildcardText("x", c);
    LevelFirst(b, end);
    assert [Lit(b), Star] + end == mid;
    TextsInFront(b, [c + "/", ""]);
    LevelFirst(a, mid);
    assert [Lit(a), Star] + mid == ThreePath(a, b, c);
    TextsInFront(a, [b + "/", "/" + (c + "/"), ""]);
  }

  lemma TextsInFront(literal: string, more: seq<string>)
    requires |more| == 2 || |more| == 3
    ensures [literal + "/"] + (["/" + more[0]] + more[1..])
      == if |more| == 2 then [literal + "/", "/" + more[0], more[1]]
        else [literal + "/", "/" + more[0], more[1], more[2]]
  {
  }

  /** A segment without dots that is no rest-of-path placeholder. */
  predicate Quiet(seg: seq<Token>) { Ch('.') !in seg && (IsHole(seg) ==> !seg[0].hole.rest) }

  predicate AllQuiet(segs: seq<seq<Token>>) { forall seg | seg in segs :: Quiet(seg) }

  lemma QuietConcat(a: seq<seq<Token>>, b: seq<seq<Token>>)
    ensures AllQuiet(a + b) <==> AllQuiet(a) && AllQuiet(b)
  {
    assert forall seg | seg in a :: seg in a + b;
    assert forall seg | seg in b :: seg in a + b;
  }

  lemma QuietText(text: string)
    requires GoodLiteral(text) && '.' !in text
    ensures Quiet(Chars(text)) && AllQuiet([Chars(text)])
  {
    LiteralIsNoHole(text);
    NoDots(text);
  }

  lemma {:induction false} ElementsAreQuiet(path: seq<Element>, name: string, k: nat)
    requires forall e | e in path :: GoodElement(e) && (e.Lit? ==> '.' !in e.text)
    ensures AllQuiet(ElementSegs(path, name, k))
  {
    if path != [] {
      assert path[0] in path && forall e | e in path[1..] :: e in path;
      var j := if path[0].Star? then k + 1 else k;
      ElementsAreQuiet(path[1..], name, j);
      var head := if path[0].Star? then [Var(Hole(SubName(name, k), false))] else Chars(path[0].text);
      if path[0].Lit? { QuietText(path[0].text); }
      QuietConcat([head], ElementSegs(path[1..], name, j));
    }
  }

  lemma {:induction false} NoRestInSegs(segs: seq<seq<Token>>)
    requires AllQuiet(segs)
    ensures forall h | h in SegHoles(segs) :: !h.rest
  {
    if segs != [] {
      assert segs[0] in segs && forall seg | seg in segs[1..] :: seg in segs;
      NoRestInSegs(segs[1..]);
    }
  }

  lemma {:induction false} SegmentsHaveNoDots(ts: seq<Token>)
    requires forall seg | seg in SplitTokens(ts) :: Ch('.') !in seg
    ensures NoLiteralDots(ts)
  {
    if Ch('.') in ts { TokensAreInSegments(ts, Ch('.')); }
    assert forall i | 0 <= i < |ts| :: ts[i] in ts;
  }

  /** Where nothing takes the rest of the path, every placeholder is found. */
  lemma {:induction false} NothingIsMissed(pattern: string)
    requires Supported(pattern) && AllQuiet(SplitTokens(GoParse(pattern).tokens))
    ensures Missed(pattern) == {} && forall h | h in Holes(GoParse(pattern).tokens) :: !h.rest
  {
    var ts := GoParse(pattern).tokens;
    SegmentsHaveNoDots(ts);
    RoutableHoles(ts);
    QuietTail(SplitTokens(ts));
    NoRestInSegs(SplitTokens(ts)[1..]);
    MissedIsNamed(pattern);
    var names := VarNames(GoParse(pattern).vars);
    forall n | n in names
      ensures n !in Missed(pattern)
    {
      var i :| 0 <= i < |names| && names[i] == n;
      NoDotsNoText(ts, n);
      MissedExactly(pattern, i);
    }
  }

  lemma QuietTail(segs: seq<seq<Token>>)
    requires segs != [] && AllQuiet(segs)
    ensures AllQuiet(segs[1..])
  {
  }

  lemma {:induction false} GoodTextsAreServable(segs: seq<seq<Token>>, values: map<Hole, string>)
    requires Covers(values, segs) && forall h | h in SegHoles(segs) :: GoodText(values[h], h.rest)
    ensures Servable(segs, values, "")
  {
    if segs != [] {
      CoversHead(values, segs);
      assert forall h | h in SegHoles(segs[1..]) :: h in SegHoles(segs);
      GoodTextsAreServable(segs[1..], values);
      if IsHole(segs[0]) {
        var h := segs[0][0].hole;
        assert SegHoles(segs)[0] == h && values[h] + "" == values[h];
      }
    }
  }

  /** Without a verb, values are served when each can stand in its place. */
  lemma {:induction false} GoodValuesAreServable(pattern: string, raws: seq<string>)
    requires Supported(pattern) && |raws| == |GoParse(pattern).vars| && GoParse(pattern).verb == ""
    requires |Holes(GoParse(pattern).tokens)| == |raws|
    requires forall i | 0 <= i < |raws| :: GoodText(raws[i], Holes(GoParse(pattern).tokens)[i].rest)
    ensures ServableValues(pattern, raws)
  {
    var holes := Holes(GoParse(pattern).tokens);
    ValuesCover(pattern, raws);
    DistinctNamesDistinctHoles(holes);
    forall h | h in holes
      ensures h in ValueMap(holes, raws) && GoodText(ValueMap(holes, raws)[h], h.rest)
    {
      var i :| 0 <= i < |holes| && holes[i] == h;
      ValueAt(holes, raws, i);
    }
    GoodTextsAreServable(SplitTokens(GoParse(pattern).tokens)[1..], ValueMap(holes, raws));
  }

  function ThreeRule(first: string, field: string, a: string, b: string, c: string): Rule {
    Rule([Literally(first), Bound(field, ThreePath(a, b, c))], "")
  }

  predicate GoodThree(first: string, field: string, a: string, b: string, c: string) {
    && GoodLiteral(first) && Simple(field) && SimpleLiteral(a) && SimpleLiteral(b) && SimpleLiteral(c)
    && '.' !in first && '.' !in a && '.' !in b && '.' !in c
  }

  function ThreeNames(field: string): seq<string> { [SubName(field, 0), SubName(field, 1), SubName(field, 2)] }

  function ThreeField(field: string, a: string, b: string, c: string): Field {
    Field(field, a + "/", ["/" + (b + "/"), "/" + (c + "/")], ThreeNames(field), "")
  }

  ghost predicate IsThree(pattern: string, field: string, a: string, b: string, c: string) {
    && Supported(pattern) && GoParse(pattern).verb == "" && FieldsOf(pattern) == [ThreeField(field, a, b, c)]
    && Missed(pattern) == {} && forall h | h in Holes(GoParse(pattern).tokens) :: !h.rest
  }

  lemma ThreeNamesAreDistinct(field: string)
    ensures SubNames(field, 3) == ThreeNames(field) && Distinct(ThreeNames(field))
  {
    assert SubNames(field, 1) == [] + [SubName(field, 0)]
      && SubNames(field, 2) == SubNames(field, 1) + [SubName(field, 1)];
    Decimal.ValueOfPrint(0);
    Decimal.ValueOfPrint(1);
    Decimal.ValueOfPrint(2);
    DifferentSuffixes(field + "_", Decimal.Print(0), Decimal.Print(1));
    DifferentSuffixes(field + "_", Decimal.Print(0), Decimal.Print(2));
    DifferentSuffixes(field + "_", Decimal.Print(1), Decimal.Print(2));
  }

  lemma DifferentSuffixes(name: string, x: string, y: string)
    requires x != y
    ensures name + x != name + y
  {
    assert (name + x)[|name|..] == x && (name + y)[|name|..] == y;
  }

  lemma {:induction false} ThreeSpec(field: string, a: string, b: string, c: string)
    requires Simple(field) && SimpleLiteral(a) && SimpleLiteral(b) && SimpleLiteral(c)
    ensures var p := Bound(field, ThreePath(a, b, c));
      GoodPart(p) && SpecOf(p) == VarSpec(field, ThreeTexts(a, b, c))
          && FieldOf(SpecOf(p), "") == ThreeField(field, a, b, c)
  {
    SimpleIsGood(field);
    ThreeStarsText(a, b, c);
    ThreeNamesAreDistinct(field);
    assert ThreePath(a, b, c)[1] == Star;
    assert Separators(ThreeTexts(a, b, c)) == ["/" + (b + "/"), "/" + (c + "/")];
  }

  lemma {:induction false} ThreeIsQuiet(p: Part, first: string, field: string, a: string, b: string, c: string)
    requires GoodThree(first, field, a, b, c) && p == Bound(field, ThreePath(a, b, c)) && GoodPart(p)
    ensures AllQuiet(SplitTokens(Reparse([Literally(first), p], "").tokens))
  {
    var parts := [Literally(first), p];
    ReparseTokens(parts, "");
    SegsSplit(parts);
    assert PathTokens(parts) + Chars("") == PathTokens(parts);
    ThreeSpec(field, a, b, c);
    QuietText(first);
    ElementsAreQuiet(p.path, field, 0);
    assert parts[1..] == [p] && [p][1..] == [];
    assert Segs([p]) == ElementSegs(p.path, field, 0) + [];
    QuietTwo(Chars(first), ElementSegs(p.path, field, 0));
  }

  lemma QuietTwo(first: seq<Token>, inner: seq<seq<Token>>)
    requires Quiet(first) && AllQuiet(inner)
    ensures AllQuiet([[]] + ([first] + (inner + [])))
  {
  }

  lemma {:induction false} ThreeRuleIs(first: string, field: string, a: string, b: string, c: string)
    requires GoodThree(first, field, a, b, c)
    ensures IsThree(Write(ThreeRule(first, field, a, b, c)), field, a, b, c)
  {
    var r, p := ThreeRule(first, field, a, b, c), Bound(field, ThreePath(a, b, c));
    ThreeSpec(field, a, b, c);
    ThreeNamesAreDistinct(field);
    TwoNames(Literally(first), p);
    assert [] + ThreeNames(field) == ThreeNames(field);
    SupportedExactly(r);
    WriteParses(r);
    VerbOfReparse(r.parts, "");
    ThreeIsQuiet(p, first, field, a, b, c);
    NothingIsMissed(Write(r));
    ThreeFields(first, p);
    FieldsWritten(r.parts, "");
    FieldsOfPattern(Write(r), map[]);
  }

  lemma ThreeFields(first: string, p: Part)
    requires p.Bound?
    ensures FieldsOfParts([Literally(first), p], "") == [FieldOf(SpecOf(p), "")]
  {
    assert [Literally(first), p][1..] == [p] && [p][1..] == [];
    assert FieldsOfParts([p], "") == [FieldOf(SpecOf(p), "")] + [];
  }

  /** "a/x/b/y/c/z" */
  function ThreeValue(a: string, x: string, b: string, y: string, c: string, z: string): string {
    (a + "/") + (x + ("/" + (b + "/")) + (y + ("/" + (c + "/")) + z))
  }

  lemma {:induction false} ThreePieces(x: string, y: string, z: string, s: string, t: string)
    requires '/' !in x && '/' !in y && "/" <= s && "/" <= t
    ensures Pieces(x + s + (y + t + z), [s, t]) == [x, y, z] && InOrder(x + s + (y + t + z), [s, t])
  {
    var tail := y + t + z;
    CutAfterName(x, s, tail);
    CutAfterName(y, t, z);
    assert [s, t][1..] == [t] && [t][1..] == [];
    PiecesStep(x + s + tail, [s, t]);
    PiecesStep(tail, [t]);
    assert Pieces(z, []) == [z];
  }

  lemma InterleaveThree(x: string, y: string, z: string, s: string, t: string)
    ensures Interleave([x, y, z], [s, t]) == x + s + (y + t + z)
  {
    assert [x, y, z][1..] == [y, z] && [y, z][1..] == [z] && [s, t][1..] == [t] && [t][1..] == [];
    assert Interleave([y, z], [t]) == y + t + z;
  }

  /** How the handler reads three values. */
  lemma ThreeJoined(f: Field, x: string, y: string, z: string, s: string, t: string)
    requires f.seps == [s, t] && |f.names| == 3 && f.fieldPath != ""
    ensures WellFormed([f]) && |AllNames([f])| == 3
    ensures Joined([f], [x, y, z]) == [f.prefix + (x + s + (y + t + z))]
  {
    var values := [x, y, z];
    InterleaveThree(x, y, z, s, t);
    assert [f][1..] == [] && AllNames([f]) == f.names + [];
    assert values[..3] == values && values[3..] == [];
    assert Joined([f], values) == [f.prefix + Interleave(values, f.seps)] + [];
  }

  lemma {:induction false} ThreeServable(pattern: string, field: string, a: string, b: string, c: string,
                                         raws: seq<string>)
    requires IsThree(pattern, field, a, b, c) && |raws| == 3 && forall i | 0 <= i < 3 :: GoodText(raws[i], false)
    ensures |GoParse(pattern).vars| == 3 && ServableValues(pattern, raws)
  {
    var holes := Holes(GoParse(pattern).tokens);
    PlaceholdersCounted(pattern);
    ThreeVariables(pattern, field, a, b, c);
    assert forall i | 0 <= i < |holes| :: holes[i] in holes;
    GoodValuesAreServable(pattern, raws);
  }

  lemma ThreeVariables(pattern: string, field: string, a: string, b: string, c: string)
    requires IsThree(pattern, field, a, b, c)
    ensures |GoParse(pattern).vars| == 3
  {
    var f := ThreeField(field, a, b, c);
    FieldsOfPattern(pattern, map[]);
    assert [f][1..] == [] && AllNames([f]) == f.names + [];
  }

  lemma {:induction false} GoSendsItThrice(pattern: string, field: string, a: string, b: string, c: string,
                                           value: string)
    requires Simple(field) && IsThree(pattern, field, a, b, c)
    ensures GoRaws(GoParse(pattern).vars, map[field := value]) == [value, value, value]
  {
    var msg, f := map[field := value], ThreeField(field, a, b, c);
    ParseIsAligned(pattern, "");
    FieldsOfPattern(pattern, msg);
    RawsByField(Go, GoParse(pattern).vars, [f], msg);
    OneFieldValues(Go, f, msg);
    assert ClientValues(Go, f, msg) == Repeat(value, 3);
  }

  lemma OneFieldValues(client: Client, f: Field, msg: Message)
    ensures AllClientValues(client, [f], msg) == ClientValues(client, f, msg)
  {
    assert [f][1..] == [] && ClientValues(client, f, msg) + [] == ClientValues(client, f, msg);
  }

  lemma NoneMissing(names: seq<string>, values: seq<string>, missed: set<string>)
    requires |names| == |values| && missed == {}
    ensures Arriving(names, values, missed) == values
  {
  }

  /** The Go client of a pattern with three wildcards, for every value that can stand in a segment:
      the handler reads the value three times over. */
  lemma {:induction false} ThreeComeBackAltered(pattern: string, field: string, a: string, b: string, c: string,
                                                value: string)
    requires Simple(field) && IsThree(pattern, field, a, b, c) && Octets(value) && GoodText(value, false)
    ensures var ts, msg := GoParse(pattern).tokens, map[field := value];
      && SameRoute(ts, ts) && OctetMessage(msg)
      && AnswerTo(pattern, ts, GoPath(pattern, msg)) == Texts([ThreeValue(a, value, b, value, c, value)])
  {
    var msg, raws := map[field := value], [value, value, value];
    OwnRoute(pattern);
    GoSendsItThrice(pattern, field, a, b, c, value);
    ThreeServable(pattern, field, a, b, c, raws);
    NoneMissing(VarNames(GoParse(pattern).vars), raws, Missed(pattern));
    ThreeJoined(ThreeField(field, a, b, c), value, value, value, "/" + (b + "/"), "/" + (c + "/"));
    GoAnswer(pattern, msg, raws);
  }

  lemma {:induction false} ThreeDeliverable(pattern: string, f: Field, raws: seq<string>, msg: Message)
    requires Supported(pattern) && FieldsOf(pattern) == [f] && |raws| == 3 == |GoParse(pattern).vars|
    requires ServableValues(pattern, raws) && AllValues([f], msg) == raws && FieldsFit([f], msg)
    requires OctetMessage(msg)
    ensures Deliverable(pattern, msg)
  {
    SharedValues(pattern, msg);
  }

  /** It is not the name's fault: the Python client of the same pattern gets it back. */
  lemma {:induction false} PythonSplitsThree(pattern: string, field: string, a: string, b: string, c: string,
                                             x: string, y: string, z: string)
    requires Simple(field) && IsThree(pattern, field, a, b, c) && NoVerbInside(pattern)
    requires '/' !in x && '/' !in y && Octets(ThreeValue(a, x, b, y, c, z))
    requires GoodText(x, false) && GoodText(y, false) && GoodText(z, false)
    ensures var ts, value := GoParse(pattern).tokens, ThreeValue(a, x, b, y, c, z);
      var msg := map[field := value];
      && SameRoute(ts, ts) && OctetMessage(msg) && Deliverable(pattern, msg)
      && AnswerTo(pattern, ts, PythonPath(pattern, msg)) == Texts([value])
  {
    var f, msg := ThreeField(field, a, b, c), map[field := ThreeValue(a, x, b, y, c, z)];
    OwnRoute(pattern);
    ThreeFit(f, msg, a, x, b, y, c, z);
    ThreeServable(pattern, field, a, b, c, [x, y, z]);
    ThreeDeliverable(pattern, f, [x, y, z], msg);
    ReachesWhenFound(Python, [f], msg);
    PythonRoundTrip(pattern, GoParse(pattern).tokens, msg);
  }

  ghost predicate NoVerbInside(pattern: string) {
    Agreement.NoColonInBraces(pattern) && !Agreement.RestWithVerb(pattern)
  }

  lemma {:induction false} ThreeFit(f: Field, msg: Message, a: string, x: string, b: string, y: string, c: string,
                                    z: string)
    requires f.prefix == a + "/" && f.seps == ["/" + (b + "/"), "/" + (c + "/")] && '/' !in x && '/' !in y
    requires msg == map[f.fieldPath := ThreeValue(a, x, b, y, c, z)]
    ensures AllValues([f], msg) == [x, y, z] && FieldsFit([f], msg)
    ensures Originals([f], msg) == [ThreeValue(a, x, b, y, c, z)]
  {
    var value, s, t := ThreeValue(a, x, b, y, c, z), "/" + (b + "/"), "/" + (c + "/");
    var rest := x + s + (y + t + z);
    assert value == (a + "/") + rest && value[|a + "/"|..] == rest;
    ThreePieces(x, y, z, s, t);
    assert FieldValues(f, msg) == [x, y, z];
    assert [f][1..] == [] && [x, y, z] + [] == [x, y, z];
  }

  lemma {:induction false} RestWithVerbSkips(text: string, s: string)
    requires '{' !in text
    ensures Agreement.RestWithVerb(text + s) == Agreement.RestWithVerb(s)
  {
    if text == "" {
      assert text + s == s;
    } else {
      assert text[0] in text && forall c | c in text[1..] :: c in text;
      ConsConcat(text, s);
      RestWithVerbSkips(text[1..], s);
    }
  }

  lemma {:induction false} OneVariableHasNoVerb(before: string, p: Part)
    requires '{' !in before && GoodPart(p) && !p.Literally? && ':' !in Inside(p)
    ensures NoVerbInside(before + WritePart(p))
  {
    ReadWritten(p, "");
    assert WritePart(p) + "" == WritePart(p);
    RestWithVerbSkips(before, WritePart(p));
    assert !Agreement.RestWithVerb("");
    InsideIsBraceFree(p);
    OneBrace(before, Inside(p), "");
    NothingAfter(before, Inside(p));
  }

  lemma NothingAfter(before: string, inside: string)
    ensures before + "{" + inside + "}" + "" == before + ("{" + inside + "}")
  {
  }

  lemma {:induction false} ThreeHasNoVerb(first: string, field: string, a: string, b: string, c: string)
    requires GoodThree(first, field, a, b, c) && ':' !in field && ':' !in a && ':' !in b && ':' !in c
    ensures NoVerbInside(Write(ThreeRule(first, field, a, b, c)))
    ensures Write(ThreeRule(first, field, a, b, c)) == ThreeText(first, field, a, b, c)
  {
    var p := Bound(field, ThreePath(a, b, c));
    ThreeSpec(field, a, b, c);
    ThreeStarsText(a, b, c);
    TwoParts(Literally(first), p, "");
    OneVariableHasNoVerb("/" + first + "/", p);
    SlashFirst("/" + first, WritePart(p));
  }

  lemma SlashFirst(before: string, part: string)
    ensures before + ("/" + part) + "" == (before + "/") + part
  {
  }

  function ThreeText(first: string, field: string, a: string, b: string, c: string): string {
    ("/" + first + "/") + ("{" + (field + "=" + (a + "/" + ("*" + "/" + (b + "/" + ("*" + "/" + (c + "/*")))))) + "}")
  }

  /** Both clients of such a pattern, for every name that fits it: the paths that are built, and, of a
      pattern whose bytes net/url leaves alone, the request that the Go client sends. */
  lemma {:induction false} ThreeAlways(pattern: string, first: string, field: string, a: string, b: string, c: string,
                                       x: string, y: string, z: string, value: string)
    requires GoodThree(first, field, a, b, c) && ':' !in field && ':' !in a && ':' !in b && ':' !in c
    requires pattern == ThreeText(first, field, a, b, c) && value == ThreeValue(a, x, b, y, c, z) && Octets(value)
    requires '/' !in x && '/' !in y && GoodText(x, false) && GoodText(y, false) && GoodText(z, false)
    requires GoodText(value, false)
    ensures var ts, msg := GoParse(pattern).tokens, map[field := value];
      && Supported(pattern) && SameRoute(ts, ts) && OctetMessage(msg) && Deliverable(pattern, msg)
      && AnswerTo(pattern, ts, PythonPath(pattern, msg)) == Texts([value])
      && AnswerTo(pattern, ts, GoPath(pattern, msg)) == Texts([ThreeValue(a, value, b, value, c, value)])
      && (Only(pattern, PlainBytes()) ==>
            PathBytes(pattern) && AnswerToSent(pattern, ts, GoRequest(pattern, msg))
                                    == Texts([ThreeValue(a, value, b, value, c, value)]))
  {
    ThreeRuleIs(first, field, a, b, c);
    ThreeHasNoVerb(first, field, a, b, c);
    PythonSplitsThree(pattern, field, a, b, c, x, y, z);
    ThreeComeBackAltered(pattern, field, a, b, c, value);
    if Only(pattern, PlainBytes()) { PlainIsAlike(pattern, GoParse(pattern).tokens, map[field := value]); }
  }

  const B := "b"
  const C := "c"
  const THREE := "/v1/{name=a/*/b/*/c/*}"
  const THREE_VALUE := "a/1/b/2/c/3"

  lemma ThreeTextAt()
    ensures ThreeText(V1, NAME, A, B, C) == THREE
  {
    assert B + "/" + ("*" + "/" + (C + "/*")) == "b/*/c/*";
    assert A + "/" + ("*" + "/" + "b/*/c/*") == "a/*/b/*/c/*";
    assert NAME + "=" + "a/*/b/*/c/*" == "name=a/*/b/*/c/*";
    assert "/" + V1 + "/" == "/v1/";
  }

  lemma ThreeNamesAreGood()
    ensures GoodThree(V1, NAME, A, B, C) && ':' !in NAME && ':' !in A && ':' !in B && ':' !in C
  {
  }

  lemma ThreeValueAt()
    ensures THREE_VALUE == ThreeValue(A, "1", B, "2", C, "3") && Octets(THREE_VALUE) && GoodText(THREE_VALUE, false)
    ensures GoodText("1", false) && GoodText("2", false) && GoodText("3", false)
  {
    assert "2" + ("/" + (C + "/")) + "3" == "2/c/3";
    assert "1" + ("/" + (B + "/")) + "2/c/3" == "1/b/2/c/3";
  }

  lemma ThreeIsPlain()
    ensures Only(THREE, PlainBytes())
  {
    PlainBytesHaveNumbers();
    forall c | c in THREE
      ensures c in PlainBytes()
    {
      assert IsAlphanumeric(c) ==> c in Alphanumerics();
    }
  }

  /** The Go client puts the whole name in the place of each wildcard; the Python client does not. */
  lemma ThreeWildcardsAltered()
    ensures Supported(THREE) && PathBytes(THREE)
    ensures var ts, msg := GoParse(THREE).tokens, map["name" := THREE_VALUE];
      && SameRoute(ts, ts) && OctetMessage(msg) && Deliverable(THREE, msg)
      && AnswerTo(THREE, ts, PythonPath(THREE, msg)) == Texts([THREE_VALUE])
      && AnswerToSent(THREE, ts, GoRequest(THREE, msg))
         == Texts([ThreeValue("a", THREE_VALUE, "b", THREE_VALUE, "c", THREE_VALUE)])
  {
    ThreeTextAt();
    ThreeNamesAreGood();
    ThreeValueAt();
    ThreeIsPlain();
    ThreeAlways(THREE, V1, NAME, A, B, C, "1", "2", "3", THREE_VALUE);
  }
}
