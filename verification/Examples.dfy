/** Patterns of the grammar taken apart: what the parser makes of a variable with one wildcard, one
    that takes the rest of the path, and a bare one. */
module Examples {
  import opened Text
  import opened Escape
  import opened Template
  import opened Routing
  import opened Patterns
  import opened Fields
  import opened Clients
  import opened RoundTrip
  import opened EndToEnd
  import opened NetUrl
  import opened Reencoding
  import opened GoWire
  import opened Grammar

  /** {field=literal/star} */
  function OneWildcard(field: string, literal: string): Part { Bound(field, [Lit(literal), Star]) }

  /** {field=literal/star/more}, which takes the rest of the path */
  function TakesRest(field: string, literal: string, more: string): Part {
    Bound(field, [Lit(literal), Star, Lit(more)])
  }

  /** A field path of one name. */
  predicate Simple(field: string) { PlainName(field) && '=' !in field && '*' !in field }

  predicate SimpleLiteral(literal: string) { GoodLiteral(literal) && '*' !in literal }

  lemma SimpleIsGood(field: string)
    requires Simple(field)
    ensures GoodField(field) && LastSegment(field) == field
  {
  }

  lemma OneWildcardText(field: string, literal: string)
    requires Simple(field) && SimpleLiteral(literal)
    ensures PathText([Lit(literal), Star]) == literal + "/*" && GoodPart(OneWildcard(field, literal))
    ensures SpecOf(OneWildcard(field, literal)) == VarSpec(field, [literal + "/", ""])
  {
    var path := [Lit(literal), Star];
    SimpleIsGood(field);
    assert path[1..] == [Star];
    PathTextCons(path);
    PathTextCons([Star]);
    assert PathText([Star]) == "*" && literal + "/" + "*" == literal + "/*";
    assert Star in path;
    OneText(Star);
    MoreTexts(Lit(literal), "*");
    assert ["", ""][1..] == [""] && literal + "/" + "" == literal + "/";
  }

  lemma StarThen(more: string)
    requires SimpleLiteral(more)
    ensures PathText([Star, Lit(more)]) == "*/" + more && Split("*/" + more, '*') == ["", "/" + more]
  {
    assert [Star, Lit(more)][1..] == [Lit(more)];
    PathTextCons([Star, Lit(more)]);
    PathTextCons([Lit(more)]);
    OneText(Lit(more));
    MoreTexts(Star, more);
    assert "*" + "/" + more == "*/" + more;
    assert [""] + (["/" + [more][0]] + [more][1..]) == ["", "/" + more];
  }

  lemma TakesRestText(field: string, literal: string, more: string)
    requires Simple(field) && SimpleLiteral(literal) && SimpleLiteral(more)
    ensures PathText([Lit(literal), Star, Lit(more)]) == literal + "/*/" + more
      && GoodPart(TakesRest(field, literal, more))
    ensures SpecOf(TakesRest(field, literal, more)) == VarSpec(field, [literal + "/", "/" + more])
  {
    var path := [Lit(literal), Star, Lit(more)];
    SimpleIsGood(field);
    StarThen(more);
    assert path[1..] == [Star, Lit(more)] && path[1] == Star;
    PathTextCons(path);
    assert literal + "/" + ("*/" + more) == literal + "/*/" + more;
    MoreTexts(Lit(literal), "*/" + more);
    assert ["", "/" + more][1..] == ["/" + more] && literal + "/" + "" == literal + "/";
  }

  /** What the parser makes of one wildcard. */
  lemma OneWildcardParses(field: string, literal: string, last: bool, verb: string)
    requires Simple(field) && SimpleLiteral(literal)
    ensures var v := SpecOf(OneWildcard(field, literal));
      && GoVars(v, verb) == [PathVar(field, field, literal + "/", true, verb, None)]
      && VarTokens(v, last, verb) == Chars(literal + "/") + [Var(Hole(field, false))]
      && FieldOf(v, verb) == Field(field, literal + "/", [], [field], verb)
  {
    OneWildcardText(field, literal);
    SimpleIsGood(field);
  }

  lemma TakesRestParses(field: string, literal: string, more: string, last: bool, verb: string)
    requires Simple(field) && SimpleLiteral(literal) && SimpleLiteral(more)
    ensures var v := SpecOf(TakesRest(field, literal, more));
      && GoVars(v, verb) == [PathVar(field, field, literal + "/", true, verb, None)]
      && VarTokens(v, last, verb) == Chars(literal + "/") + [Var(Hole(field, last))]
      && FieldOf(v, verb) == Field(field, literal + "/", [], [field], verb)
  {
    TakesRestText(field, literal, more);
    SimpleIsGood(field);
  }

  // ---- one wildcard and a verb: every name survives ----

  function OneRule(field: string, literal: string, verb: string): Rule { Rule([OneWildcard(field, literal)], verb) }

  predicate GoodOne(field: string, literal: string, verb: string) {
    Simple(field) && SimpleLiteral(literal) && '.' !in literal && Octets(literal) && GoodVerb(verb) && verb != ""
  }

  /** Everything the proofs below use about the pattern of OneRule. */
  ghost predicate IsOne(pattern: string, field: string, literal: string, verb: string) {
    var p, h := GoParse(pattern), Hole(field, false);
    && Supported(pattern) && FieldsOf(pattern) == [Field(field, literal + "/", [], [field], verb)]
    && p.vars == [PathVar(field, field, literal + "/", true, verb, None)] && p.verb == verb
    && p.tokens == [Ch('/')] + (Chars(literal + "/") + [Var(h)])
    && SplitTokens(p.tokens)[1..] == [Chars(literal), [Var(h)]] && Holes(p.tokens) == [h]
  }

  lemma {:induction false} OneRuleIs(field: string, literal: string, verb: string)
    requires GoodOne(field, literal, verb)
    ensures GoodRule(OneRule(field, literal, verb)) && IsOne(Write(OneRule(field, literal, verb)), field, literal, verb)
  {
    var p, r := OneWildcard(field, literal), OneRule(field, literal, verb);
    var f, h := Field(field, literal + "/", [], [field], verb), Hole(field, false);
    OneWildcardText(field, literal);
    OneWildcardParses(field, literal, true, "");
    OneWildcardParses(field, literal, true, verb);
    assert r.parts == [p] && r.parts[1..] == [] && Last(r.parts) == p;
    assert NamesOf(r.parts) == [field] + [] && Distinct(NamesOf(r.parts));
    SupportedExactly(r);
    WriteParses(r);
    FieldsWritten(r.parts, verb);
    assert FieldsOfParts(r.parts, verb) == [f] + [];
    FieldsOfPattern(Write(r), map[]);
    OneRuleSegments(p, field, literal, verb);
  }

  lemma {:induction false} OneRuleSegments(p: Part, field: string, literal: string, verb: string)
    requires GoodOne(field, literal, verb) && p == OneWildcard(field, literal) && GoodPart(p)
    ensures var ts := Reparse([p], verb).tokens;
      SplitTokens(ts)[1..] == [Chars(literal), [Var(Hole(field, false))]] && Holes(ts) == [Hole(field, false)]
  {
    var h := Hole(field, false);
    var ts := Reparse([p], verb).tokens;
    OneWildcardText(field, literal);
    OneWildcardParses(field, literal, true, verb);
    ReparseTokens([p], verb);
    SegsSplit([p]);
    assert PathTokens([p]) + Chars("") == PathTokens([p]);
    assert [p][1..] == [] && PartSegs(p, true) + [] == PartSegs(p, true);
    assert p.path[1..] == [Star];
    assert SegsToHole(p.path, h) == [Chars(literal)] + [[Var(h)]];
    assert ([[]] + [Chars(literal), [Var(h)]])[1..] == [Chars(literal), [Var(h)]];
    HolesOfChars(literal + "/");
    Fields.OneHole(h);
    HolesConcat(Chars(literal + "/"), [Var(h)]);
    HolesConcat([Ch('/')], Chars(literal + "/") + [Var(h)]);
    assert [] + [h] == [h] && Holes([Ch('/')]) == [];
  }

  lemma OneHasNoDots(literal: string, h: Hole)
    requires '.' !in literal
    ensures NoLiteralDots([Ch('/')] + (Chars(literal + "/") + [Var(h)]))
  {
    var ts := [Ch('/')] + (Chars(literal + "/") + [Var(h)]);
    forall i | 0 <= i < |ts|
      ensures ts[i] != Ch('.')
    {
      if 1 <= i <= |literal| { assert ts[i] == Ch(literal[i - 1]) && literal[i - 1] in literal; }
    }
  }

  /** With one variable, which does not take the rest of the path, nothing is missed. */
  lemma {:induction false} OneIsFound(pattern: string, field: string, literal: string, verb: string)
    requires GoodOne(field, literal, verb) && IsOne(pattern, field, literal, verb)
    ensures Missed(pattern) == {}
  {
    OneHasNoDots(literal, Hole(field, false));
    NoDotsNoText(GoParse(pattern).tokens, field);
    MissedExactly(pattern, 0);
    MissedIsNamed(pattern);
    assert VarNames(GoParse(pattern).vars) == [field] && field !in Missed(pattern);
  }

  lemma {:induction false} OneIsServable(pattern: string, field: string, literal: string, verb: string, x: string)
    requires GoodOne(field, literal, verb) && IsOne(pattern, field, literal, verb)
    ensures ServableValues(pattern, [x])
  {
    var h := Hole(field, false);
    ValuesCover(pattern, [x]);
    var values := ValueMap([h], [x]);
    assert values == map[h := x];
    assert (x + verb)[|x|] == ':';
    BothServable(literal, h, values, verb, x);
  }

  lemma BothServable(literal: string, h: Hole, values: map<Hole, string>, verb: string, x: string)
    requires GoodLiteral(literal) && !h.rest && values == map[h := x] && GoodText(x + verb, false)
    ensures var segs := [Chars(literal), [Var(h)]]; Covers(values, segs) && Servable(segs, values, verb)
  {
    var segs, last := [Chars(literal), [Var(h)]], [[Var(h)]];
    LastServable(h, values, verb, x);
    LiteralIsGood(literal);
    assert Chars(literal)[0] in Chars(literal) && !IsHole(Chars(literal));
    assert segs[1..] == last && SegHoles(segs) == [] + SegHoles(last);
  }

  lemma LastServable(h: Hole, values: map<Hole, string>, verb: string, x: string)
    requires !h.rest && values == map[h := x] && GoodText(x + verb, false)
    ensures Covers(values, [[Var(h)]]) && Servable([[Var(h)]], values, verb)
  {
    assert SegHoles([[Var(h)]]) == [h] + [];
    assert [[Var(h)]][1..] == [] && Servable([], values, verb);
  }

  lemma {:induction false} OneIsDeliverable(pattern: string, field: string, literal: string, verb: string, x: string)
    requires GoodOne(field, literal, verb) && IsOne(pattern, field, literal, verb) && Octets(x)
    ensures var msg := map[field := literal + "/" + x];
      OctetMessage(msg) && Deliverable(pattern, msg) && Originals(FieldsOf(pattern), msg) == [literal + "/" + x]
  {
    var msg, value := map[field := literal + "/" + x], literal + "/" + x;
    var f := FieldsOf(pattern)[0];
    OctetSum(literal, x);
    SharedValues(pattern, msg);
    OneValueSent(f, literal, x, msg);
    assert FieldsOf(pattern) == [f];
    OneIsServable(pattern, field, literal, verb, x);
  }

  lemma OneValueSent(f: Field, literal: string, x: string, msg: Message)
    requires f.prefix == literal + "/" && f.seps == [] && msg == map[f.fieldPath := literal + "/" + x]
    ensures AllValues([f], msg) == [x] && FieldsFit([f], msg) && Originals([f], msg) == [literal + "/" + x]
  {
    var value := literal + "/" + x;
    assert Get(msg, f.fieldPath) == value && TrimPrefix(value, literal + "/") == x;
    assert FieldValues(f, msg) == [x];
    assert [f][1..] == [] && [x] + [] == [x];
  }

  lemma OctetSum(literal: string, x: string)
    requires Octets(literal) && Octets(x)
    ensures Octets(literal + "/" + x)
  {
  }

  /** In "{f=a/star}:verb" the Go client's round trip is exact for every value of the wildcard: it may
      be empty, hold slashes, dots or percent signs, or itself end in the verb. With literals that
      net/url has to encode, that holds of the path the client builds, and of the request it sends as
      long as the message stays undisturbed. */
  lemma {:induction false} EveryNameSurvives(field: string, literal: string, verb: string, x: string)
    requires GoodOne(field, literal, verb) && Octets(x)
    ensures var pattern, msg := Write(OneRule(field, literal, verb)), map[field := literal + "/" + x];
      var ts := GoParse(pattern).tokens;
      && Supported(pattern) && OctetMessage(msg) && SameRoute(ts, ts)
      && AnswerTo(pattern, ts, GoPath(pattern, msg)) == Texts([literal + "/" + x])
    ensures var pattern, msg := Write(OneRule(field, literal, verb)), map[field := literal + "/" + x];
      PathBytes(pattern) ==>
        var ts := GoParse(pattern).tokens;
        && (AnswerToSent(pattern, ts, GoRequest(pattern, msg)) == Texts([literal + "/" + x])
            <==> Undisturbed(pattern, msg))
        && (Only(pattern, PlainBytes()) ==> Undisturbed(pattern, msg))
  {
    var pattern, msg := Write(OneRule(field, literal, verb)), map[field := literal + "/" + x];
    OneRuleIs(field, literal, verb);
    OneIsFound(pattern, field, literal, verb);
    OneIsDeliverable(pattern, field, literal, verb, x);
    OwnRoute(pattern);
    GoPathRoundTrip(pattern, GoParse(pattern).tokens, msg);
    ReachesWhenFound(Go, FieldsOf(pattern), msg);
    if PathBytes(pattern) { GoRoundTrip(pattern, GoParse(pattern).tokens, msg); }
    if Only(pattern, PlainBytes()) { PlainIsUndisturbedExactly(pattern, msg); }
  }
}
