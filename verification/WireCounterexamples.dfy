/** A request that the path as built would deliver and the path as sent does not: one placeholder is
    left in the path, so net/url encodes it anew and a slash inside another value comes apart. */
module WireCounterexamples {
  import opened Text
  import opened Escape
  import opened Template
  import opened ServeMux
  import opened Routing
  import opened Patterns
  import opened Wildcards
  import opened Fields
  import opened Clients
  import opened RoundTrip
  import opened EndToEnd
  import opened NetUrl
  import opened Reencoding
  import opened GoWire
  import opened Grammar
  import opened Examples
  import opened Counterexamples

  /** /first/{e=a/star}/{g=b/star}/{name=files/star/x} */
  function MixRule(first: string, e: string, a: string, g: string, b: string, name: string, files: string,
                   x: string): Rule {
    Rule([Literally(first), OneWildcard(e, a), OneWildcard(g, b), TakesRest(name, files, x)], "")
  }

  /** The name of the last variable ends in that of the first, not of the second. */
  predicate GoodMix(first: string, e: string, a: string, g: string, b: string, name: string, files: string, x: string) {
    && GoodMiss(first, e, a, name, files, x) && Simple(g) && SimpleLiteral(b) && '.' !in b
    && g != e && g != name && !HasSuffix(name, g)
  }

  function MixFields(e: string, a: string, g: string, b: string, name: string, files: string): seq<Field> {
    [Field(e, a + "/", [], [e], ""), Field(g, b + "/", [], [g], ""), Field(name, files + "/", [], [name], "")]
  }

  function MixVars(e: string, a: string, g: string, b: string, name: string, files: string): seq<PathVar> {
    [PathVar(e, e, a + "/", true, "", None), PathVar(g, g, b + "/", true, "", None),
     PathVar(name, name, files + "/", true, "", None)]
  }

  function MixSegs(first: string, e: string, a: string, g: string, b: string, name: string, files: string):
    seq<seq<Token>>
  {
    [Chars(first), Chars(a), [Var(Hole(e, false))], Chars(b), [Var(Hole(g, false))], Chars(files),
     [Var(Hole(name, true))]]
  }

  ghost predicate IsMix(pattern: string, first: string, e: string, a: string, g: string, b: string, name: string,
                        files: string)
  {
    var p := GoParse(pattern);
    && Supported(pattern) && p.verb == "" && p.vars == MixVars(e, a, g, b, name, files)
    && FieldsOf(pattern) == MixFields(e, a, g, b, name, files)
    && SplitTokens(p.tokens) == [[]] + MixSegs(first, e, a, g, b, name, files)
    && Holes(p.tokens) == [Hole(e, false), Hole(g, false), Hole(name, true)]
  }

  // ---- the pattern ----

  lemma {:induction false} MixRuleIsGood(first: string, e: string, a: string, g: string, b: string, name: string,
                                         files: string, x: string)
    requires GoodMix(first, e, a, g, b, name, files, x)
    ensures GoodRule(MixRule(first, e, a, g, b, name, files, x))
  {
    var p, q, u, t := Literally(first), OneWildcard(e, a), OneWildcard(g, b), TakesRest(name, files, x);
    OneWildcardText(e, a);
    OneWildcardText(g, b);
    TakesRestText(name, files, x);
    OneWildcardParses(e, a, false, "");
    OneWildcardParses(g, b, false, "");
    TakesRestParses(name, files, x, true, "");
    TwoNames(u, t);
    assert PartNames(q) == [e] && PartNames(u) == [g] && PartNames(t) == [name];
    assert [p, q, u, t][1..] == [q, u, t] && [q, u, t][1..] == [u, t];
    assert NamesOf([p, q, u, t]) == [] + NamesOf([q, u, t]) && NamesOf([q, u, t]) == [e] + ([g] + [name]);
  }

  /** One variable in front of others. */
  lemma {:induction false} OneThen(field: string, literal: string, rest: seq<Part>)
    requires Simple(field) && SimpleLiteral(literal) && rest != []
    ensures var parts, v := [OneWildcard(field, literal)] + rest, PathVar(field, field, literal + "/", true, "", None);
      && Reparse(parts, "").vars == [v] + Reparse(rest, "").vars
      && Segs(parts) == [Chars(literal), [Var(Hole(field, false))]] + Segs(rest)
      && FieldsOfParts(parts, "") == [Field(field, literal + "/", [], [field], "")] + FieldsOfParts(rest, "")
  {
    var p := OneWildcard(field, literal);
    OneWildcardText(field, literal);
    OneWildcardParses(field, literal, false, "");
    assert ([p] + rest)[0] == p && ([p] + rest)[1..] == rest;
    LevelSegs(field, literal);
  }

  lemma LevelSegs(field: string, literal: string)
    requires Simple(field) && SimpleLiteral(literal) && GoodPart(OneWildcard(field, literal))
    ensures PartSegs(OneWildcard(field, literal), false) == [Chars(literal), [Var(Hole(field, false))]]
  {
    var p, h := OneWildcard(field, literal), Hole(field, false);
    OneWildcardText(field, literal);
    SimpleIsGood(field);
    assert p.path[1..] == [Star];
    assert SegsToHole(p.path, h) == [Chars(literal)] + [[Var(h)]];
  }

  lemma {:induction false} RestAlone(field: string, literal: string, more: string)
    requires Simple(field) && SimpleLiteral(literal) && SimpleLiteral(more)
    ensures var parts, v := [TakesRest(field, literal, more)], PathVar(field, field, literal + "/", true, "", None);
      && Reparse(parts, "").vars == [v] && Segs(parts) == [Chars(literal), [Var(Hole(field, true))]]
      && FieldsOfParts(parts, "") == [Field(field, literal + "/", [], [field], "")]
  {
    var p, h := TakesRest(field, literal, more), Hole(field, true);
    TakesRestText(field, literal, more);
    TakesRestParses(field, literal, more, true, "");
    SimpleIsGood(field);
    assert [p][1..] == [] && Reparse([], "").vars == [];
    assert p.path[1..] == [Star, Lit(more)];
    assert SegsToHole(p.path, h) == [Chars(literal)] + [[Var(h)]];
    assert PartSegs(p, true) == [Chars(literal), [Var(h)]] && Segs([p]) == PartSegs(p, true) + Segs([]);
  }

  lemma LiteralThen(text: string, rest: seq<Part>)
    requires rest != []
    ensures var parts := [Literally(text)] + rest;
      && Reparse(parts, "").vars == Reparse(rest, "").vars && Segs(parts) == [Chars(text)] + Segs(rest)
      && FieldsOfParts(parts, "") == FieldsOfParts(rest, "")
  {
    assert ([Literally(text)] + rest)[1..] == rest && [] + FieldsOfParts(rest, "") == FieldsOfParts(rest, "");
  }

  lemma {:induction false} LastParts(g: string, b: string, name: string, files: string, x: string)
    requires Simple(g) && SimpleLiteral(b) && Simple(name) && SimpleLiteral(files) && SimpleLiteral(x)
    ensures var parts := [OneWildcard(g, b), TakesRest(name, files, x)];
      && Reparse(parts, "").vars
         == [PathVar(g, g, b + "/", true, "", None), PathVar(name, name, files + "/", true, "", None)]
      && Segs(parts) == [Chars(b), [Var(Hole(g, false))], Chars(files), [Var(Hole(name, true))]]
      && FieldsOfParts(parts, "") == [Field(g, b + "/", [], [g], ""), Field(name, files + "/", [], [name], "")]
  {
    var t := TakesRest(name, files, x);
    RestAlone(name, files, x);
    OneThen(g, b, [t]);
    assert [OneWildcard(g, b)] + [t] == [OneWildcard(g, b), t];
  }

  lemma {:induction false} MixParts(first: string, e: string, a: string, g: string, b: string, name: string,
                                    files: string, x: string)
    requires GoodMix(first, e, a, g, b, name, files, x)
    ensures var parts := MixRule(first, e, a, g, b, name, files, x).parts;
      && Reparse(parts, "").vars == MixVars(e, a, g, b, name, files)
      && Segs(parts) == MixSegs(first, e, a, g, b, name, files)
      && FieldsOfParts(parts, "") == MixFields(e, a, g, b, name, files)
  {
    var q, last := OneWildcard(e, a), [OneWildcard(g, b), TakesRest(name, files, x)];
    LastParts(g, b, name, files, x);
    OneThen(e, a, last);
    LiteralThen(first, [q] + last);
    assert [Literally(first)] + ([q] + last) == MixRule(first, e, a, g, b, name, files, x).parts;
  }

  lemma MixHoles(first: string, e: string, a: string, g: string, b: string, name: string, files: string)
    requires GoodLiteral(first) && GoodLiteral(a) && GoodLiteral(b) && GoodLiteral(files)
    ensures SegHoles(MixSegs(first, e, a, g, b, name, files)) == [Hole(e, false), Hole(g, false), Hole(name, true)]
  {
    var f, m, n, r := Chars(first), Chars(a), Chars(b), Chars(files);
    var h, i, j := [Var(Hole(e, false))], [Var(Hole(g, false))], [Var(Hole(name, true))];
    LiteralIsNoHole(first);
    LiteralIsNoHole(a);
    LiteralIsNoHole(b);
    LiteralIsNoHole(files);
    assert SegHoles([]) == [];
    HolesOfLevel(r, j, []);
    HolesOfLevel(n, i, [r, j]);
    HolesOfLevel(m, h, [n, i, r, j]);
    assert [f, m, h, n, i, r, j][1..] == [m, h] + [n, i, r, j];
    assert [n, i] + [r, j] == [n, i, r, j] && [r, j] + [] == [r, j];
  }

  lemma HolesOfLevel(literal: seq<Token>, hole: seq<Token>, rest: seq<seq<Token>>)
    requires !IsHole(literal) && IsHole(hole)
    ensures SegHoles([literal, hole] + rest) == [hole[0].hole] + SegHoles(rest)
  {
    assert ([literal, hole] + rest)[1..] == [hole] + rest && ([hole] + rest)[1..] == rest;
  }

  lemma {:induction false} MixRuleIs(first: string, e: string, a: string, g: string, b: string, name: string,
                                     files: string, x: string)
    requires GoodMix(first, e, a, g, b, name, files, x)
    ensures IsMix(Write(MixRule(first, e, a, g, b, name, files, x)), first, e, a, g, b, name, files)
  {
    var r := MixRule(first, e, a, g, b, name, files, x);
    MixRuleIsGood(first, e, a, g, b, name, files, x);
    MixParts(first, e, a, g, b, name, files, x);
    MissIsSupported(r);
    WriteParses(r);
    VerbOfReparse(r.parts, "");
    ReparseTokens(r.parts, "");
    assert PathTokens(r.parts) + Chars("") == PathTokens(r.parts);
    SegsSplit(r.parts);
    FieldsWritten(r.parts, "");
    FieldsOfPattern(Write(r), map[]);
    RoutableHoles(GoParse(Write(r)).tokens);
    MixHoles(first, e, a, g, b, name, files);
  }

  // ---- what is missed ----

  lemma MixSegsHaveNoDots(first: string, e: string, a: string, g: string, b: string, name: string, files: string)
    requires '.' !in first && '.' !in a && '.' !in b && '.' !in files
    ensures forall seg | seg in MixSegs(first, e, a, g, b, name, files) :: Ch('.') !in seg
  {
    NoDots(first);
    NoDots(a);
    NoDots(b);
    NoDots(files);
  }

  lemma {:induction false} MixHasNoDots(pattern: string, first: string, e: string, a: string, g: string, b: string,
                                        name: string, files: string)
    requires IsMix(pattern, first, e, a, g, b, name, files)
    requires '.' !in first && '.' !in a && '.' !in b && '.' !in files
    ensures NoLiteralDots(GoParse(pattern).tokens)
  {
    MixSegsHaveNoDots(first, e, a, g, b, name, files);
    SegmentsHaveNoDots(GoParse(pattern).tokens);
  }

  lemma {:induction false} MixMisses(pattern: string, first: string, e: string, a: string, g: string, b: string,
                                     name: string, files: string, x: string)
    requires GoodMix(first, e, a, g, b, name, files, x) && IsMix(pattern, first, e, a, g, b, name, files)
    ensures Missed(pattern) == {e}
  {
    EndsOfMix([Hole(e, false), Hole(g, false), Hole(name, true)], e, g, name);
    MixHasNoDots(pattern, first, e, a, g, b, name, files);
    FirstIsMissed(pattern, e, a, g, b, name, files);
    OthersAreFound(pattern, e, a, g, b, name, files);
    MissedIsNamed(pattern);
    OnlyFirstOfThree(Missed(pattern), VarNames(GoParse(pattern).vars), e, g, name);
  }

  lemma {:induction false} FirstIsMissed(pattern: string, e: string, a: string, g: string, b: string, name: string,
                                         files: string)
    requires Supported(pattern) && GoParse(pattern).vars == MixVars(e, a, g, b, name, files)
    requires Holes(GoParse(pattern).tokens) == [Hole(e, false), Hole(g, false), Hole(name, true)]
    requires EndsRestName(Holes(GoParse(pattern).tokens), e)
    ensures e in Missed(pattern)
  {
    MissedExactly(pattern, 0);
  }

  lemma {:induction false} OthersAreFound(pattern: string, e: string, a: string, g: string, b: string, name: string,
                                          files: string)
    requires Supported(pattern) && NoLiteralDots(GoParse(pattern).tokens) && PlainName(g) && PlainName(name)
    requires GoParse(pattern).vars == MixVars(e, a, g, b, name, files)
    requires Holes(GoParse(pattern).tokens) == [Hole(e, false), Hole(g, false), Hole(name, true)]
    requires !EndsRestName(Holes(GoParse(pattern).tokens), g)
    ensures g !in Missed(pattern) && name !in Missed(pattern)
  {
    NoDotsNoText(GoParse(pattern).tokens, g);
    MissedExactly(pattern, 1);
    MissedExactly(pattern, 2);
  }

  lemma EndsOfMix(holes: seq<Hole>, e: string, g: string, name: string)
    requires holes == [Hole(e, false), Hole(g, false), Hole(name, true)] && HasSuffix(name, e) && !HasSuffix(name, g)
    ensures EndsRestName(holes, e) && !EndsRestName(holes, g)
  {
    assert holes[2] in holes;
  }

  lemma OnlyFirstOfThree(missed: set<string>, names: seq<string>, e: string, g: string, name: string)
    requires names == [e, g, name] && e in missed && g !in missed && name !in missed
    requires forall n | n in missed :: n in names
    ensures missed == {e}
  {
  }

  // ---- the message ----

  function MixMessage(e: string, a: string, g: string, b: string, name: string, files: string, k: string,
                      v: string): Message
  {
    map[e := a + "/" + ("{" + e + "}"), g := b + "/" + k, name := files + "/" + v]
  }

  lemma {:induction false} MixValues(e: string, a: string, g: string, b: string, name: string, files: string,
                                     k: string, v: string)
    requires e != g && e != name && g != name && e != "" && g != "" && name != ""
    ensures var fields, msg := MixFields(e, a, g, b, name, files), MixMessage(e, a, g, b, name, files, k, v);
      && WellFormed(fields) && FieldsFit(fields, msg) && AllValues(fields, msg) == ["{" + e + "}", k, v]
      && AllReach(Go, fields, msg, {e})
      && Originals(fields, msg) == [a + "/" + ("{" + e + "}"), b + "/" + k, files + "/" + v]
  {
    var fields, msg := MixFields(e, a, g, b, name, files), MixMessage(e, a, g, b, name, files, k, v);
    SingleValue(fields[0], msg, "{" + e + "}");
    SingleValue(fields[1], msg, k);
    SingleValue(fields[2], msg, v);
    ThreeValues(fields, msg, "{" + e + "}", k, v);
    OneReaches(fields[0], msg, {e}, "{" + e + "}");
    OneReaches(fields[1], msg, {e}, k);
    OneReaches(fields[2], msg, {e}, v);
  }

  lemma OneReaches(f: Field, msg: Message, missed: set<string>, value: string)
    requires |f.names| == 1 && f.seps == [] && FieldValues(f, msg) == [value]
    requires f.names[0] in missed ==> value == "{" + f.names[0] + "}"
    ensures Reaches(Go, f, msg, missed)
  {
  }

  lemma SingleValue(f: Field, msg: Message, value: string)
    requires f.seps == [] && f.fieldPath in msg && msg[f.fieldPath] == f.prefix + value
    ensures FieldValues(f, msg) == [value] && Fits(Get(msg, f.fieldPath), f.prefix, f.seps)
  {
    TrimOwn(f.prefix, value);
  }

  lemma ThreeValues(fields: seq<Field>, msg: Message, x: string, y: string, z: string)
    requires |fields| == 3 && FieldValues(fields[0], msg) == [x] && FieldValues(fields[1], msg) == [y]
    requires FieldValues(fields[2], msg) == [z]
    ensures AllValues(fields, msg) == [x, y, z]
  {
    assert fields[1..][1..] == [fields[2]] && [fields[2]][1..] == [];
    assert AllValues([], msg) == [] && AllValues([fields[2]], msg) == [z] + [];
    assert AllValues(fields[1..], msg) == [y] + [z] && AllValues(fields, msg) == [x] + [y, z];
  }

  lemma {:induction false} MixServable(pattern: string, first: string, e: string, a: string, g: string, b: string,
                                       name: string, files: string, k: string, v: string)
    requires IsMix(pattern, first, e, a, g, b, name, files) && GoodText(k, false) && CleanSegments(Split(v, '/'))
    ensures ServableValues(pattern, ["{" + e + "}", k, v])
  {
    var holes := Holes(GoParse(pattern).tokens);
    BraceIsGood(e);
    GoodValuesAreServable(pattern, ["{" + e + "}", k, v]);
  }

  lemma BraceIsGood(e: string)
    ensures GoodText("{" + e + "}", false)
  {
    assert |"{" + e + "}"| >= 2 && ("{" + e + "}")[0] == '{';
  }

  lemma {:induction false} MixDelivers(pattern: string, first: string, e: string, a: string, g: string, b: string,
                                       name: string, files: string, x: string, k: string, v: string)
    requires GoodMix(first, e, a, g, b, name, files, x) && IsMix(pattern, first, e, a, g, b, name, files)
    requires OctetMessage(MixMessage(e, a, g, b, name, files, k, v))
    requires GoodText(k, false) && CleanSegments(Split(v, '/'))
    ensures var msg := MixMessage(e, a, g, b, name, files, k, v);
      && Deliverable(pattern, msg) && WellFormed(FieldsOf(pattern))
      && AllReach(Go, FieldsOf(pattern), msg, Missed(pattern))
      && AllValues(FieldsOf(pattern), msg) == ["{" + e + "}", k, v]
      && Originals(FieldsOf(pattern), msg) == [a + "/" + ("{" + e + "}"), b + "/" + k, files + "/" + v]
  {
    SharedValues(pattern, MixMessage(e, a, g, b, name, files, k, v));
    MixMisses(pattern, first, e, a, g, b, name, files, x);
    MixValues(e, a, g, b, name, files, k, v);
    MixServable(pattern, first, e, a, g, b, name, files, k, v);
  }

  // ---- as built, and as sent ----

  lemma SlashInSecond(g: Hole, h: Hole, i: Hole, x: string, y: string, z: string)
    requires Distinct([g, h, i]) && !h.rest && '/' in y
    ensures !SlashFree(ValueMap([g, h, i], [x, y, z]))
  {
    ValueAt([g, h, i], [x, y, z], 1);
    assert [g, h, i][1] in [g, h, i];
  }

  /** The path that is built would bring every field back; the request that is sent, in which the slash
      of the second value is no longer escaped, does not. */
  lemma {:induction false} MixedIsDisturbed(pattern: string, first: string, e: string, a: string, g: string, b: string,
                                            name: string, files: string, x: string, k: string, v: string)
    requires GoodMix(first, e, a, g, b, name, files, x) && IsMix(pattern, first, e, a, g, b, name, files)
    requires PathBytes(pattern) && OctetMessage(MixMessage(e, a, g, b, name, files, k, v))
    requires '/' in k && GoodText(k, false) && CleanSegments(Split(v, '/'))
    ensures var msg, ts := MixMessage(e, a, g, b, name, files, k, v), GoParse(pattern).tokens;
      var texts := Texts([a + "/" + ("{" + e + "}"), b + "/" + k, files + "/" + v]);
      && SameRoute(ts, ts) && AnswerTo(pattern, ts, GoPath(pattern, msg)) == texts
      && AnswerToSent(pattern, ts, GoRequest(pattern, msg)) != texts
  {
    var msg := MixMessage(e, a, g, b, name, files, k, v);
    OwnRoute(pattern);
    MixDelivers(pattern, first, e, a, g, b, name, files, x, k, v);
    GoPathRoundTrip(pattern, GoParse(pattern).tokens, msg);
    GoRoundTrip(pattern, GoParse(pattern).tokens, msg);
    MixIsNotSteady(pattern, first, e, a, g, b, name, files, x, k, v);
  }

  lemma {:induction false} MixIsNotSteady(pattern: string, first: string, e: string, a: string, g: string, b: string,
                                          name: string, files: string, x: string, k: string, v: string)
    requires GoodMix(first, e, a, g, b, name, files, x) && IsMix(pattern, first, e, a, g, b, name, files)
    requires OctetMessage(MixMessage(e, a, g, b, name, files, k, v)) && '/' in k
    requires AllValues(FieldsOf(pattern), MixMessage(e, a, g, b, name, files, k, v)) == ["{" + e + "}", k, v]
    ensures !Undisturbed(pattern, MixMessage(e, a, g, b, name, files, k, v))
  {
    MixMisses(pattern, first, e, a, g, b, name, files, x);
    SharedValues(pattern, MixMessage(e, a, g, b, name, files, k, v));
    DistinctNamesDistinctHoles(Holes(GoParse(pattern).tokens));
    SlashInSecond(Hole(e, false), Hole(g, false), Hole(name, true), "{" + e + "}", k, v);
    assert !Steady(pattern, ["{" + e + "}", k, v]);
  }

  // ---- what goes out ----

  lemma {:induction false} SaysLiteral(text: string, rest: seq<seq<Token>>, sent: map<Hole, string>)
    requires GoodLiteral(text) && '%' !in text && Covers(sent, [Chars(text)] + rest)
    ensures Covers(sent, rest)
    ensures Says([Chars(text)] + rest, sent, "") == [text] + Says(rest, sent, "")
  {
    var segs := [Chars(text)] + rest;
    assert segs[1..] == rest;
    CoversHead(sent, segs);
    LiteralIsNoHole(text);
    ShowChars(text);
    PlainTextDecodes(text);
  }

  lemma {:induction false} SaysHole(h: Hole, rest: seq<seq<Token>>, sent: map<Hole, string>)
    requires Covers(sent, [[Var(h)]] + rest)
    ensures h in sent && Covers(sent, rest)
    ensures Says([[Var(h)]] + rest, sent, "") == [sent[h]] + Says(rest, sent, "")
  {
    var segs := [[Var(h)]] + rest;
    assert segs[1..] == rest;
    CoversHead(sent, segs);
    assert sent[h] + "" == sent[h];
  }

  lemma {:induction false} MixSays(first: string, e: string, a: string, g: string, b: string, name: string,
                                   files: string, sent: map<Hole, string>)
    requires GoodLiteral(first) && GoodLiteral(a) && GoodLiteral(b) && GoodLiteral(files)
    requires '%' !in first && '%' !in a && '%' !in b && '%' !in files
    requires Covers(sent, MixSegs(first, e, a, g, b, name, files))
    ensures Hole(e, false) in sent && Hole(g, false) in sent && Hole(name, true) in sent
    ensures Says(MixSegs(first, e, a, g, b, name, files), sent, "")
      == [first, a, sent[Hole(e, false)], b, sent[Hole(g, false)], files, sent[Hole(name, true)]]
  {
    var h, i, j := Hole(e, false), Hole(g, false), Hole(name, true);
    var last := [Chars(b), [Var(i)], Chars(files), [Var(j)]];
    var all := [Chars(first)] + ([Chars(a), [Var(h)]] + last);
    assert all == MixSegs(first, e, a, g, b, name, files);
    SaysLiteral(first, [Chars(a), [Var(h)]] + last, sent);
    SaysLevel(a, h, last, sent);
    SaysTwoLevels(b, i, files, j, sent);
  }

  lemma {:induction false} SaysTwoLevels(a: string, h: Hole, b: string, i: Hole, sent: map<Hole, string>)
    requires GoodLiteral(a) && GoodLiteral(b) && '%' !in a && '%' !in b
    requires Covers(sent, [Chars(a), [Var(h)], Chars(b), [Var(i)]])
    ensures h in sent && i in sent
    ensures Says([Chars(a), [Var(h)], Chars(b), [Var(i)]], sent, "") == [a, sent[h], b, sent[i]]
  {
    var end := [Chars(b), [Var(i)]];
    assert [Chars(a), [Var(h)], Chars(b), [Var(i)]] == [Chars(a), [Var(h)]] + end && end == end + [];
    SaysLevel(a, h, end, sent);
    SaysLevel(b, i, [], sent);
  }

  lemma {:induction false} SaysLevel(text: string, h: Hole, rest: seq<seq<Token>>, sent: map<Hole, string>)
    requires GoodLiteral(text) && '%' !in text && Covers(sent, [Chars(text), [Var(h)]] + rest)
    ensures h in sent && Covers(sent, rest)
    ensures Says([Chars(text), [Var(h)]] + rest, sent, "") == [text, sent[h]] + Says(rest, sent, "")
  {
    assert [Chars(text), [Var(h)]] + rest == [Chars(text)] + ([[Var(h)]] + rest);
    SaysLiteral(text, [[Var(h)]] + rest, sent);
    SaysHole(h, rest, sent);
  }

  lemma ThreeLookups(holes: seq<Hole>, values: seq<string>)
    requires |holes| == |values| == 3 && Distinct(holes)
    ensures forall i | 0 <= i < 3 ::
      holes[i] in ValueMap(holes, values) && ValueMap(holes, values)[holes[i]] == values[i]
  {
    ValueAt(holes, values, 0);
    ValueAt(holes, values, 1);
    ValueAt(holes, values, 2);
  }

  /** The request says what the message says, whatever was escaped when the path was built. */
  lemma {:induction false} MixRequest(pattern: string, first: string, e: string, a: string, g: string, b: string,
                                      name: string, files: string, x: string, k: string, v: string,
                                      texts: seq<string>)
    requires GoodMix(first, e, a, g, b, name, files, x) && IsMix(pattern, first, e, a, g, b, name, files)
    requires texts == [first, a, "{" + e + "}", b, k, files, v]
    requires Only(pattern, PlainBytes()) && OctetMessage(MixMessage(e, a, g, b, name, files, k, v))
    requires '%' !in first && '%' !in a && '%' !in b && '%' !in files
    requires GoodText(k, false) && CleanSegments(Split(v, '/'))
    ensures PathBytes(pattern) && EachOctets(texts)
    ensures GoRequest(pattern, MixMessage(e, a, g, b, name, files, k, v))
      == Sent("/" + Join(EscapeAll(PathCodec(), texts), "/"))
  {
    var msg := MixMessage(e, a, g, b, name, files, k, v);
    MixMisses(pattern, first, e, a, g, b, name, files, x);
    MixSent(pattern, first, e, a, g, b, name, files, x, k, v);
    MixIsSent(pattern, msg, e);
    MixSays(first, e, a, g, b, name, files, SentValues(pattern, msg));
    assert SplitTokens(GoParse(pattern).tokens)[1..] == MixSegs(first, e, a, g, b, name, files);
  }

  lemma {:induction false} MixSent(pattern: string, first: string, e: string, a: string, g: string, b: string,
                                   name: string, files: string, x: string, k: string, v: string)
    requires GoodMix(first, e, a, g, b, name, files, x) && IsMix(pattern, first, e, a, g, b, name, files)
    requires OctetMessage(MixMessage(e, a, g, b, name, files, k, v))
    requires GoodText(k, false) && CleanSegments(Split(v, '/'))
    ensures var sent := SentValues(pattern, MixMessage(e, a, g, b, name, files, k, v));
      && Hole(e, false) in sent && Hole(g, false) in sent && Hole(name, true) in sent
      && sent[Hole(e, false)] == "{" + e + "}" && sent[Hole(g, false)] == k && sent[Hole(name, true)] == v
  {
    var holes, values := [Hole(e, false), Hole(g, false), Hole(name, true)], ["{" + e + "}", k, v];
    MixDelivers(pattern, first, e, a, g, b, name, files, x, k, v);
    DeliveredValues(pattern, MixMessage(e, a, g, b, name, files, k, v));
    DistinctNamesDistinctHoles(holes);
    ThreeLookups(holes, values);
    assert holes[0] == Hole(e, false) && holes[1] == Hole(g, false) && holes[2] == Hole(name, true);
  }

  lemma {:induction false} MixIsSent(pattern: string, msg: Message, e: string)
    requires Supported(pattern) && OctetMessage(msg) && Only(pattern, PlainBytes()) && Missed(pattern) == {e}
    ensures var p := GoParse(pattern);
      && PathBytes(pattern) && Covers(SentValues(pattern, msg), SplitTokens(p.tokens)[1..])
      && var says := Says(SplitTokens(p.tokens)[1..], SentValues(pattern, msg), p.verb);
         EachOctets(says) && GoRequest(pattern, msg) == Sent("/" + Join(EscapeAll(PathCodec(), says), "/"))
  {
    var p := GoParse(pattern);
    PlainPattern(pattern);
    SentAsBuiltExactly(pattern, msg);
    GoSends(pattern, msg);
    GoPathIsFilled(pattern, msg);
    assert e in Missed(pattern);
    ReencodedTexts(p.tokens, FoundValues(pattern, msg), SentValues(pattern, msg), p.verb);
  }

  /** Segment i spells another literal than the route's. */
  predicate Misspelt(ss: seq<seq<Token>>, request: seq<string>, i: nat) {
    && i < |ss| && i < |request| && !IsHole(ss[i])
    && DecodeSegment(request[i]) != DecodeSegment(Show(ss[i]))
  }

  lemma MisspeltLater(ss: seq<seq<Token>>, request: seq<string>, i: nat)
    requires Misspelt(ss, request, i) && i > 0
    ensures Misspelt(ss[1..], request[1..], i - 1)
  {
  }

  /** That is enough for a route not to match. */
  lemma {:induction false} MismatchIsLost(ss: seq<seq<Token>>, request: seq<string>, i: nat)
    requires GoodSegments(ss) && Misspelt(ss, request, i)
    ensures Match(ParseSegments(ShowAll(ss)), request).NotServed?
  {
    if i > 0 {
      MisspeltLater(ss, request, i);
      MismatchIsLost(ss[1..], request[1..], i - 1);
      LostLater(ss, request);
    } else {
      LiteralOnlyMatchesItself(ss, request);
    }
  }

  lemma {:induction false} LostLater(ss: seq<seq<Token>>, request: seq<string>)
    requires GoodSegments(ss) && |ss| > 1 && request != []
    requires Match(ParseSegments(ShowAll(ss[1..])), request[1..]).NotServed?
    ensures Match(ParseSegments(ShowAll(ss)), request).NotServed?
  {
    var first, more := ParseSegment(Show(ss[0])), ParseSegments(ShowAll(ss[1..]));
    assert ParseSegments(ShowAll(ss)) == [first] + more by {
      assert ([Show(ss[0])] + ShowAll(ss[1..]))[1..] == ShowAll(ss[1..]);
    }
    assert request == [request[0]] + request[1..];
    FirstParses(ss);
    MatchCons(first, more, request[0], request[1..]);
  }

  lemma LiteralOnlyMatchesItself(ss: seq<seq<Token>>, request: seq<string>)
    requires GoodSegments(ss) && ss != [] && request != [] && !IsHole(ss[0])
    requires DecodeSegment(request[0]) != DecodeSegment(Show(ss[0]))
    ensures Match(ParseSegments(ShowAll(ss)), request).NotServed?
  {
    LiteralParses(ss[0]);
  }

  // ---- the literal input ----

  const G := "g"
  const N := "n"
  const MIXED := "/v1/{e=a/*}/{g=b/*}/{name=files/*/x}"
  const SENT := "/v1/a/%7Be%7D/b/p/q/files/n"

  lemma MixNamesAreGood()
    ensures GoodMix(V1, E, A, G, B, NAME, FILES, X)
    ensures '%' !in V1 && '%' !in A && '%' !in B && '%' !in FILES
  {
    MissNamesAreGood();
    assert NAME[3..] == E;
  }

  lemma FourParts(p: Part, q: Part, u: Part, t: Part)
    ensures Write(Rule([p, q, u, t], ""))
      == "/" + WritePart(p) + ("/" + WritePart(q) + ("/" + WritePart(u) + ("/" + WritePart(t))))
  {
    assert [p, q, u, t][1..] == [q, u, t];
    ThreeParts(q, u, t);
  }

  lemma FirstText()
    ensures WritePart(OneWildcard(E, A)) == "{e=a/*}"
  {
    OneWildcardWritten(E, A);
    assert A + "/*" == "a/*" && E + "=" + "a/*" == "e=a/*";
  }

  lemma SecondText()
    ensures WritePart(OneWildcard(G, B)) == "{g=b/*}"
  {
    OneWildcardWritten(G, B);
    assert B + "/*" == "b/*" && G + "=" + "b/*" == "g=b/*";
  }

  const MIXED_END := "/{g=b/*}/{name=files/*/x}"

  lemma ThirdText()
    ensures WritePart(TakesRest(NAME, FILES, X)) == "{name=files/*/x}"
  {
    TakesRestText(NAME, FILES, X);
    RestPartTextAt();
  }

  lemma EndText()
    ensures "/" + "{g=b/*}" + ("/" + "{name=files/*/x}") == MIXED_END
  {
    assert "/" + "{g=b/*}" == "/{g=b/*}" && "/" + "{name=files/*/x}" == "/{name=files/*/x}";
  }

  lemma MixedText()
    ensures "/" + V1 + ("/" + "{e=a/*}" + MIXED_END) == MIXED
  {
    assert "/" + "{e=a/*}" == "/{e=a/*}" && "/" + V1 == "/v1";
    Assoc("/v1", "/{e=a/*}", MIXED_END);
    assert "/v1" + "/{e=a/*}" == "/v1/{e=a/*}";
  }

  lemma MixWritten()
    ensures Write(MixRule(V1, E, A, G, B, NAME, FILES, X)) == MIXED
  {
    FourParts(Literally(V1), OneWildcard(E, A), OneWildcard(G, B), TakesRest(NAME, FILES, X));
    FirstText();
    SecondText();
    ThirdText();
    EndText();
    MixedText();
  }

  lemma MixedIsPlain()
    ensures Only(MIXED, PlainBytes())
  {
    MissingIsPlain();
    forall c | c in MIXED
      ensures c in PlainBytes()
    {
      assert c in MISSING || c == 'g' || c == 'b';
      assert IsAlphanumeric('g') && IsAlphanumeric('b') && 'g' in Alphanumerics() && 'b' in Alphanumerics();
    }
  }

  const SAID := ["v1", "a", "{e}", "b", "p/q", "files", "n"]
  const WRITTEN := ["v1", "a", "%7Be%7D", "b", "p/q", "files", "n"]

  lemma NamesAreSafe(i: nat)
    requires i < 7 && i != 2
    ensures SAID[i] == WRITTEN[i] && forall c | c in SAID[i] :: c in PathCodec().safe
  {
    forall c | c in SAID[i]
      ensures c in PathCodec().safe
    {
      assert IsAlphanumeric(c) ==> c in Alphanumerics();
    }
  }

  lemma BraceEscapes()
    ensures Octets("{e}") && EscapeText(PathCodec(), "{e}") == "%7Be%7D"
  {
    assert 'e' in Alphanumerics();
    assert "{e}"[1..] == "e}" && "e}"[1..] == "}" && "}"[1..] == "";
    assert EscapeByte(PathCodec(), '{') == "%7B" && EscapeByte(PathCodec(), '}') == "%7D";
    assert EscapeText(PathCodec(), "}") == "%7D" && EscapeText(PathCodec(), "e}") == "e%7D";
  }

  lemma OneIsWritten(i: nat)
    requires i < 7
    ensures Octets(SAID[i]) && EscapeText(PathCodec(), SAID[i]) == WRITTEN[i]
  {
    if i == 2 {
      BraceEscapes();
    } else {
      NamesAreSafe(i);
      SafeEscapes(SAID[i]);
    }
  }

  lemma {:induction false} SaidIsWritten()
    ensures EachOctets(SAID) && EscapeAll(PathCodec(), SAID) == WRITTEN
  {
    forall i | 0 <= i < 7
      ensures Octets(SAID[i]) && EscapeText(PathCodec(), SAID[i]) == WRITTEN[i]
    {
      OneIsWritten(i);
    }
  }

  const REQUEST := ["v1", "a", "%7Be%7D", "b", "p", "q", "files", "n"]

  lemma EndJoins()
    ensures Join(["p/q", "files", "n"], "/") == "p/q/files/n" && Join(["p", "q", "files", "n"], "/") == "p/q/files/n"
  {
    var a, b, c := ["n"], ["files", "n"], ["q", "files", "n"];
    assert b[1..] == a && c[1..] == b && ["p/q", "files", "n"][1..] == b && ["p", "q", "files", "n"][1..] == c;
    assert Join(b, "/") == "files/n" && Join(c, "/") == "q/files/n";
  }

  /** The same beginning in front of both. */
  lemma StartJoins(end: seq<string>)
    requires end != []
    ensures Join(["v1", "a", "%7Be%7D", "b"] + end, "/") == "v1/a/%7Be%7D/b/" + Join(end, "/")
  {
    JoinCons("b", end);
    JoinCons("%7Be%7D", ["b"] + end);
    JoinCons("a", ["%7Be%7D"] + (["b"] + end));
    JoinCons("v1", ["a"] + (["%7Be%7D"] + (["b"] + end)));
    var all := ["v1"] + (["a"] + (["%7Be%7D"] + (["b"] + end)));
    assert all == ["v1", "a", "%7Be%7D", "b"] + end;
    FourInFront("v1/", "a/", "%7Be%7D/", "b/", Join(end, "/"));
  }

  lemma JoinCons(text: string, rest: seq<string>)
    requires rest != []
    ensures Join([text] + rest, "/") == text + "/" + Join(rest, "/")
  {
    assert ([text] + rest)[1..] == rest;
  }

  lemma FourInFront(a: string, b: string, c: string, d: string, rest: string)
    ensures a + (b + (c + (d + rest))) == a + b + c + d + rest
  {
  }

  lemma WrittenJoins()
    ensures Join(WRITTEN, "/") == "v1/a/%7Be%7D/b/" + "p/q/files/n"
  {
    EndJoins();
    StartJoins(["p/q", "files", "n"]);
    assert ["v1", "a", "%7Be%7D", "b"] + ["p/q", "files", "n"] == WRITTEN;
  }

  lemma RequestJoins()
    ensures Join(REQUEST, "/") == "v1/a/%7Be%7D/b/" + "p/q/files/n"
  {
    EndJoins();
    StartJoins(["p", "q", "files", "n"]);
    assert ["v1", "a", "%7Be%7D", "b"] + ["p", "q", "files", "n"] == REQUEST;
  }

  lemma SentText()
    ensures "/" + ("v1/a/%7Be%7D/b/" + "p/q/files/n") == SENT
  {
    assert "/" + "v1/a/%7Be%7D/b/" == "/v1/a/%7Be%7D/b/";
    Assoc("/", "v1/a/%7Be%7D/b/", "p/q/files/n");
    assert "/v1/a/%7Be%7D/b/" + "p/q/files/n" == SENT;
  }

  lemma SentTexts()
    ensures "/" + Join(WRITTEN, "/") == SENT && "/" + Join(REQUEST, "/") == SENT
  {
    WrittenJoins();
    RequestJoins();
    SentText();
  }

  lemma SentSplits()
    ensures Split(SENT, '/') == [""] + REQUEST
  {
    SentTexts();
    forall i | 0 <= i < 8
      ensures '/' !in REQUEST[i]
    {
    }
    SplitAfterJoin(REQUEST, '/');
    SplitPath(Join(REQUEST, "/"));
  }

  lemma {:induction false} MismatchIsNotServed(ts: seq<Token>, path: string, request: seq<string>, i: nat)
    requires Routable(ts) && Split(path, '/') == [""] + request && i < |request| && i < |SplitTokens(ts)| - 1
    requires var seg := SplitTokens(ts)[i + 1];
      !IsHole(seg) && DecodeSegment(request[i]) != DecodeSegment(Show(seg))
    ensures Serve(Show(ts), path) == NotServed
  {
    var cs := SplitTokens(ts)[1..];
    RegisteredSegments(ts);
    ServeSplit(Show(ts), path, ParseSegments(ShowAll(cs)), request);
    MismatchIsLost(cs, request, i);
  }

  /** Where a route expects "files", another segment stands. */
  lemma {:induction false} MixIsNotServed(pattern: string, first: string, e: string, a: string, g: string, b: string,
                                          name: string, files: string, path: string, request: seq<string>)
    requires IsMix(pattern, first, e, a, g, b, name, files) && GoodLiteral(files) && '%' !in files
    requires Split(path, '/') == [""] + request && |request| > 5 && DecodeSegment(request[5]) != files
    ensures Serve(Show(GoParse(pattern).tokens), path) == NotServed
  {
    LiteralIsNoHole(files);
    ShowChars(files);
    PlainTextDecodes(files);
    assert SplitTokens(GoParse(pattern).tokens)[6] == Chars(files);
    MismatchIsNotServed(GoParse(pattern).tokens, path, request, 5);
  }

  lemma QIsNotFiles()
    ensures |REQUEST| > 5 && DecodeSegment(REQUEST[5]) != FILES && '%' !in FILES && GoodLiteral(FILES)
  {
    PlainTextDecodes("q");
  }

  lemma MixedMessage()
    ensures MixMessage(E, A, G, B, NAME, FILES, PQ, N) == map["e" := "a/{e}", "g" := "b/p/q", "name" := "files/n"]
    ensures OctetMessage(MixMessage(E, A, G, B, NAME, FILES, PQ, N)) && GoodText(PQ, false)
    ensures CleanSegments(Split(N, '/'))
    ensures [A + "/" + ("{" + E + "}"), B + "/" + PQ, FILES + "/" + N] == ["a/{e}", "b/p/q", "files/n"]
  {
    SplitWhole(N, '/');
    assert A + "/" + ("{" + E + "}") == "a/{e}" && B + "/" + PQ == "b/p/q" && FILES + "/" + N == "files/n";
  }

  /** The message is deliverable and the path that is built is answered with its fields, but what goes
      out is no request for the route. */
  lemma MixedIsLost()
    ensures Supported(MIXED) && PathBytes(MIXED) && WellFormed(FieldsOf(MIXED))
    ensures var ts, msg := GoParse(MIXED).tokens, map["e" := "a/{e}", "g" := "b/p/q", "name" := "files/n"];
      && OctetMessage(msg) && SameRoute(ts, ts)
      && Deliverable(MIXED, msg) && AllReach(Go, FieldsOf(MIXED), msg, Missed(MIXED))
      && AnswerTo(MIXED, ts, GoPath(MIXED, msg)) == Texts(["a/{e}", "b/p/q", "files/n"])
      && GoRequest(MIXED, msg) == Sent(SENT) && AnswerToSent(MIXED, ts, GoRequest(MIXED, msg)) == Lost
  {
    MixNamesAreGood();
    MixWritten();
    MixRuleIs(V1, E, A, G, B, NAME, FILES, X);
    MixedIsPlain();
    MixedMessage();
    SaidIsWritten();
    SentTexts();
    MixedAt(MIXED, MixMessage(E, A, G, B, NAME, FILES, PQ, N));
  }

  lemma {:induction false} MixedAt(pattern: string, msg: Message)
    requires GoodMix(V1, E, A, G, B, NAME, FILES, X) && IsMix(pattern, V1, E, A, G, B, NAME, FILES)
    requires '%' !in V1 && '%' !in A && '%' !in B && '%' !in FILES
    requires Only(pattern, PlainBytes()) && OctetMessage(msg) && msg == MixMessage(E, A, G, B, NAME, FILES, PQ, N)
    requires GoodText(PQ, false) && CleanSegments(Split(N, '/'))
    requires EachOctets(SAID) && "/" + Join(EscapeAll(PathCodec(), SAID), "/") == SENT
    ensures PathBytes(pattern) && WellFormed(FieldsOf(pattern))
    ensures var ts := GoParse(pattern).tokens;
      && SameRoute(ts, ts)
      && Deliverable(pattern, msg) && AllReach(Go, FieldsOf(pattern), msg, Missed(pattern))
      && AnswerTo(pattern, ts, GoPath(pattern, msg))
        == Texts([A + "/" + ("{" + E + "}"), B + "/" + PQ, FILES + "/" + N])
      && GoRequest(pattern, msg) == Sent(SENT) && AnswerToSent(pattern, ts, GoRequest(pattern, msg)) == Lost
  {
    PlainPattern(pattern);
    MixDelivers(pattern, V1, E, A, G, B, NAME, FILES, X, PQ, N);
    MixedIsDisturbed(pattern, V1, E, A, G, B, NAME, FILES, X, PQ, N);
    SaidIs();
    MixRequest(pattern, V1, E, A, G, B, NAME, FILES, X, PQ, N, SAID);
    SentSplits();
    QIsNotFiles();
    MixIsNotServed(pattern, V1, E, A, G, B, NAME, FILES, SENT, REQUEST);
    NotServedIsLost(pattern, GoParse(pattern).tokens, SENT);
  }

  lemma SaidIs()
    ensures SAID == [V1, A, "{" + E + "}", B, PQ, FILES, N]
  {
    assert "{" + E + "}" == "{e}";
  }

  lemma NotServedIsLost(pattern: string, st: seq<Token>, path: string)
    requires Supported(pattern) && SameRoute(GoParse(pattern).tokens, st) && Serve(Show(st), path) == NotServed
    ensures AnswerToSent(pattern, st, Sent(path)) == Lost
  {
  }
}
