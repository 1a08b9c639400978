/** End to end: the client takes the fields of a message apart and fills the path; the server
    matches the path, decodes the segments, trims the verb and puts the fields together again. */
module RoundTrip {
  import opened Text
  import opened Escape
  import opened Template
  import opened ServeMux
  import opened Routing
  import opened Patterns
  import opened Fields
  import opened Clients
  import Agreement

  // ---- the server ----

  datatype Answer = Lost | Texts(fields: seq<string>)

  /** The handler of one route, registered under `registered`. */
  function Handle(registered: string, fields: seq<Field>, path: string): Answer
    requires WellFormed(fields)
  {
    match Serve(registered, path)
    case NotServed => Lost
    case Captured(values) => Texts(FieldTexts(fields, Register(registered), values))
  }

  // ---- which patterns ----

  /** The patterns the code supports: whole-segment wildcards with distinct names, separators that
      begin with a slash, and a verb only at the end. Grammar says which texts these are. */
  predicate Supported(pattern: string) {
    var p := GoParse(pattern);
    && Agreement.VerbOnlyAtEnd(pattern)
    && Plain(p.tokens) && Routable(p.tokens) && Distinct(HoleNames(Holes(p.tokens)))
    && GoodVerb(p.verb) && (p.verb != "" ==> LastIsHole(SplitTokens(p.tokens)))
    && WellFormed(FieldsFrom(pattern, ""))
    && (forall f | f in FieldsFrom(pattern, "") :: SlashSeps(f.seps))
  }

  /** Every separator begins with a slash. */
  predicate SlashSeps(seps: seq<string>) { forall i | 0 <= i < |seps| :: seps[i] != "" && seps[i][0] == '/' }

  /** A registered template of the same shape, possibly with other names. */
  predicate SameRoute(ct: seq<Token>, st: seq<Token>) {
    && Routable(st) && SameShape(SplitTokens(ct)[1..], SplitTokens(st)[1..])
    && Distinct(HoleNames(Holes(st)))
  }

  lemma {:induction false} ShapeOfItself(segs: seq<seq<Token>>)
    ensures SameShape(segs, segs)
  {
    if segs != [] { ShapeOfItself(segs[1..]); }
  }

  // ---- what the clients find in the path ----

  /** The placeholders a client replaces; the generators searched the path for them. */
  function FoundHoles(pattern: string): (found: seq<Hole>)
    ensures |found| == |GoParse(pattern).vars|
  {
    ClientHoles(Agreement.ForgetAll(GoParse(pattern).vars), Show(GoParse(pattern).tokens))
  }

  /** The names of the variables whose placeholder the client does not find. */
  function MissedNames(holes: seq<Hole>, found: seq<Hole>): set<string>
    requires |holes| == |found|
  {
    set i | 0 <= i < |holes| && found[i] != holes[i] :: holes[i].name
  }

  function Missed(pattern: string): set<string> {
    PlaceholdersCounted(pattern);
    MissedNames(Holes(GoParse(pattern).tokens), FoundHoles(pattern))
  }

  /** What arrives: a value, or the placeholder that stayed in the path. */
  function Arriving(names: seq<string>, values: seq<string>, missed: set<string>): (r: seq<string>)
    requires |names| == |values|
    ensures |r| == |names|
    ensures forall i | 0 <= i < |r| :: r[i] == if names[i] in missed then "{" + names[i] + "}" else values[i]
  {
    seq(|names|, i requires 0 <= i < |names| => if names[i] in missed then "{" + names[i] + "}" else values[i])
  }

  lemma {:induction false} PlaceholdersCounted(pattern: string)
    ensures |Holes(GoParse(pattern).tokens)| == |GoParse(pattern).vars|
    ensures HoleNames(Holes(GoParse(pattern).tokens)) == VarNames(GoParse(pattern).vars)
  {
    PlaceholdersAreVariables(pattern, "");
  }

  /** The client's placeholders have the right names, and rest-of-path ones are always found. */
  lemma {:induction false} FoundHolesAreNamed(pattern: string)
    ensures var holes, found := Holes(GoParse(pattern).tokens), FoundHoles(pattern);
      && |holes| == |found| && HoleNames(found) == HoleNames(holes)
      && forall i | 0 <= i < |holes| && holes[i].rest :: found[i].rest
  {
    var p := GoParse(pattern);
    var holes, found := Holes(p.tokens), FoundHoles(pattern);
    PlaceholdersCounted(pattern);
    ParsedRestIsWild(pattern, "");
    forall i | 0 <= i < |holes|
      ensures found[i].name == holes[i].name && (holes[i].rest ==> found[i].rest)
    {
      ClientHoleAt(Agreement.ForgetAll(p.vars), Show(p.tokens), i);
      assert HoleNames(holes)[i] == VarNames(p.vars)[i];
      if holes[i].rest {
        assert Var(holes[i]) in p.tokens;
        RestIsFound(p.tokens, holes[i].name);
      }
    }
  }

  lemma {:induction false} ClientHoleAt(vars: seq<SharedVar>, path: string, i: nat)
    requires i < |vars|
    ensures ClientHoles(vars, path)[i] == ClientHole(vars[i].name, vars[i].wildcard, path)
  {
    if i > 0 { ClientHoleAt(vars[1..], path, i - 1); }
  }

  /** Which variables are missed: those with a wildcard that do not take the rest of the path and whose
      name ends the name of one that does, or stands before "..." among the literals. */
  lemma {:induction false} MissedExactly(pattern: string, i: nat)
    requires Supported(pattern) && i < |GoParse(pattern).vars|
    ensures |Holes(GoParse(pattern).tokens)| == |GoParse(pattern).vars|
    ensures var holes, v := Holes(GoParse(pattern).tokens), GoParse(pattern).vars[i];
      v.name in Missed(pattern)
      <==> v.wildcard && !holes[i].rest
           && (EndsRestName(holes, v.name) || HasText(GoParse(pattern).tokens, v.name + "..."))
  {
    var p := GoParse(pattern);
    var holes, found := Holes(p.tokens), FoundHoles(pattern);
    FoundHolesAreNamed(pattern);
    PlaceholdersCounted(pattern);
    ParsedRestIsWild(pattern, "");
    MissedAt(holes, found, i);
    ClientHoleAt(Agreement.ForgetAll(p.vars), Show(p.tokens), i);
    assert HoleNames(holes)[i] == VarNames(p.vars)[i];
    assert Var(holes[i]) in p.tokens && PlainToken(Var(holes[i]));
    SearchFindsExactly(p.tokens, p.vars[i].name);
  }

  lemma MissedAt(holes: seq<Hole>, found: seq<Hole>, i: nat)
    requires |holes| == |found| && Distinct(HoleNames(holes)) && i < |holes|
    ensures holes[i].name in MissedNames(holes, found) <==> found[i] != holes[i]
  {
    if holes[i].name in MissedNames(holes, found) {
      var k :| 0 <= k < |holes| && found[k] != holes[k] && holes[k].name == holes[i].name;
      SameNameSameIndex(holes, k, i);
    }
  }

  lemma SameNameSameIndex(holes: seq<Hole>, i: nat, k: nat)
    requires Distinct(HoleNames(holes)) && i < |holes| && k < |holes| && holes[i].name == holes[k].name
    ensures i == k
  {
    var names := HoleNames(holes);
    assert names[i] == names[k];
  }

  lemma {:induction false} MissedIsNamed(pattern: string)
    ensures forall n | n in Missed(pattern) :: n in VarNames(GoParse(pattern).vars)
  {
    PlaceholdersCounted(pattern);
    var holes := Holes(GoParse(pattern).tokens);
    forall n | n in Missed(pattern)
      ensures n in VarNames(GoParse(pattern).vars)
    {
      var k :| 0 <= k < |holes| && holes[k].name == n;
      assert HoleNames(holes)[k] == n;
    }
  }

  lemma DifferentNames(holes: seq<Hole>, i: nat, k: nat)
    requires Distinct(HoleNames(holes)) && i < |holes| && k < |holes| && i != k
    ensures holes[i].name != holes[k].name
  {
    var names := HoleNames(holes);
    assert names[i] != names[k];
  }

  /** The values are served: none is empty, "/", "." or "..", a rest-of-path value has no such
      segment but possibly an empty last one, and a verb counts as part of the last value. */
  predicate ServableValues(pattern: string, raws: seq<string>)
    requires |raws| == |GoParse(pattern).vars| && Supported(pattern)
  {
    var p := GoParse(pattern);
    ValuesCover(pattern, raws);
    Servable(SplitTokens(p.tokens)[1..], ValueMap(Holes(p.tokens), raws), p.verb)
  }

  lemma {:induction false} ValuesCover(pattern: string, raws: seq<string>)
    requires |raws| == |GoParse(pattern).vars| && Supported(pattern)
    ensures var p := GoParse(pattern);
      && |Holes(p.tokens)| == |raws|
      && Holes(p.tokens) == SegHoles(SplitTokens(p.tokens)[1..])
      && Covers(ValueMap(Holes(p.tokens), raws), SplitTokens(p.tokens)[1..])
  {
    PlaceholdersCounted(pattern);
    RoutableHoles(GoParse(pattern).tokens);
  }

  lemma {:induction false} DistinctNamesDistinctHoles(holes: seq<Hole>)
    requires Distinct(HoleNames(holes))
    ensures Distinct(holes)
  {
    forall i, j | 0 <= i < j < |holes|
      ensures holes[i] != holes[j]
    {
      assert HoleNames(holes)[i] != HoleNames(holes)[j];
    }
  }

  lemma {:induction false} EscapedIsBraceFree(codec: Codec, values: map<Hole, string>)
    requires codec.Valid() && AllOctets(values)
    ensures forall h | h in values :: BraceFree(Escaped(codec, values)[h])
  {
    forall h | h in values
      ensures BraceFree(Escaped(codec, values)[h])
    {
      EscapedVarDecodes(codec, values[h], h.rest, "");
    }
  }

  lemma {:induction false} VerbAddsNoHoles(ts: seq<Token>, verb: string)
    requires Plain(ts) && GoodVerb(verb)
    ensures Plain(ts + Chars(verb)) && Holes(ts + Chars(verb)) == Holes(ts)
    ensures Show(ts + Chars(verb)) == Show(ts) + verb
  {
    HolesConcat(ts, Chars(verb));
    HolesOfChars(verb);
    PlainVerb(verb);
    ShowConcat(ts, Chars(verb));
    ShowChars(verb);
  }

  /** Filling the template is substituting all the values at once, those of the placeholders found. */
  lemma {:induction false} FilledPath(codec: Codec, ts: seq<Token>, found: seq<Hole>, raws: seq<string>, verb: string)
    requires codec.Valid() && Plain(ts) && GoodVerb(verb) && Distinct(HoleNames(Holes(ts)))
    requires |raws| == |found| && OctetValues(raws) && HoleNames(found) == HoleNames(Holes(ts))
    ensures AllOctets(ValueMap(found, raws))
    ensures var path := ClientPath(codec, ts, ValueMap(found, raws), verb);
      && FillTemplate(codec, Show(ts) + verb, found, raws) == path
      && FillTemplateAll(codec, Show(ts) + verb, found, raws) == path
  {
    var holes := Holes(ts);
    OctetMap(found, raws);
    var values := ValueMap(found, raws);
    DistinctNamesDistinctHoles(holes);
    VerbAddsNoHoles(ts, verb);
    EscapedIsBraceFree(codec, values);
    forall h | h in found
      ensures PlainName(h.name)
    {
      var i :| 0 <= i < |found| && found[i] == h;
      assert HoleNames(found)[i] == HoleNames(holes)[i] && PlainToken(Var(holes[i]));
    }
    SequentialIsSimultaneous(ts + Chars(verb), found, Escaped(codec, values));
    AllAreChosen(found, Escaped(codec, values));
  }

  lemma AllAreChosen(holes: seq<Hole>, values: map<Hole, string>)
    requires forall h | h in values :: h in holes
    ensures Chosen(holes, values) == values
  {
  }

  lemma PlainVerb(verb: string)
    requires GoodVerb(verb)
    ensures Plain(Chars(verb))
  {
    forall t | t in Chars(verb)
      ensures PlainToken(t)
    {
      var i :| 0 <= i < |verb| && Chars(verb)[i] == t;
      assert verb[i] in verb;
    }
  }

  /** The fields as the handler reads them: through the names of the registered template. */
  lemma {:induction false} FieldsOfRoute(pattern: string, st: seq<Token>)
    requires Supported(pattern) && SameRoute(GoParse(pattern).tokens, st)
    ensures var fields, names := Assignments(GoParse(pattern).vars), HoleNames(Holes(st));
      && WellFormed(fields) && |names| == |AllNames(fields)| == |GoParse(pattern).vars|
      && WellFormed(Renamed(fields, names))
  {
    var p := GoParse(pattern);
    FieldsOfPattern(pattern, map[]);
    PlaceholdersAreVariables(pattern, "");
    RoutableHoles(p.tokens);
    RoutableHoles(st);
    SameShapeSameCount(SplitTokens(p.tokens)[1..], SplitTokens(st)[1..]);
    RenamedStaysWellFormed(Assignments(p.vars), HoleNames(Holes(st)));
  }

  /** What the handler of `pattern`, registered under `st`, makes of a request path. */
  function AnswerTo(pattern: string, st: seq<Token>, path: string): Answer
    requires Supported(pattern) && SameRoute(GoParse(pattern).tokens, st)
  {
    FieldsOfRoute(pattern, st);
    Handle(Show(st), Renamed(Assignments(GoParse(pattern).vars), HoleNames(Holes(st))), path)
  }

  function UrlPattern(pattern: string): string { Show(GoParse(pattern).tokens) + GoParse(pattern).verb }

  /** The values that arrive when the client of `pattern` sends `raws`. */
  function ArrivingAt(pattern: string, raws: seq<string>): (r: seq<string>)
    requires |raws| == |GoParse(pattern).vars|
    ensures |r| == |raws|
  {
    Arriving(VarNames(GoParse(pattern).vars), raws, Missed(pattern))
  }

  lemma {:induction false} ArrivesAtServer(pattern: string, raws: seq<string>)
    requires Supported(pattern) && |raws| == |GoParse(pattern).vars|
    ensures |Holes(GoParse(pattern).tokens)| == |raws|
    ensures var p := GoParse(pattern);
      var cs, sent := SplitTokens(p.tokens)[1..], ValueMap(Holes(p.tokens), ArrivingAt(pattern, raws));
      Covers(sent, cs) && Arrives(cs, ValueMap(FoundHoles(pattern), raws), sent)
  {
    var p := GoParse(pattern);
    var holes, found, arriving := Holes(p.tokens), FoundHoles(pattern), ArrivingAt(pattern, raws);
    FoundHolesAreNamed(pattern);
    PlaceholdersCounted(pattern);
    ValuesCover(pattern, arriving);
    var values, sent := ValueMap(found, raws), ValueMap(holes, arriving);
    DistinctNamesDistinctHoles(holes);
    DistinctNamesDistinctHoles(found);
    forall h | h in SegHoles(SplitTokens(p.tokens)[1..])
      ensures if h in values then sent[h] == values[h] else !h.rest && sent[h] == Placeholder(h)
    {
      var i :| 0 <= i < |holes| && holes[i] == h;
      OneArrives(holes, found, raws, arriving, i);
    }
  }

  /** Placeholder number i: replaced by its value, or left. */
  lemma {:induction false} OneArrives(holes: seq<Hole>, found: seq<Hole>, raws: seq<string>, arriving: seq<string>,
                                      i: nat)
    requires |holes| == |found| == |raws| && i < |holes| && Distinct(HoleNames(holes))
    requires HoleNames(found) == HoleNames(holes) && Distinct(holes) && Distinct(found)
    requires holes[i].rest ==> found[i].rest
    requires arriving == Arriving(HoleNames(holes), raws, MissedNames(holes, found))
    ensures var values, sent, h := ValueMap(found, raws), ValueMap(holes, arriving), holes[i];
      && h in sent
      && if h in values then sent[h] == values[h] else !h.rest && sent[h] == Placeholder(h)
  {
    MissedAt(holes, found, i);
    ArrivesAt(holes, raws, MissedNames(holes, found), i);
    if found[i] == holes[i] {
      ArrivesAt(found, raws, {}, i);
    } else {
      NotFoundElsewhere(holes, found, i);
    }
  }

  /** What stands for placeholder number i. */
  lemma {:induction false} ArrivesAt(holes: seq<Hole>, raws: seq<string>, missed: set<string>, i: nat)
    requires |holes| == |raws| && i < |holes| && Distinct(holes)
    ensures var sent := ValueMap(holes, Arriving(HoleNames(holes), raws, missed));
      holes[i] in sent && sent[holes[i]] == if holes[i].name in missed then "{" + holes[i].name + "}" else raws[i]
    ensures missed == {} ==> Arriving(HoleNames(holes), raws, missed) == raws
  {
    ValueAt(holes, Arriving(HoleNames(holes), raws, missed), i);
  }

  lemma NotFoundElsewhere(holes: seq<Hole>, found: seq<Hole>, i: nat)
    requires |holes| == |found| && i < |holes| && Distinct(HoleNames(holes)) && HoleNames(found) == HoleNames(holes)
    requires found[i] != holes[i]
    ensures holes[i] !in found && found[i].name == holes[i].name
  {
    assert HoleNames(found)[i] == HoleNames(holes)[i];
    forall k | 0 <= k < |found|
      ensures found[k] != holes[i]
    {
      if k != i { DifferentNames(found, k, i); }
    }
  }

  /** What the mux captures: what arrives for each placeholder, the verb following the last. */
  lemma {:induction false} ServerCaptures(pattern: string, codec: Codec, raws: seq<string>, st: seq<Token>)
    requires Supported(pattern) && codec.Valid() && SameRoute(GoParse(pattern).tokens, st)
    requires |raws| == |GoParse(pattern).vars| && OctetValues(raws)
    ensures var found, arriving := FoundHoles(pattern), ArrivingAt(pattern, raws);
      var path := FillTemplate(codec, UrlPattern(pattern), found, raws);
      && FillTemplateAll(codec, UrlPattern(pattern), found, raws) == path
      && Serve(Show(st), path) ==
           if ServableValues(pattern, arriving) then Captured(AppendLast(arriving, GoParse(pattern).verb))
               else NotServed
  {
    var p := GoParse(pattern);
    var holes, found, cs := Holes(p.tokens), FoundHoles(pattern), SplitTokens(p.tokens)[1..];
    var arriving := ArrivingAt(pattern, raws);
    FoundHolesAreNamed(pattern);
    ValuesCover(pattern, arriving);
    FilledPath(codec, p.tokens, found, raws, p.verb);
    ArrivesAtServer(pattern, raws);
    LastOfTail(p.tokens);
    ServedExactlyWhenServable(codec, p.tokens, st, ValueMap(found, raws), ValueMap(holes, arriving), p.verb);
    ExpectedIsLookup(cs, ValueMap(holes, arriving), p.verb);
    DistinctNamesDistinctHoles(holes);
    LookupValueMap(holes, arriving);
  }

  /** The core: whatever values the client puts in, the server either does not serve the request
      or joins exactly what arrived into its fields. */
  lemma {:induction false} ServerGetsTheValues(pattern: string, codec: Codec, raws: seq<string>, st: seq<Token>)
    requires Supported(pattern) && codec.Valid() && SameRoute(GoParse(pattern).tokens, st)
    requires |raws| == |GoParse(pattern).vars| && OctetValues(raws)
    ensures var fields, found, arriving := Assignments(GoParse(pattern).vars), FoundHoles(pattern),
      ArrivingAt(pattern, raws);
      && WellFormed(fields) && |AllNames(fields)| == |raws|
      && FillTemplateAll(codec, UrlPattern(pattern), found, raws)
        == FillTemplate(codec, UrlPattern(pattern), found, raws)
      && AnswerTo(pattern, st, FillTemplate(codec, UrlPattern(pattern), found, raws))
         == if ServableValues(pattern, arriving) then Texts(Joined(fields, arriving)) else Lost
  {
    var p := GoParse(pattern);
    FieldsOfRoute(pattern, st);
    FieldsOfPattern(pattern, map[]);
    ServerCaptures(pattern, codec, raws, st);
    RegisteredNames(st);
    var arriving := ArrivingAt(pattern, raws);
    var captured := AppendLast(arriving, p.verb);
    if ServableValues(pattern, arriving) {
      CapturesReadThemselves(Register(Show(st)), captured);
      ServerJoins(Assignments(p.vars), p.verb, arriving, Register(Show(st)), captured, HoleNames(Holes(st)));
    }
  }

  /** PathValue of the last placeholder is the last capture. */
  lemma {:induction false} LastCapture(st: seq<Token>, values: seq<string>)
    requires Routable(st) && Distinct(HoleNames(Holes(st))) && |values| == |Holes(st)| > 0
    ensures var names := HoleNames(Holes(st));
      PathValue(Register(Show(st)), values, names[|names| - 1]) == values[|values| - 1]
  {
    RegisteredNames(st);
    PathValueAt(Register(Show(st)), values, |values| - 1);
  }

  lemma LastOfTail(ts: seq<Token>)
    requires Routable(ts)
    ensures LastIsHole(SplitTokens(ts)) <==> LastIsHole(SplitTokens(ts)[1..])
  {
  }

  lemma {:induction false} FieldsOfPattern(pattern: string, msg: Message)
    requires Supported(pattern)
    ensures var p := GoParse(pattern);
      var fields := Assignments(p.vars);
      && fields == FieldsFrom(pattern, "") && VerbOnLast(fields, p.verb)
      && AllNames(fields) == VarNames(p.vars) && RawValues(p.vars, msg) == AllValues(fields, msg)
  {
    var p := GoParse(pattern);
    var fields := FieldsFrom(pattern, "");
    ParseIsAligned(pattern, "");
    AssignmentsAreFields(p.vars, fields);
    ParsePutsVerbOnLast(pattern);
    ValuesAndNames(p.vars, fields, msg);
  }
}
