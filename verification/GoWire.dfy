/** net/url between the Go client and the wire: the path CallRequest built is parsed into a URL and
    written again. Which paths that changes, what the route then makes of the request, and so the Go
    client's round trip over the path that goes out. */
module GoWire {
  import opened Text
  import opened Escape
  import opened Template
  import opened ServeMux
  import opened Routing
  import opened Patterns
  import opened Fields
  import opened Clients
  import opened RoundTrip
  import opened EndToEnd
  import opened NetUrl
  import opened Reencoding

  // ---- the path of a message ----

  /** `last` is the field of the last variable, and `value` what the client has for it. */
  predicate IsLast(pattern: string, msg: Message, last: Field, value: string) {
    var fields := FieldsOf(pattern);
    && fields != [] && last == fields[|fields| - 1] && last.seps == [] && last.verb == GoParse(pattern).verb
    && value == TrimPrefix(Get(msg, last.fieldPath), last.prefix)
  }

  lemma {:induction false} LastRaw(pattern: string, msg: Message, value: string) returns (last: Field)
    requires Supported(pattern) && GoParse(pattern).vars != []
    requires GoParse(pattern).vars[|GoParse(pattern).vars| - 1].multi.None?
    requires value == GoRaws(GoParse(pattern).vars, msg)[|GoParse(pattern).vars| - 1]
    ensures IsLast(pattern, msg, last, value)
  {
    last := LastFieldOf(pattern);
    var vars := GoParse(pattern).vars;
    RawOfLast(vars[|vars| - 1], last, msg, value);
  }

  lemma {:induction false} LastFieldOf(pattern: string) returns (last: Field)
    requires Supported(pattern) && GoParse(pattern).vars != []
    requires GoParse(pattern).vars[|GoParse(pattern).vars| - 1].multi.None?
    ensures var fields := FieldsOf(pattern);
      fields != [] && last == fields[|fields| - 1] && last.seps == [] && last.verb == GoParse(pattern).verb
    ensures IsVarOf(GoParse(pattern).vars[|GoParse(pattern).vars| - 1], last, 0)
  {
    FieldsOfPattern(pattern, map[]);
    ParseIsAligned(pattern, "");
    LastAligned(GoParse(pattern).vars, FieldsOf(pattern));
    last := FieldsOf(pattern)[|FieldsOf(pattern)| - 1];
  }

  lemma RawOfLast(v: PathVar, f: Field, msg: Message, value: string)
    requires f.seps == [] && IsVarOf(v, f, 0) && value == GoRaw(v, msg)
    ensures value == TrimPrefix(Get(msg, f.fieldPath), f.prefix)
  {
  }

  /** The handler's texts are read from as many captures as there are placeholders. */
  predicate ReadFrom(fields: seq<Field>, names: seq<string>, registered: seq<Segment>, captured: seq<string>,
                     texts: seq<string>)
  {
    && WellFormed(fields) && |names| == |AllNames(fields)| == |captured| && WellFormed(Renamed(fields, names))
    && FieldTexts(Renamed(fields, names), registered, captured) == texts
    && (captured != [] ==> PathValue(registered, captured, names[|names| - 1]) == captured[|captured| - 1])
  }

  lemma {:induction false} AnsweredTexts(pattern: string, st: seq<Token>, path: string, texts: seq<string>)
    requires Supported(pattern) && SameRoute(GoParse(pattern).tokens, st)
    requires AnswerTo(pattern, st, path) == Texts(texts)
    ensures Serve(Show(st), path).Captured?
    ensures var captured := Serve(Show(st), path).values;
      ReadFrom(FieldsOf(pattern), HoleNames(Holes(st)), Register(Show(st)), captured, texts)
  {
    FieldsOfRoute(pattern, st);
    CapturesCounted(st, path);
    var captured := Serve(Show(st), path).values;
    if captured != [] { LastCapture(st, captured); }
  }

  /** The text the handler has for its last field. */
  lemma {:induction false} LastTextAnswered(fields: seq<Field>, names: seq<string>, registered: seq<Segment>,
                                            captured: seq<string>, texts: seq<string>, last: Field)
    requires ReadFrom(fields, names, registered, captured, texts)
    requires fields != [] && last == fields[|fields| - 1] && last.seps == []
    ensures captured != [] && texts != []
    ensures texts[|texts| - 1] == last.prefix + TrimSuffix(captured[|captured| - 1], last.verb)
  {
    NamesPerField(fields);
    LastText(fields, names, registered, captured);
  }

  /** The last value is captured as it was sent, once the verb is off. */
  lemma {:induction false} LastComesBack(pattern: string, names: seq<string>, registered: seq<Segment>, msg: Message,
                                         captured: seq<string>, last: Field, value: string)
    requires IsLast(pattern, msg, last, value)
    requires ReadFrom(FieldsOf(pattern), names, registered, captured, Originals(FieldsOf(pattern), msg))
    ensures captured != [] && TrimSuffix(captured[|captured| - 1], last.verb) == value
  {
    LastTextAnswered(FieldsOf(pattern), names, registered, captured, Originals(FieldsOf(pattern), msg), last);
    LastOriginal(FieldsOf(pattern), msg, last);
    PrefixComesOff(last.prefix, TrimSuffix(captured[|captured| - 1], last.verb), Get(msg, last.fieldPath), value);
  }

  lemma LastOriginal(fields: seq<Field>, msg: Message, last: Field)
    requires fields != [] && last == fields[|fields| - 1]
    ensures var texts := Originals(fields, msg); texts[|texts| - 1] == Get(msg, last.fieldPath)
  {
  }

  lemma PrefixComesOff(prefix: string, text: string, whole: string, value: string)
    requires whole == prefix + text && value == TrimPrefix(whole, prefix)
    ensures text == value
  {
  }

  lemma {:induction false} CapturesCounted(st: seq<Token>, path: string)
    requires Routable(st) && Serve(Show(st), path).Captured?
    ensures |Serve(Show(st), path).values| == |Holes(st)|
  {
    var parts := Split(path, '/');
    assert parts == [""] + parts[1..];
    RoutableHoles(st);
    ServedCounts(st, path, parts[1..]);
  }

  lemma {:induction false} SaysLast(segs: seq<seq<Token>>, sent: map<Hole, string>, verb: string)
    requires Covers(sent, segs) && EndsInRest(segs)
    ensures var holes := SegHoles(segs);
      && holes != [] && holes[|holes| - 1].rest
      && Says(segs, sent, verb)[|segs| - 1] == sent[holes[|holes| - 1]] + verb
  {
    CoversHead(sent, segs);
    if |segs| > 1 {
      assert segs[1..][|segs| - 2] == segs[|segs| - 1];
      SaysLast(segs[1..], sent, verb);
      assert Says(segs, sent, verb)[1..] == Says(segs[1..], sent, verb);
      LastHoleOfMore(segs);
    } else {
      assert segs[1..] == [] && SegHoles(segs[1..]) == [];
    }
  }

  lemma LastHoleOfMore(segs: seq<seq<Token>>)
    requires segs != [] && SegHoles(segs[1..]) != []
    ensures var holes, more := SegHoles(segs), SegHoles(segs[1..]);
      holes != [] && holes[|holes| - 1] == more[|more| - 1]
  {
  }

  /** What the Go client builds: its template with the found placeholders replaced. */
  lemma {:induction false} GoPathIsFilled(pattern: string, msg: Message)
    requires Supported(pattern) && OctetMessage(msg)
    ensures OctetValues(GoRaws(GoParse(pattern).vars, msg))
    ensures AllOctets(ValueMap(FoundHoles(pattern), GoRaws(GoParse(pattern).vars, msg)))
    ensures var p := GoParse(pattern);
      GoPath(pattern, msg)
          == ClientPath(GoCodec(), p.tokens, ValueMap(FoundHoles(pattern), GoRaws(p.vars, msg)), p.verb)
  {
    var p := GoParse(pattern);
    OctetRaws(Go, p.vars, msg);
    CodecsAreValid();
    FoundHolesAreNamed(pattern);
    FilledPath(GoCodec(), p.tokens, FoundHoles(pattern), GoRaws(p.vars, msg), p.verb);
  }

  function FoundValues(pattern: string, msg: Message): map<Hole, string> {
    ValueMap(FoundHoles(pattern), GoRaws(GoParse(pattern).vars, msg))
  }

  /** What the Go client sends in the place of each placeholder. */
  function SentValues(pattern: string, msg: Message): map<Hole, string> {
    PlaceholdersCounted(pattern);
    ValueMap(Holes(GoParse(pattern).tokens), ArrivingAt(pattern, GoRaws(GoParse(pattern).vars, msg)))
  }

  lemma {:induction false} GoSends(pattern: string, msg: Message)
    requires Supported(pattern) && PathBytes(pattern) && OctetMessage(msg)
    ensures var p := GoParse(pattern);
      Sends(p.tokens, FoundValues(pattern, msg), SentValues(pattern, msg), p.verb)
  {
    GoPathIsFilled(pattern, msg);
    ArrivesAtServer(pattern, GoRaws(GoParse(pattern).vars, msg));
    ParsedBytes(pattern);
  }

  lemma {:induction false} GoPathBytes(pattern: string, msg: Message)
    requires Supported(pattern) && PathBytes(pattern) && OctetMessage(msg)
    ensures PathBytes(GoPath(pattern, msg))
  {
    GoSends(pattern, msg);
    GoPathIsFilled(pattern, msg);
    var p := GoParse(pattern);
    PathIsPathBytes(p.tokens, FoundValues(pattern, msg), SentValues(pattern, msg), p.verb);
  }

  /** What goes out for a message. */
  function GoRequest(pattern: string, msg: Message): Sent
    requires Supported(pattern) && PathBytes(pattern) && OctetMessage(msg)
  {
    GoPathBytes(pattern, msg);
    Send(GoPath(pattern, msg))
  }

  lemma {:induction false} FilledWhenFound(pattern: string, raws: seq<string>)
    requires Supported(pattern) && |raws| == |GoParse(pattern).vars|
    ensures AllFilled(GoParse(pattern).tokens + Chars(GoParse(pattern).verb), ValueMap(FoundHoles(pattern), raws))
      <==> Missed(pattern) == {}
  {
    var p := GoParse(pattern);
    FoundHolesAreNamed(pattern);
    VerbAddsNoHoles(p.tokens, p.verb);
    FilledAreFound(p.tokens + Chars(p.verb), Holes(p.tokens), FoundHoles(pattern), raws);
  }

  lemma {:induction false} FilledAreFound(ts: seq<Token>, holes: seq<Hole>, found: seq<Hole>, raws: seq<string>)
    requires |holes| == |found| == |raws| && Distinct(HoleNames(holes)) && HoleNames(found) == HoleNames(holes)
    requires forall h :: h in holes <==> Var(h) in ts
    ensures AllFilled(ts, ValueMap(found, raws)) <==> MissedNames(holes, found) == {}
  {
    if MissedNames(holes, found) == {} {
      forall t | t in ts && t.Var?
        ensures t.hole in ValueMap(found, raws)
      {
        var i :| 0 <= i < |holes| && holes[i] == t.hole;
        NotFoundIsMissed(holes, found, i);
        assert found[i] == holes[i];
      }
    } else {
      var n :| n in MissedNames(holes, found);
      var i :| 0 <= i < |holes| && found[i] != holes[i] && holes[i].name == n;
      NotFoundElsewhere(holes, found, i);
      assert holes[i] in holes && Var(holes[i]) in ts;
    }
  }

  lemma NotFoundIsMissed(holes: seq<Hole>, found: seq<Hole>, i: nat)
    requires |holes| == |found| && i < |holes|
    ensures found[i] != holes[i] ==> holes[i].name in MissedNames(holes, found)
  {
  }

  // ---- what goes out ----

  /** Nothing in the path makes net/url encode it anew: no placeholder is left, and every byte of a
      literal may stand in a raw path. */
  predicate KeptAsBuilt(pattern: string) {
    Missed(pattern) == {} && RawLiterals(GoParse(pattern).tokens + Chars(GoParse(pattern).verb))
  }

  /** The path goes out as it was built, encoded anew, or not at all: that depends on the pattern only. */
  lemma {:induction false} SentAsBuiltExactly(pattern: string, msg: Message)
    requires Supported(pattern) && PathBytes(pattern) && OctetMessage(msg)
    ensures var path, literals := GoPath(pattern, msg), LiteralsDecode(SplitTokens(GoParse(pattern).tokens)[1..]);
      && PathBytes(path)
      && (GoRequest(pattern, msg) == NoRequest <==> !literals)
      && (GoRequest(pattern, msg) == Sent(path) <==> literals && KeptAsBuilt(pattern))
      && (literals && !KeptAsBuilt(pattern)
        ==> Unescape(path).Text? && GoRequest(pattern, msg) == Sent(Reencoded(path)))
  {
    var p, path := GoParse(pattern), GoPath(pattern, msg);
    var values, sent := FoundValues(pattern, msg), SentValues(pattern, msg);
    GoSends(pattern, msg);
    GoPathIsFilled(pattern, msg);
    PathIsPathBytes(p.tokens, values, sent, p.verb);
    PathDecodes(p.tokens, values, sent, p.verb);
    FilledWhenFound(pattern, GoRaws(p.vars, msg));
    if Unescape(path).Text? { SentExactly(path); }
  }

  // ---- what the route makes of it ----

  /** A handler's answer to what goes out, if anything does. */
  function HandleSent(registered: string, fields: seq<Field>, sent: Sent): Answer
    requires WellFormed(fields)
  {
    match sent
    case NoRequest => Lost
    case Sent(path) => Handle(registered, fields, path)
  }

  /** The answer of the handler of `pattern`, registered under `st`. */
  function AnswerToSent(pattern: string, st: seq<Token>, sent: Sent): Answer
    requires Supported(pattern) && SameRoute(GoParse(pattern).tokens, st)
  {
    FieldsOfRoute(pattern, st);
    HandleSent(Show(st), Renamed(FieldsOf(pattern), HoleNames(Holes(st))), sent)
  }

  /** Encoding the path anew changes nothing for these values: the literals mean the same when they
      are decoded, and only a rest-of-path value has slashes. */
  predicate Steady(pattern: string, values: seq<string>)
    requires |values| == |GoParse(pattern).vars|
  {
    PlaceholdersCounted(pattern);
    SteadyLiterals(SplitTokens(GoParse(pattern).tokens)[1..])
    && SlashFree(ValueMap(Holes(GoParse(pattern).tokens), values))
  }

  /** net/url does not get in the way of the message. */
  predicate Undisturbed(pattern: string, msg: Message)
    requires Supported(pattern) && OctetMessage(msg)
  {
    SharedValues(pattern, msg);
    LiteralsDecode(SplitTokens(GoParse(pattern).tokens)[1..])
    && (KeptAsBuilt(pattern) || Steady(pattern, AllValues(FieldsOf(pattern), msg)))
  }

  /** A pattern without escapes, all of whose bytes but the braces may stand in a raw path, leaves only
      two ways to come through: nothing is missed, or no value but a rest-of-path one has slashes. */
  lemma {:induction false} PlainIsUndisturbedExactly(pattern: string, msg: Message)
    requires Supported(pattern) && OctetMessage(msg) && Only(pattern, PlainBytes())
    ensures PathBytes(pattern) && |Holes(GoParse(pattern).tokens)| == |AllValues(FieldsOf(pattern), msg)|
    ensures var p := GoParse(pattern);
      Undisturbed(pattern, msg)
      <==> Missed(pattern) == {} || SlashFree(ValueMap(Holes(p.tokens), AllValues(FieldsOf(pattern), msg)))
  {
    SharedValues(pattern, msg);
    PlaceholdersCounted(pattern);
    PlainPattern(pattern);
  }

  lemma {:induction false} PlainPattern(pattern: string)
    requires Supported(pattern) && Only(pattern, PlainBytes())
    ensures PathBytes(pattern)
    ensures var p, cs := GoParse(pattern), SplitTokens(GoParse(pattern).tokens)[1..];
      LiteralsDecode(cs) && SteadyLiterals(cs) && RawLiterals(p.tokens + Chars(p.verb))
  {
    var p := GoParse(pattern);
    PlainBytesHaveNumbers();
    ParsedOnly(pattern, "", PlainBytes());
    CharsOnly(p.verb, PlainBytes());
    TokensOnlySum(p.tokens, Chars(p.verb), PlainBytes());
    VerbAddsNoHoles(p.tokens, p.verb);
    forall t | t in p.tokens + Chars(p.verb) && t.Ch?
      ensures t.c in RawBytes() && t.c != '%'
    {
      assert TokenOnly(t, PlainBytes()) && PlainToken(t);
    }
    assert forall t | t in p.tokens :: t in p.tokens + Chars(p.verb);
    PlainLiterals(p.tokens);
  }

  lemma {:induction false} SteadyIsApart(pattern: string, msg: Message)
    requires Supported(pattern) && PathBytes(pattern) && OctetMessage(msg)
    ensures var p, cs := GoParse(pattern), SplitTokens(GoParse(pattern).tokens)[1..];
      && Covers(SentValues(pattern, msg), cs)
      && (Steady(pattern, ArrivingAt(pattern, GoRaws(p.vars, msg)))
          <==> Apart(cs, Says(cs, SentValues(pattern, msg), p.verb)))
  {
    var p, cs, sent := GoParse(pattern), SplitTokens(GoParse(pattern).tokens)[1..], SentValues(pattern, msg);
    GoSends(pattern, msg);
    PlaceholdersCounted(pattern);
    RoutableHoles(p.tokens);
    ApartExactly(cs, sent, p.verb);
    assert forall h :: h in sent <==> h in SegHoles(cs);
  }

  /** With steady values, the route answers the path encoded anew as it answers the one built. */
  lemma {:induction false} SteadyIsAlike(pattern: string, st: seq<Token>, msg: Message)
    requires Supported(pattern) && PathBytes(pattern) && OctetMessage(msg) && SameRoute(GoParse(pattern).tokens, st)
    requires LiteralsDecode(SplitTokens(GoParse(pattern).tokens)[1..])
    requires Steady(pattern, ArrivingAt(pattern, GoRaws(GoParse(pattern).vars, msg)))
    ensures var path := GoPath(pattern, msg);
      && PathBytes(path) && Unescape(path).Text?
      && Serve(Show(st), Reencoded(path)) == Serve(Show(st), path)
      && AnswerTo(pattern, st, Reencoded(path)) == AnswerTo(pattern, st, path)
  {
    var p := GoParse(pattern);
    GoSends(pattern, msg);
    GoPathIsFilled(pattern, msg);
    SteadyIsApart(pattern, msg);
    AlikeWhenApart(p.tokens, st, FoundValues(pattern, msg), SentValues(pattern, msg), p.verb);
  }

  /** So a request that is kept, or carries steady values, is answered like the path that was built. */
  lemma {:induction false} SentIsAlike(pattern: string, st: seq<Token>, msg: Message)
    requires Supported(pattern) && PathBytes(pattern) && OctetMessage(msg) && SameRoute(GoParse(pattern).tokens, st)
    requires LiteralsDecode(SplitTokens(GoParse(pattern).tokens)[1..])
    requires KeptAsBuilt(pattern) || Steady(pattern, ArrivingAt(pattern, GoRaws(GoParse(pattern).vars, msg)))
    ensures GoRequest(pattern, msg).Sent?
    ensures Serve(Show(st), GoRequest(pattern, msg).path) == Serve(Show(st), GoPath(pattern, msg))
    ensures AnswerToSent(pattern, st, GoRequest(pattern, msg)) == AnswerTo(pattern, st, GoPath(pattern, msg))
  {
    SentAsBuiltExactly(pattern, msg);
    if !KeptAsBuilt(pattern) { SteadyIsAlike(pattern, st, msg); }
  }

  /** In particular, of a pattern whose bytes net/url leaves alone. */
  lemma {:induction false} PlainIsAlike(pattern: string, st: seq<Token>, msg: Message)
    requires Supported(pattern) && OctetMessage(msg) && SameRoute(GoParse(pattern).tokens, st)
    requires Only(pattern, PlainBytes()) && (Missed(pattern) == {} || SlashFree(SentValues(pattern, msg)))
    ensures PathBytes(pattern)
    ensures AnswerToSent(pattern, st, GoRequest(pattern, msg)) == AnswerTo(pattern, st, GoPath(pattern, msg))
  {
    PlainPattern(pattern);
    SentIsAlike(pattern, st, msg);
  }

  /** Conversely, an answer with the fields that were sent means that the values were steady. */
  lemma {:induction false} AnsweredIsSteady(pattern: string, st: seq<Token>, msg: Message)
    requires Supported(pattern) && PathBytes(pattern) && OctetMessage(msg) && SameRoute(GoParse(pattern).tokens, st)
    requires LiteralsDecode(SplitTokens(GoParse(pattern).tokens)[1..])
    requires PathBytes(GoPath(pattern, msg)) && Unescape(GoPath(pattern, msg)).Text?
    requires AnswerTo(pattern, st, Reencoded(GoPath(pattern, msg))) == Texts(Originals(FieldsOf(pattern), msg))
    ensures Steady(pattern, ArrivingAt(pattern, GoRaws(GoParse(pattern).vars, msg)))
  {
    var p, cs := GoParse(pattern), SplitTokens(GoParse(pattern).tokens)[1..];
    GoSends(pattern, msg);
    GoPathIsFilled(pattern, msg);
    SteadyIsApart(pattern, msg);
    var wire := Reencoded(GoPath(pattern, msg));
    AnsweredTexts(pattern, st, wire, Originals(FieldsOf(pattern), msg));
    if EndsInRest(cs) {
      RestComesBack(pattern, HoleNames(Holes(st)), Register(Show(st)), msg, Serve(Show(st), wire).values);
    }
    ApartWhenServed(p.tokens, st, FoundValues(pattern, msg), SentValues(pattern, msg), p.verb);
  }

  lemma {:induction false} RestComesBack(pattern: string, names: seq<string>, registered: seq<Segment>, msg: Message,
                                         captured: seq<string>)
    requires Supported(pattern) && EndsInRest(SplitTokens(GoParse(pattern).tokens)[1..])
    requires ReadFrom(FieldsOf(pattern), names, registered, captured, Originals(FieldsOf(pattern), msg))
    ensures Covers(SentValues(pattern, msg), SplitTokens(GoParse(pattern).tokens)[1..])
    ensures var p, cs := GoParse(pattern), SplitTokens(GoParse(pattern).tokens)[1..];
      SameRestParts(cs, Says(cs, SentValues(pattern, msg), p.verb), captured)
  {
    var p := GoParse(pattern);
    RestIsLast(pattern);
    var value := GoRaws(p.vars, msg)[|p.vars| - 1];
    RestIsSaid(pattern, msg, value);
    var last := LastRaw(pattern, msg, value);
    LastComesBack(pattern, names, registered, msg, captured, last, value);
    RestIsSame(SplitTokens(p.tokens)[1..], SentValues(pattern, msg), p.verb, value, captured);
  }

  lemma RestIsSame(segs: seq<seq<Token>>, sent: map<Hole, string>, verb: string, value: string, captured: seq<string>)
    requires segs != [] && Covers(sent, segs) && SaysAtEnd(segs, sent, verb, value) && '/' !in verb
    requires captured != [] && TrimSuffix(captured[|captured| - 1], verb) == value
    ensures SameRestParts(segs, Says(segs, sent, verb), captured)
  {
    VerbKeepsParts(captured[|captured| - 1], value, verb);
  }

  lemma VerbKeepsParts(captured: string, value: string, verb: string)
    requires TrimSuffix(captured, verb) == value && '/' !in verb
    ensures |Split(captured, '/')| == |Split(value + verb, '/')|
  {
    TailKeepsParts(value, '/', verb);
    assert captured == value || captured == value + verb;
  }

  lemma {:induction false} RestIsSaid(pattern: string, msg: Message, value: string)
    requires Supported(pattern) && EndsInRest(SplitTokens(GoParse(pattern).tokens)[1..]) && GoParse(pattern).vars != []
    requires value == GoRaws(GoParse(pattern).vars, msg)[|GoParse(pattern).vars| - 1]
    ensures Covers(SentValues(pattern, msg), SplitTokens(GoParse(pattern).tokens)[1..])
    ensures SaysAtEnd(SplitTokens(GoParse(pattern).tokens)[1..], SentValues(pattern, msg), GoParse(pattern).verb, value)
  {
    var p, cs := GoParse(pattern), SplitTokens(GoParse(pattern).tokens)[1..];
    var raws := GoRaws(p.vars, msg);
    RestIsLast(pattern);
    RestArrives(pattern, raws);
    SaidLast(cs, Holes(p.tokens), ArrivingAt(pattern, raws), p.verb, value);
  }

  predicate SaysAtEnd(segs: seq<seq<Token>>, sent: map<Hole, string>, verb: string, value: string)
    requires segs != [] && Covers(sent, segs)
  {
    Says(segs, sent, verb)[|segs| - 1] == value + verb
  }

  lemma {:induction false} RestIsLast(pattern: string)
    requires Supported(pattern) && EndsInRest(SplitTokens(GoParse(pattern).tokens)[1..])
    ensures var p, holes := GoParse(pattern), Holes(GoParse(pattern).tokens);
      && holes == SegHoles(SplitTokens(p.tokens)[1..]) && |holes| == |p.vars| > 0
      && holes[|holes| - 1].rest && p.vars[|p.vars| - 1].multi.None?
  {
    PlaceholdersCounted(pattern);
    RoutableHoles(GoParse(pattern).tokens);
    LastHoleRests(SplitTokens(GoParse(pattern).tokens)[1..]);
    ParsedRestIsWild(pattern, "");
  }

  lemma {:induction false} LastHoleRests(segs: seq<seq<Token>>)
    requires EndsInRest(segs)
    ensures SegHoles(segs) != [] && SegHoles(segs)[|SegHoles(segs)| - 1].rest
  {
    if |segs| > 1 {
      assert segs[1..][|segs| - 2] == segs[|segs| - 1];
      LastHoleRests(segs[1..]);
      LastHoleOfMore(segs);
    } else {
      assert segs[1..] == [] && SegHoles(segs[1..]) == [];
    }
  }

  lemma {:induction false} SaidLast(cs: seq<seq<Token>>, holes: seq<Hole>, values: seq<string>, verb: string,
                                    value: string)
    requires |holes| == |values| && holes == SegHoles(cs) && Distinct(HoleNames(holes)) && EndsInRest(cs)
    requires values != [] && values[|values| - 1] == value
    ensures Covers(ValueMap(holes, values), cs) && SaysAtEnd(cs, ValueMap(holes, values), verb, value)
  {
    var sent := ValueMap(holes, values);
    assert Covers(sent, cs);
    SaysLast(cs, sent, verb);
    DistinctNamesDistinctHoles(holes);
    ValueAt(holes, values, |holes| - 1);
  }

  /** A value that takes the rest of the path is never missed. */
  lemma {:induction false} RestArrives(pattern: string, raws: seq<string>)
    requires Supported(pattern) && |raws| == |GoParse(pattern).vars| > 0
    requires |Holes(GoParse(pattern).tokens)| == |raws| && Holes(GoParse(pattern).tokens)[|raws| - 1].rest
    ensures ArrivingAt(pattern, raws)[|raws| - 1] == raws[|raws| - 1]
  {
    var holes, found, n := Holes(GoParse(pattern).tokens), FoundHoles(pattern), |raws| - 1;
    PlaceholdersCounted(pattern);
    FoundHolesAreNamed(pattern);
    MissedAt(holes, found, n);
    assert HoleNames(found)[n] == HoleNames(holes)[n] == VarNames(GoParse(pattern).vars)[n];
    assert found[n] == holes[n];
  }

  /** The values of a message that survives are the ones that arrive. */
  lemma {:induction false} DeliveredValues(pattern: string, msg: Message)
    requires Supported(pattern) && OctetMessage(msg) && WellFormed(FieldsOf(pattern)) && Deliverable(pattern, msg)
    requires AllReach(Go, FieldsOf(pattern), msg, Missed(pattern))
    ensures ArrivingAt(pattern, GoRaws(GoParse(pattern).vars, msg)) == AllValues(FieldsOf(pattern), msg)
  {
    var vars, fields := GoParse(pattern).vars, FieldsOf(pattern);
    SharedValues(pattern, msg);
    SupportedIsSegmented(pattern);
    ParseIsAligned(pattern, "");
    FieldsOfPattern(pattern, msg);
    RawsByField(Go, vars, fields, msg);
    SameRawsWhenReached(Go, fields, msg, Missed(pattern));
  }

  /** What a message that survives sends is served like the path that was built. */
  lemma {:induction false} DeliveredIsAlike(pattern: string, st: seq<Token>, msg: Message)
    requires Supported(pattern) && PathBytes(pattern) && OctetMessage(msg) && SameRoute(GoParse(pattern).tokens, st)
    requires WellFormed(FieldsOf(pattern)) && Deliverable(pattern, msg) && Undisturbed(pattern, msg)
    requires AllReach(Go, FieldsOf(pattern), msg, Missed(pattern))
    ensures GoRequest(pattern, msg).Sent?
    ensures Serve(Show(st), GoRequest(pattern, msg).path) == Serve(Show(st), GoPath(pattern, msg))
  {
    DeliveredValues(pattern, msg);
    SentIsAlike(pattern, st, msg);
  }

  /** The Go client gets its fields back exactly when they are deliverable, every missed placeholder
      is the value it stands for, no field has more than two wildcards that are found, and net/url
      does not get in the way: a path with a placeholder left in it, or with bytes that net/url does
      not take for raw, is encoded anew, and then the slashes of its values are no longer escaped. */
  lemma {:induction false} GoRoundTrip(pattern: string, st: seq<Token>, msg: Message)
    requires Supported(pattern) && PathBytes(pattern) && OctetMessage(msg) && SameRoute(GoParse(pattern).tokens, st)
    ensures WellFormed(FieldsOf(pattern))
    ensures AnswerToSent(pattern, st, GoRequest(pattern, msg)) == Texts(Originals(FieldsOf(pattern), msg))
      <==> Deliverable(pattern, msg) && AllReach(Go, FieldsOf(pattern), msg, Missed(pattern))
           && Undisturbed(pattern, msg)
  {
    GoPathRoundTrip(pattern, st, msg);
    SentAsBuiltExactly(pattern, msg);
    SharedValues(pattern, msg);
    var literals := LiteralsDecode(SplitTokens(GoParse(pattern).tokens)[1..]);
    if Deliverable(pattern, msg) && AllReach(Go, FieldsOf(pattern), msg, Missed(pattern)) {
      DeliveredValues(pattern, msg);
    }
    if literals && !KeptAsBuilt(pattern) {
      GoPathBytes(pattern, msg);
      if Steady(pattern, ArrivingAt(pattern, GoRaws(GoParse(pattern).vars, msg))) {
        SentIsAlike(pattern, st, msg);
      } else if AnswerTo(pattern, st, Reencoded(GoPath(pattern, msg))) == Texts(Originals(FieldsOf(pattern), msg)) {
        AnsweredIsSteady(pattern, st, msg);
      }
    }
  }
}
