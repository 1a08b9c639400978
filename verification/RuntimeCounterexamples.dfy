/** Inputs at which the dispatcher, the route table, the streaming transport, the event client and
    the query do not do what is promised elsewhere under a condition. */
module RuntimeCounterexamples {
  import opened Text
  import opened Template
  import opened Dispatch
  import Grouping
  import Normalize
  import Decimal
  import opened Escape
  import opened ServeMux
  import ServiceMux
  import QueryParams
  import NetUrl
  import SseTransport
  import opened EventLines
  import opened EventBatches
  import opened EventStream
  import opened EventClients

  // ---- the dispatcher ----

  /** A base value that ends in a verb of the group goes to that verb's route. */
  lemma BaseValueTaken()
    ensures Choose([":g"], true, "x:g") == Verb(0)
  {
    assert HasSuffix("x:g", ":g") by { assert "x:g"[1..] == ":g"; }
  }

  const LIST_VERBS := [":list", ":a:list"]

  /** "x:a" with verb ":a:list" arrives at the route of ":list", if that was declared first. */
  lemma VerbShadowed(hasBase: bool)
    ensures Choose(LIST_VERBS, hasBase, "x" + ":a:list") == Verb(0) && !AlwaysReached(LIST_VERBS, hasBase)
  {
    var value := "x" + LIST_VERBS[1];
    assert HasSuffix(value, LIST_VERBS[0]) by { assert value[3..] == ":list"; }
    assert Choose(LIST_VERBS, hasBase, "x" + LIST_VERBS[1]) != Verb(1);
  }

  // ---- the route table ----

  lemma SameBlankPath(text: string, g: Hole, h: Hole)
    requires '{' !in text && PlainName(g.name) && PlainName(h.name) && g.rest == h.rest
    ensures Normalize.NormalizePath(text + Placeholder(g)) == Normalize.NormalizePath(text + Placeholder(h))
  {
    BlankPath(text, g);
    BlankPath(text, h);
  }

  lemma {:induction false} BlankPath(text: string, h: Hole)
    requires '{' !in text && PlainName(h.name)
    ensures Normalize.NormalizePath(text + Placeholder(h)) == text + Placeholder(Hole("_", h.rest))
  {
    if text == "" {
      Normalize.NormalizeHole(h, "");
      assert Placeholder(h) + "" == Placeholder(h) && "" + Placeholder(h) == Placeholder(h);
      assert Placeholder(Hole("_", h.rest)) + "" == "" + Placeholder(Hole("_", h.rest));
    } else {
      assert text[0] in text && forall c | c in text[1..] :: c in text;
      BlankPath(text[1..], h);
      BlankStart(text, Placeholder(h), Placeholder(Hole("_", h.rest)));
    }
  }

  lemma BlankStart(text: string, more: string, blank: string)
    requires text != "" && text[0] != '{' && Normalize.NormalizePath(text[1..] + more) == text[1..] + blank
    ensures Normalize.NormalizePath(text + more) == text + blank
  {
    ConsConcat(text, more);
    PlainStart(text[0], text[1..] + more);
    ConsConcat(text, blank);
  }

  lemma PlainStart(c: char, s: string)
    requires c != '{'
    ensures Normalize.NormalizePath([c] + s) == [c] + Normalize.NormalizePath(s)
  {
    assert ([c] + s)[0] == c && ([c] + s)[1..] == s;
  }

  /** Of two routes without a verb under one key, the first is in no group. */
  lemma {:induction false} FirstBaseDropped(a: Grouping.RouteInfo, b: Grouping.RouteInfo)
    requires a != b && a.customVerb == "" && b.customVerb == "" && Grouping.Key(a) == Grouping.Key(b)
    ensures !Grouping.GroupOfRoute([a, b], a).Holds(a) && Grouping.GroupOfRoute([a, b], a).baseRoute == b
    ensures !Grouping.OneBasePerKey([a, b])
  {
    var key := Grouping.Key(a);
    TwoMembers(a, b, key);
    assert [a, b][0] == a && [a, b][1] == b;
  }

  lemma TwoMembers(a: Grouping.RouteInfo, b: Grouping.RouteInfo, key: string)
    requires a.customVerb == "" && b.customVerb == "" && Grouping.Key(a) == key && Grouping.Key(b) == key
    ensures Grouping.Members([a, b], key) == [a, b]
    ensures Grouping.GroupOf([a, b]).baseRoute == b && Grouping.GroupOf([a, b]).verbRoutes == []
  {
    assert [a, b][..1] == [a] && [a][..0] == [];
    assert Grouping.Members([a], key) == [] + [a];
    assert Grouping.GroupOf([a]).baseRoute == a;
  }

  /** The paths of "/v1/{name=a/star}" and "/v1/{id=a/star}". */
  lemma TwoBaseRoutes(a: Grouping.RouteInfo, b: Grouping.RouteInfo)
    requires a != b && a.httpMethod == b.httpMethod && a.customVerb == "" && b.customVerb == ""
    requires a.serveMuxPath == "/v1/a/{name}" && b.serveMuxPath == "/v1/a/{id}"
    ensures !Grouping.GroupOfRoute([a, b], a).Holds(a) && Grouping.GroupOfRoute([a, b], a).baseRoute == b
  {
    var g, h := Hole("name", false), Hole("id", false);
    assert "/v1/a/" + Placeholder(g) == a.serveMuxPath && "/v1/a/" + Placeholder(h) == b.serveMuxPath;
    SameBlankPath("/v1/a/", g, h);
    FirstBaseDropped(a, b);
  }

  // ---- the mux ----

  /** A literal at the end is narrower than a placeholder there. */
  lemma {:induction false} LiteralNarrower(pre: seq<Segment>, text: string, name: string, request: seq<string>)
    requires (forall s | s in pre :: s.Literal?) && DecodeSegment(text) != "" && DecodeSegment(text) != "/"
    requires Match(pre + [Literal(text)], request).Captured?
    ensures Match(pre + [Single(name)], request).Captured?
  {
    if pre == [] {
      assert pre + [Literal(text)] == [Literal(text)] && pre + [Single(name)] == [Single(name)];
      assert [Literal(text)][1..] == [] && [Single(name)][1..] == [];
      assert request[0] != "" by { assert DecodeSegment("") == ""; }
    } else {
      assert pre[0] in pre && forall s | s in pre[1..] :: s in pre;
      ConsConcat(pre, [Literal(text)]);
      ConsConcat(pre, [Single(name)]);
      TailsOf(pre[0], pre[1..] + [Literal(text)]);
      TailsOf(pre[0], pre[1..] + [Single(name)]);
      LiteralNarrower(pre[1..], text, name, request[1..]);
    }
  }

  lemma TailsOf<T>(x: T, rest: seq<T>)
    ensures ([x] + rest)[0] == x && ([x] + rest)[1..] == rest
  {
  }

  lemma TwoSegments(x: string, y: string)
    requires '/' !in x && '/' !in y
    ensures Split("/" + (x + ("/" + y)), '/') == ["", x, y]
  {
    SplitWhole(x, '/');
    SplitWhole(y, '/');
    SplitSum(x, '/', y);
    SplitSum("", '/', x + ("/" + y));
    assert x + ['/'] + y == x + ("/" + y) && "" + ['/'] + (x + ("/" + y)) == "/" + (x + ("/" + y));
    assert [x] + [y] == [x, y] && [""] + [x, y] == ["", x, y];
  }

  lemma RegisteredTwo(x: string, y: string)
    requires '/' !in x && '/' !in y && ParseSegment(x) == Literal(x)
    ensures Register("/" + (x + ("/" + y))) == [Literal(""), Literal(x)] + [ParseSegment(y)]
  {
    TwoSegments(x, y);
    assert ["", x, y][1..] == [x, y] && [x, y][1..] == [y] && [y][1..] == [];
    assert ParseSegments([y]) == [ParseSegment(y)] + [];
    assert ParseSegments([x, y]) == [ParseSegment(x)] + ParseSegments([y]);
    assert ParseSegments(["", x, y]) == [ParseSegment("")] + ParseSegments([x, y]);
  }

  /** A literal path takes its own request from a path with a placeholder there. */
  lemma {:induction false} LiteralTakesOver(g: Grouping.Group, h: Grouping.Group, x: string, y: string, name: string)
    requires g.httpMethod == h.httpMethod && ParseSegment(x) == Literal(x) && ParseSegment(y) == Literal(y)
    requires '/' !in x && '/' !in y && CleanSegments([x, y]) && y != "" && '%' !in y && y != "/"
    requires '/' !in Placeholder(Hole(name, false)) && ParseSegment(Placeholder(Hole(name, false))) == Single(name)
    requires g.serveMuxPath == "/" + (x + ("/" + Placeholder(Hole(name, false))))
      && h.serveMuxPath == "/" + (x + ("/" + y))
    ensures ServiceMux.Narrower(h, g) && ServiceMux.Picked([g, h], g.httpMethod, h.serveMuxPath, 1)
    ensures !ServiceMux.NotTakenBefore([g, h], g.httpMethod, h.serveMuxPath, 0)
  {
    var path := h.serveMuxPath;
    RegisteredTwo(x, y);
    RegisteredTwo(x, Placeholder(Hole(name, false)));
    PlainTextDecodes(y);
    forall p | Serve(h.serveMuxPath, p).Captured?
      ensures Serve(g.serveMuxPath, p).Captured?
    {
      LiteralNarrower([Literal(""), Literal(x)], y, name, Split(p, '/'));
    }
    TwoSegments(x, y);
    OwnPathMatches(x, y);
    assert [g, h][0] == g && [g, h][1] == h;
    assert ServiceMux.Takes(h, g.httpMethod, path);
  }

  lemma OwnPathMatches(x: string, y: string)
    requires '/' !in x && '/' !in y && CleanSegments([x, y])
    ensures IsCleanPath("/" + (x + ("/" + y)))
    ensures Match([Literal(""), Literal(x)] + [Literal(y)], ["", x, y]).Captured?
  {
    TwoSegments(x, y);
    assert ["", x, y][1..] == [x, y] && [x, y][1..] == [y] && [y][1..] == [];
    var pattern := [Literal(""), Literal(x), Literal(y)];
    assert [Literal(""), Literal(x)] + [Literal(y)] == pattern;
    assert pattern[1..] == [Literal(x), Literal(y)] && pattern[1..][1..] == [Literal(y)] && [Literal(y)][1..] == [];
    assert Match([Literal(y)], [y]).Captured?;
    assert Match([Literal(x), Literal(y)], [x, y]).Captured?;
  }

  lemma SpecialTaken(g: Grouping.Group, h: Grouping.Group)
    requires g.httpMethod == h.httpMethod && g.serveMuxPath == "/a/{name}" && h.serveMuxPath == "/a/special"
    ensures ServiceMux.Narrower(h, g) && ServiceMux.Picked([g, h], g.httpMethod, "/a/special", 1)
    ensures !ServiceMux.NotTakenBefore([g, h], g.httpMethod, "/a/special", 0)
  {
    NameIsSingle();
    SpecialTexts();
    LiteralTakesOver(g, h, A, SPECIAL, NAME);
  }

  const A := "a"
  const SPECIAL := "special"
  const NAME := "name"

  lemma NameIsSingle()
    ensures Placeholder(Hole(NAME, false)) == "{name}" && ParseSegment("{name}") == Single(NAME)
  {
    assert "{name}"[1..5] == NAME;
    assert !HasSuffix(NAME, "...") by { assert NAME[1..] == "ame"; }
  }

  lemma SpecialTexts()
    ensures ParseSegment(A) == Literal(A) && ParseSegment(SPECIAL) == Literal(SPECIAL)
    ensures '/' !in A && '/' !in SPECIAL && '%' !in SPECIAL && '/' !in "{name}" && CleanSegments([A, SPECIAL])
    ensures "/" + (A + ("/" + "{name}")) == "/a/{name}" && "/" + (A + ("/" + SPECIAL)) == "/a/special"
  {
    assert "/" + "{name}" == "/{name}" && "/" + SPECIAL == "/special";
  }

  // ---- the streaming transport ----

  /** The value of the first placeholder contains the second one, which is replaced there. */
  lemma SecondInFirst(path: string, g: Hole, h: Hole, value: string)
    requires PlainName(g.name) && PlainName(h.name) && g != h && path == "/" + (Placeholder(g) + ("/" + Placeholder(h)))
    ensures ReplaceFirst(path, Placeholder(g), Placeholder(h)) == "/" + (Placeholder(h) + ("/" + Placeholder(h)))
    ensures ReplaceFirst("/" + (Placeholder(h) + ("/" + Placeholder(h))), Placeholder(h), value)
      == "/" + (value + ("/" + Placeholder(h)))
  {
    HitAfterSlash(Placeholder(g), "/" + Placeholder(h), Placeholder(h));
    HitAfterSlash(Placeholder(h), "/" + Placeholder(h), value);
  }

  lemma HitAfterSlash(p: string, rest: string, value: string)
    requires "{" <= p
    ensures ReplaceFirst("/" + (p + rest), p, value) == "/" + (value + rest)
  {
    var s := "/" + (p + rest);
    assert s[0] == '/' && s[1..] == p + rest && !(p <= s);
    ReplaceHits(rest, p, value);
  }

  const TWO_PLACEHOLDERS := "/{a}/{b}"
  const MISLEADING := [SseTransport.Pair(Hole("a", false), "{b}"), SseTransport.Pair(Hole("b", false), "x")]

  lemma MisledUrl()
    ensures SseTransport.GoodPairs(MISLEADING) && SseTransport.FillPairs(TWO_PLACEHOLDERS, MISLEADING) == "/x/{b}"
  {
    var g, h := Hole("a", false), Hole("b", false);
    MisledTexts();
    SecondInFirst(TWO_PLACEHOLDERS, g, h, "x");
    FillTwo(TWO_PLACEHOLDERS, MISLEADING[0], MISLEADING[1]);
  }

  lemma MisledTexts()
    ensures Placeholder(Hole("a", false)) == "{a}" && Placeholder(Hole("b", false)) == "{b}"
    ensures TWO_PLACEHOLDERS == "/" + ("{a}" + ("/" + "{b}")) && "/" + ("x" + ("/" + "{b}")) == "/x/{b}"
  {
  }

  lemma FillTwo(path: string, y: SseTransport.Pair, z: SseTransport.Pair)
    ensures SseTransport.FillPairs(path, [y, z])
      == ReplaceFirst(ReplaceFirst(path, Placeholder(y.hole), y.value), Placeholder(z.hole), z.value)
  {
    assert [y, z][1..] == [z] && [z][1..] == [];
    var once := ReplaceFirst(path, Placeholder(y.hole), y.value);
    assert SseTransport.FillPairs(ReplaceFirst(once, Placeholder(z.hole), z.value), [])
      == ReplaceFirst(once, Placeholder(z.hole), z.value);
    assert SseTransport.FillPairs(once, [z]) == ReplaceFirst(once, Placeholder(z.hole), z.value);
  }

  /** The text of a URL whose base holds an encoded slash. */
  const SLASH_IN_BASE := "/a%2Fb/{n}"

  lemma EncodedSlashDecodes(a: string, b: string)
    requires '%' !in a && '%' !in b
    ensures Unescape(a + (NetUrl.Hex('/') + b)) == Unescaped.Text(a + (['/'] + b))
  {
    PlainTextDecodes(a);
    PlainTextDecodes(b);
    NetUrl.HexDecodes('/', b);
    NetUrl.UnescapeSum(a, NetUrl.Hex('/') + b);
  }

  lemma SlashInBaseText()
    ensures "/a" + (NetUrl.Hex('/') + "b/{n}") == SLASH_IN_BASE
  {
    assert NetUrl.Hex('/') == "%2F" && "%2F" + "b/{n}" == "%2Fb/{n}";
  }

  lemma SlashInBaseIsPath()
    ensures NetUrl.PathBytes(SLASH_IN_BASE)
  {
  }

  lemma SlashText()
    ensures "/a" + (['/'] + "b/{n}") == "/a/b/{n}"
  {
    assert ['/'] + "b/{n}" == "/b/{n}";
  }

  lemma SlashInBaseDecodes()
    ensures Unescape(SLASH_IN_BASE) == Unescaped.Text("/a/b/{n}")
  {
    EncodedSlashDecodes("/a", "b/{n}");
    SlashInBaseText();
    SlashText();
  }

  lemma HoleEscapes(codec: Codec)
    requires codec == GoCodec() || codec == NetUrl.PathCodec()
    ensures Octets("{n}") && EscapeText(codec, "{n}") == "%7Bn%7D"
  {
    assert 'n' in Alphanumerics();
    assert "{n}"[1..] == "n}" && "n}"[1..] == "}" && "}"[1..] == "";
    assert EscapeByte(codec, '{') == "%7B" && EscapeByte(codec, '}') == "%7D";
    assert EscapeText(codec, "}") == "%7D" && EscapeText(codec, "n}") == "n%7D";
  }

  const BASE := "/a/b/"
  const HOLE := "{n}"
  const ESCAPED_HOLE := "%7Bn%7D"

  lemma BaseIsSafe()
    ensures Octets(BASE) && EscapeText(NetUrl.PathCodec(), BASE) == BASE
  {
    assert 'a' in Alphanumerics() && 'b' in Alphanumerics();
    NetUrl.SafeEscapes(BASE);
  }

  lemma BaseTexts()
    ensures BASE + HOLE == "/a/b/{n}" && BASE + ESCAPED_HOLE == "/a/b/%7Bn%7D" && BASE + "v" == "/a/b/v"
  {
  }

  lemma DecodedIsEscaped()
    ensures Octets("/a/b/{n}") && EscapeText(NetUrl.PathCodec(), "/a/b/{n}") == "/a/b/%7Bn%7D"
  {
    BaseIsSafe();
    HoleEscapes(NetUrl.PathCodec());
    EscapeConcat(NetUrl.PathCodec(), BASE, HOLE);
    BaseTexts();
  }

  /** The slash that was encoded in the base URL goes out as a slash. */
  lemma EncodedSlashIsLost()
    ensures NetUrl.PathBytes(SLASH_IN_BASE) && Unescape(SLASH_IN_BASE).Text?
    ensures var url, n := NetUrl.ParsePath(SLASH_IN_BASE), SseTransport.Pair(Hole("n", false), "v");
      && url == NetUrl.Url("/a/b/{n}", SLASH_IN_BASE) && NetUrl.EscapedPath(url) == "/a/b/%7Bn%7D"
      && SseTransport.GoodPairs([n]) && SseTransport.FillRaw("/a/b/%7Bn%7D", [n]) == "/a/b/v"
  {
    SlashInBaseIsPath();
    SlashInBaseDecodes();
    DecodedIsEscaped();
    var url := NetUrl.ParsePath(SLASH_IN_BASE);
    assert '{' in SLASH_IN_BASE && "/a/b/%7Bn%7D"[0] == SLASH_IN_BASE[0];
    assert "/a/b/%7Bn%7D"[2] != SLASH_IN_BASE[2];
    NetUrl.PlaceholderHidesRawPath(url);
    OneValueFilled();
  }

  lemma {:induction false} FilledAfter(base: string, hole: string, value: string)
    requires hole != "" && hole[0] !in base
    ensures ReplaceFirst(base + hole, hole, value) == base + value
  {
    ReplacePassesText(base, hole, hole, value);
    ReplaceHits("", hole, value);
    assert hole + "" == hole && value + "" == value;
  }

  lemma OnePairIsGood()
    ensures Placeholder(Hole("n", false)) == HOLE && SseTransport.GoodPairs([SseTransport.Pair(Hole("n", false), "v")])
  {
    assert SseTransport.SafeName("n");
  }

  lemma OneValueFilled()
    ensures var n := SseTransport.Pair(Hole("n", false), "v");
      SseTransport.GoodPairs([n]) && SseTransport.FillRaw("/a/b/%7Bn%7D", [n]) == "/a/b/v"
  {
    OnePairIsGood();
    HoleEscapes(GoCodec());
    VEscapes();
    FilledAfter(BASE, ESCAPED_HOLE, "v");
    BaseTexts();
    SseTransport.OneFill("/a/b/%7Bn%7D", SseTransport.Pair(Hole("n", false), "v"));
  }

  lemma VEscapes()
    ensures Octets("v") && EscapeVar(GoCodec(), "v", false) == "v"
  {
    assert 'v' in Alphanumerics() && "v"[1..] == "";
    assert EscapeText(GoCodec(), "v") == "v" + "";
  }

  // ---- the event client ----

  function OneEvent(payload: string): string { Terminated(["data: " + payload, ""]) }

  lemma {:induction false} OneEventRead(payload: string)
    requires '\n' !in payload && '\r' !in payload
    ensures TsSteps(FRESH, ["data: " + payload, ""]) == Stepped(FRESH, [Event(false, payload)])
  {
    var line, s := "data: " + payload, Lines(0, [payload]);
    ReadDataLine(TypeScript, FRESH, payload);
    assert [] + [payload] == [payload];
    BlankLine(TypeScript, s);
    assert Join([payload], "\n") == payload;
    RunOne(StepOf(TypeScript), s, "");
    RunCons(StepOf(TypeScript), FRESH, line, [""]);
    assert [line] + [""] == [line, ""] && [] + [Event(false, payload)] == [Event(false, payload)];
  }

  lemma {:induction false} OneEventText(payload: string)
    requires '\n' !in payload
    ensures Completed(OneEvent(payload)) == ["data: " + payload, ""] && Remainder(OneEvent(payload)) == ""
  {
    var lines := ["data: " + payload, ""];
    TerminatedSplits(lines, "");
    assert OneEvent(payload) + "" == OneEvent(payload) && Split("", '\n') == [""];
  }

  lemma {:induction false} TwoEventsText(p: string, q: string)
    requires '\n' !in p && '\n' !in q
    ensures Completed(OneEvent(p) + OneEvent(q)) == ["data: " + p, ""] + ["data: " + q, ""]
  {
    OneEventText(p);
    OneEventText(q);
    CompletedMore(OneEvent(p), OneEvent(q));
    assert "" + OneEvent(q) == OneEvent(q);
  }

  /** A message followed by one that does not parse: both in one batch, or in two. */
  lemma {:induction false} LostOrNot<T, E>(item: T, last: seq<Effect<T, E>>)
    ensures RunBatches<T, E>([[Emit(item), Fail]] + [last]) == Outcome([], ParseError)
    ensures RunBatches<T, E>([[Emit(item)], [Fail]] + [last]) == Outcome([item], ParseError)
  {
    var e: Effect<T, E>, f: Effect<T, E> := Emit(item), Fail;
    assert [e, f][1].Fail? && [f][0].Fail?;
    var two := [[e], [f]] + [last];
    assert two[0] == [e] && two[1..] == [[f]] + [last];
    assert [e][1..] == [] && !HasFail([e]) && Items([e]) == [item];
    assert LastError<T, E>([]) == Done && LastError([e]) == Done;
    assert RunBatches([[f]] + [last]) == Outcome([], ParseError);
    assert [item] + [] == [item];
  }

  lemma {:induction false} ItemLostInOneChunk<T, E>(d: Decoder<T, E>, p: string, q: string, item: T)
    requires '\n' !in p && '\r' !in p && '\n' !in q && '\r' !in q
    requires d.parse(p) == Item(item) && d.parse(q) == ParseFails
    ensures Stream(d, [OneEvent(p) + OneEvent(q)]) == Outcome([], ParseError)
    ensures Stream(d, [OneEvent(p), OneEvent(q)]) == Outcome([item], ParseError)
  {
    var a, b := ["data: " + p, ""], ["data: " + q, ""];
    OneEventText(p);
    OneEventText(q);
    TwoEventsText(p, q);
    OneEventRead(p);
    OneEventRead(q);
    RunConcat(StepOf(TypeScript), FRESH, a, b);
    TwoEffects(d, p, q, item);
    OneChunk(d, OneEvent(p) + OneEvent(q), [Event(false, p), Event(false, q)]);
    TwoChunks(d, OneEvent(p), OneEvent(q), [Event(false, p)], [Event(false, q)]);
    StreamInBatches(d, [OneEvent(p) + OneEvent(q)]);
    StreamInBatches(d, [OneEvent(p), OneEvent(q)]);
    LostOrNot<T, E>(item, EndEffects(d, Flatten([OneEvent(p) + OneEvent(q)])));
    LostOrNot<T, E>(item, EndEffects(d, Flatten([OneEvent(p), OneEvent(q)])));
  }

  lemma TwoEffects<T, E>(d: Decoder<T, E>, p: string, q: string, item: T)
    requires d.parse(p) == Item(item) && d.parse(q) == ParseFails
    ensures Effects(d, [Event(false, p), Event(false, q)]) == [Emit(item), Fail]
    ensures Effects(d, [Event(false, p)]) == [Emit(item)] && Effects(d, [Event(false, q)]) == [Fail]
  {
  }

  lemma OneChunk<T, E>(d: Decoder<T, E>, text: string, events: seq<Event>)
    requires TsSteps(FRESH, Completed(text)).events == events
    ensures EffectBatches(d, FRESH, LineBatches("", [text])) == [Effects(d, events)]
  {
    assert "" + text == text && [text][1..] == [];
    assert LineBatches("", [text]) == [Completed(text)] + [];
    assert [Completed(text)][1..] == [];
    assert EffectBatches(d, FRESH, [Completed(text)]) == [Effects(d, events)] + [];
  }

  lemma TwoChunks<T, E>(d: Decoder<T, E>, a: string, b: string, x: seq<Event>, y: seq<Event>)
    requires Remainder(a) == "" && TsSteps(FRESH, Completed(a)) == Stepped(FRESH, x)
    requires TsSteps(FRESH, Completed(b)).events == y
    ensures EffectBatches(d, FRESH, LineBatches("", [a, b])) == [Effects(d, x), Effects(d, y)]
  {
    TwoLineBatches(a, b);
    var batches := [Completed(a), Completed(b)];
    assert batches[1..] == [Completed(b)] && [Completed(b)][1..] == [];
    assert EffectBatches(d, FRESH, [Completed(b)]) == [Effects(d, y)] + [];
    assert EffectBatches(d, FRESH, batches) == [Effects(d, x)] + EffectBatches(d, FRESH, [Completed(b)]);
  }

  lemma {:induction false} UnstableWhenCutsDiffer<T, E>(d: Decoder<T, E>, text: string, a: seq<string>, b: seq<string>)
    requires Flatten(a) == text && Flatten(b) == text && Stream(d, a) != Stream(d, b)
    ensures !Stable(MainEffects(d, text))
  {
    ChunkingDoesNotMatterExactly(d, text);
  }

  lemma FlattenOne<X>(a: seq<X>)
    ensures Flatten([a]) == a
  {
    assert [a][1..] == [] && a + [] == a;
  }

  lemma {:induction false} OneItemOrNoneAt<T, E>(d: Decoder<T, E>, item: T, p: string, q: string)
    requires '\n' !in p && '\r' !in p && '\n' !in q && '\r' !in q
    requires d.parse(p) == Item(item) && d.parse(q) == ParseFails
    ensures Stream(d, [OneEvent(p) + OneEvent(q)]) == Outcome([], ParseError)
    ensures Stream(d, [OneEvent(p), OneEvent(q)]) == Outcome([item], ParseError)
    ensures !Stable(MainEffects(d, OneEvent(p) + OneEvent(q)))
  {
    ItemLostInOneChunk(d, p, q, item);
    FlattenTwo(OneEvent(p), OneEvent(q));
    FlattenOne(OneEvent(p) + OneEvent(q));
    UnstableWhenCutsDiffer(d, OneEvent(p) + OneEvent(q), [OneEvent(p) + OneEvent(q)], [OneEvent(p), OneEvent(q)]);
  }

  const GOOD_THEN_BAD := "data: 1\n\ndata: !\n\n"

  /** One message, or none, by how the same text is cut. */
  lemma OneItemOrNone<T, E>(d: Decoder<T, E>, item: T)
    requires d.parse("1") == Item(item) && d.parse("!") == ParseFails
    ensures Stream(d, [GOOD_THEN_BAD]) == Outcome([], ParseError)
    ensures Stream(d, ["data: 1\n\n", "data: !\n\n"]) == Outcome([item], ParseError)
    ensures !Stable(MainEffects(d, GOOD_THEN_BAD))
  {
    EventTexts();
    OneItemOrNoneAt(d, item, "1", "!");
  }

  lemma EventTexts()
    ensures OneEvent("1") == "data: 1\n\n" && OneEvent("!") == "data: !\n\n"
    ensures OneEvent("1") + OneEvent("!") == GOOD_THEN_BAD
  {
    OneEventIs("1");
    OneEventIs("!");
    assert "data: " + "1" == "data: 1" && "data: " + "!" == "data: !";
  }

  lemma OneEventIs(p: string)
    ensures OneEvent(p) == "data: " + p + "\n\n"
  {
    var line := "data: " + p;
    assert [line, ""][1..] == [""] && [""][1..] == [];
    assert Terminated([""]) == "" + "\n" + "";
    assert Terminated([line, ""]) == line + "\n" + Terminated([""]);
  }

  const EMPTY_ERROR := "{\"error\":{}}"

  lemma EmptyErrorIsOneLine()
    ensures '\r' !in EMPTY_ERROR
  {
  }

  /** An empty error object: an error in TypeScript, where every object is true, and none in Python. */
  lemma EmptyErrorTrailer<T, E>(ts: Decoder<T, E>, py: Decoder<T, E>, error: E, chunks: seq<string>)
    requires ts.trailer(EMPTY_ERROR) == Fails(error) && py.trailer(EMPTY_ERROR) == Clear
    requires Flatten(chunks) == Terminated(FrameLines(Frame(2, EMPTY_ERROR)))
    ensures Stream(ts, chunks) == Outcome([], TrailerError(error))
    ensures PythonOutcome(py, FrameLines(Frame(2, EMPTY_ERROR))) == Outcome([], Done)
  {
    EmptyErrorIsOneLine();
    TrailersDisagree(ts, py, EMPTY_ERROR, error, chunks);
  }

  // ---- the query ----

  lemma EnumText()
    ensures QueryParams.PrintValue(QueryParams.N(1), QueryParams.EnumKind) == QueryParams.Printed("1")
    ensures QueryParams.ParseValue("1", QueryParams.EnumKind) == QueryParams.Invalid
  {
    assert Decimal.Print(1) == [Decimal.DigitChar(1)] == "1";
  }

  /** A set enum field outside the path does not arrive. */
  lemma {:induction false} EnumIsLost(fields: seq<QueryParams.FieldDesc>, msg: QueryParams.Values, order: seq<string>)
    requires fields == [QueryParams.FieldDesc("color", "color", QueryParams.EnumKind)]
    requires msg == map["color" := QueryParams.N(1)]
    ensures QueryParams.GoodMessage(fields, msg) && QueryParams.GoodDescriptors(fields, msg)
    ensures QueryParams.Extract(fields, {}, msg) == map["color" := ["1"]]
    ensures QueryParams.IsOrderOf(order, QueryParams.Extract(fields, {}, msg)) ==>
      QueryParams.ApplyAll(fields, QueryParams.Restrict(msg, {}), QueryParams.Extract(fields, {}, msg), order) == map[]
  {
    var f := fields[0];
    EnumText();
    assert fields[..0] == [] && f in fields;
    var query := QueryParams.Extract(fields, {}, msg);
    if QueryParams.IsOrderOf(order, query) {
      var r := QueryParams.ApplyAll(fields, QueryParams.Restrict(msg, {}), query, order);
      QueryParams.FieldAfterQuery(fields, {}, msg, order, f);
      forall name
        ensures name !in r
      {
        QueryParams.OnlyDeclared(fields, {}, msg, order, name);
      }
      assert r == map[];
    }
  }
}
