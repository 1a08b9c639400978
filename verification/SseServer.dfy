/** The streaming client meets the server: the raw path that pathVarSSETransport sends is served by
    the route the plugin registered, and the values captured are those that were yielded. */
module SseServer {
  import opened Text
  import opened Escape
  import opened Template
  import opened ServeMux
  import opened Routing
  import opened Patterns
  import opened NetUrl
  import opened RoundTrip
  import opened SseTransport

  // ---- one segment of the template ----

  /** What the server should see in place of h: the value yielded for it, or else its own text. */
  predicate Sees(h: Hole, m: map<Hole, string>, sent: map<Hole, string>) {
    h in sent && sent[h] == if h in m then m[h] else Placeholder(h)
  }

  predicate SeesAll(segs: seq<seq<Token>>, m: map<Hole, string>, sent: map<Hole, string>) {
    forall h | h in SegHoles(segs) :: Sees(h, m, sent)
  }

  lemma {:induction false} HoleEncodes(h: Hole, m: map<Hole, string>, sent: map<Hole, string>)
    requires SafeName(h.name) && OctetMap(m) && Sees(h, m, sent)
    ensures var raw := RawToken(Var(h), m);
      Encodes(raw, sent[h]) && if h.rest then KeepsSlashes(raw, sent[h]) else '/' !in raw
  {
    if h in m { ValueEncodes(m[h], h.rest); } else { PlaceholderEncodes(h); }
  }

  lemma ValueEncodes(value: string, rest: bool)
    requires Octets(value)
    ensures var raw := EscapeVar(GoCodec(), value, rest);
      Encodes(raw, value) && if rest then KeepsSlashes(raw, value) else '/' !in raw
  {
    EscapeVarEncodes(value, rest);
    CodecsAreFaithful();
    CodecsAreValid();
    if rest {
      RestIsOnePass(GoCodec(), value);
      EscapingKeepsSlashes(GoCodec().WithSlash(), value);
    } else {
      EscapedVarDecodes(GoCodec(), value, false, "");
    }
  }

  lemma PlaceholderEncodes(h: Hole)
    requires SafeName(h.name)
    ensures var p := Placeholder(h);
      Rigid(p) && Encodes(Rigidly(p), p) && KeepsSlashes(Rigidly(p), p) && '/' !in Rigidly(p)
  {
    PlaceholderIsRigid(h);
    CodecsAreFaithful();
    EscapingEncodes(GoCodec(), Placeholder(h));
    PlaceholderHasNoSlash(h);
    SlashFreeKeeps(Rigidly(Placeholder(h)), Placeholder(h));
  }

  lemma PlaceholderHasNoSlash(h: Hole)
    requires PlainName(h.name)
    ensures '/' !in Placeholder(h)
  {
    assert forall c | c in Placeholder(h) :: c in h.name || c == '{' || c == '}' || c == '.';
  }

  lemma {:induction false} OneHoleIsRaw(seg: seq<Token>, m: map<Hole, string>)
    requires IsHole(seg) && OctetTokens(seg) && OctetMap(m)
    ensures OctetToken(seg[0]) && RawShow(seg, m) == RawToken(seg[0], m)
  {
    assert seg[0] in seg && seg[1..] == [];
    assert RawToken(seg[0], m) + "" == RawToken(seg[0], m);
  }

  lemma {:induction false} LiteralEncodes(seg: seq<Token>, m: map<Hole, string>)
    requires Routing.IsLiteral(seg) && OctetTokens(seg) && OctetMap(m) && Ch('%') !in seg
    ensures Encodes(RawShow(seg, m), Show(seg)) && Spells(RawShow(seg, m), seg)
  {
    RawShowEncodes(seg, m);
    SubstText(seg, m);
    LiteralText(seg);
    NoPercent(seg);
    SlashFreeKeeps(RawShow(seg, m), Show(seg));
    EncodedSpecial(RawShow(seg, m), Show(seg));
    EncodingDecodes(RawShow(seg, m), Show(seg));
    PlainTextDecodes(Show(seg));
  }

  /** The verb follows a placeholder and is escaped like the rest of the path. */
  function RawVerb(verb: string): string
    requires Octets(verb)
  {
    EscapeText(PathCodec(), verb)
  }

  lemma {:induction false} HoleIsWritten(seg: seq<Token>, m: map<Hole, string>, sent: map<Hole, string>, verb: string)
    requires IsHole(seg) && OctetTokens(seg) && OctetMap(m) && Sees(seg[0].hole, m, sent) && GoodVerb(verb)
      && Octets(verb)
    ensures WrittenFor(seg, RawShow(seg, m) + RawVerb(verb), sent, verb)
  {
    var h, raw, tail := seg[0].hole, RawToken(seg[0], m), RawVerb(verb);
    OneHoleIsRaw(seg, m);
    HoleEncodes(h, m, sent);
    CodecsAreFaithful();
    EscapingEncodes(PathCodec(), verb);
    SlashFreeKeeps(tail, verb);
    EncodingsJoin(raw, sent[h], tail, verb);
    if h.rest { KeptSlashesJoin(raw, sent[h], tail, verb); }
    EncodingCarries(raw + tail, sent[h] + verb, h.rest);
  }

  // ---- all of them ----

  predicate OctetSegments(segs: seq<seq<Token>>) { forall seg | seg in segs :: OctetTokens(seg) }

  /** The segments of the raw path, the verb on the last. */
  function RawTexts(segs: seq<seq<Token>>, m: map<Hole, string>, verb: string): (texts: seq<string>)
    requires OctetSegments(segs) && OctetMap(m) && Octets(verb)
    ensures |texts| == |segs|
  {
    if segs == [] then []
    else
      assert segs[0] in segs && forall seg | seg in segs[1..] :: seg in segs;
      [RawShow(segs[0], m) + if |segs| == 1 then RawVerb(verb) else ""] + RawTexts(segs[1..], m, verb)
  }

  lemma {:induction false} RawIsWritten(segs: seq<seq<Token>>, m: map<Hole, string>, sent: map<Hole, string>,
                                        verb: string)
    requires GoodSegments(segs) && OctetSegments(segs) && NoPercentIn(segs) && OctetMap(m)
    requires GoodVerb(verb) && Octets(verb) && (verb != "" && segs != [] ==> LastIsHole(segs))
    requires SeesAll(segs, m, sent)
    ensures Covers(sent, segs) && Written(segs, RawTexts(segs, m, verb), sent, verb)
  {
    assert Covers(sent, segs);
    if segs != [] {
      var seg, rest, texts := segs[0], segs[1..], RawTexts(segs, m, verb);
      assert seg in segs && forall x | x in rest :: x in segs;
      assert forall h | h in SegHoles(rest) :: h in SegHoles(segs);
      CoversHead(sent, segs);
      if rest != [] && LastIsHole(segs) { assert rest[|rest| - 1] == segs[|segs| - 1]; }
      RawIsWritten(rest, m, sent, verb);
      assert texts[1..] == RawTexts(rest, m, verb);
      FirstIsWritten(segs, m, sent, if |segs| == 1 then verb else "");
    }
  }

  lemma {:induction false} FirstIsWritten(segs: seq<seq<Token>>, m: map<Hole, string>, sent: map<Hole, string>,
                                          verb: string)
    requires segs != [] && GoodSegments(segs) && OctetTokens(segs[0]) && Ch('%') !in segs[0] && OctetMap(m)
    requires GoodVerb(verb) && Octets(verb) && (verb != "" ==> IsHole(segs[0])) && SeesAll(segs, m, sent)
    ensures IsHole(segs[0]) ==> segs[0][0].hole in sent
    ensures WrittenFor(segs[0], RawShow(segs[0], m) + RawVerb(verb), sent, verb)
  {
    var seg := segs[0];
    if IsHole(seg) {
      assert SegHoles(segs)[0] == seg[0].hole;
      HoleIsWritten(seg, m, sent, verb);
    } else {
      LiteralEncodes(seg, m);
      assert RawVerb("") == "" && RawShow(seg, m) + "" == RawShow(seg, m);
    }
  }

  lemma {:induction false} RawJoins(segs: seq<seq<Token>>, m: map<Hole, string>, verb: string)
    requires segs != [] && GoodSegments(segs) && OctetSegments(segs) && NoPercentIn(segs) && OctetMap(m) && Octets(verb)
    ensures Split(Join(RawTexts(segs, m, verb), "/"), '/') == Request(RawTexts(segs, m, verb))
  {
    var texts := RawTexts(segs, m, verb);
    forall i | 0 <= i < |texts| - 1
      ensures '/' !in texts[i]
    {
      InnerIsOneSegment(segs, m, verb, i);
    }
    RequestOfTexts(texts);
  }

  lemma {:induction false} InnerIsOneSegment(segs: seq<seq<Token>>, m: map<Hole, string>, verb: string, i: nat)
    requires GoodSegments(segs) && OctetSegments(segs) && NoPercentIn(segs) && OctetMap(m) && Octets(verb)
    requires i < |segs| - 1
    ensures '/' !in RawTexts(segs, m, verb)[i]
  {
    var seg := segs[0];
    assert seg in segs && forall x | x in segs[1..] :: x in segs;
    if i > 0 {
      InnerIsOneSegment(segs[1..], m, verb, i - 1);
    } else {
      assert RawShow(seg, m) + "" == RawShow(seg, m);
      if IsHole(seg) {
        var h := seg[0].hole;
        OneHoleIsRaw(seg, m);
        HoleEncodes(h, m, map[h := if h in m then m[h] else Placeholder(h)]);
      } else {
        LiteralEncodes(seg, m);
      }
    }
  }

  lemma RawTextsCons(seg: seq<Token>, rest: seq<seq<Token>>, m: map<Hole, string>, verb: string)
    requires rest != [] && OctetTokens(seg) && OctetSegments(rest) && OctetMap(m) && Octets(verb)
    ensures OctetSegments([seg] + rest)
    ensures RawTexts([seg] + rest, m, verb) == [RawShow(seg, m)] + RawTexts(rest, m, verb)
  {
    assert ([seg] + rest)[1..] == rest && RawShow(seg, m) + "" == RawShow(seg, m);
  }

  /** A token in front of the first segment. */
  lemma RawTextsHead(t: Token, segs: seq<seq<Token>>, m: map<Hole, string>, verb: string)
    requires segs != [] && OctetToken(t) && OctetSegments(segs) && OctetMap(m) && Octets(verb)
    ensures var all := [[t] + segs[0]] + segs[1..]; var texts := RawTexts(segs, m, verb);
      OctetSegments(all) && RawTexts(all, m, verb) == [RawToken(t, m) + texts[0]] + texts[1..]
  {
    var first := [t] + segs[0];
    assert segs[0] in segs && forall seg | seg in segs[1..] :: seg in segs;
    assert first[1..] == segs[0] && first[0] == t;
    assert RawShow(first, m) == RawToken(t, m) + RawShow(segs[0], m);
    var all, tail := [first] + segs[1..], if |segs| == 1 then RawVerb(verb) else "";
    assert all[1..] == segs[1..] && all[0] == first;
    Assoc(RawToken(t, m), RawShow(segs[0], m), tail);
  }

  /** The raw path is its segments, joined. */
  lemma {:induction false} RawSegments(ts: seq<Token>, m: map<Hole, string>, verb: string)
    requires OctetTokens(ts) && OctetMap(m) && Octets(verb)
    ensures OctetSegments(SplitTokens(ts))
    ensures RawShow(ts, m) + RawVerb(verb) == Join(RawTexts(SplitTokens(ts), m, verb), "/")
  {
    if ts == [] {
      assert RawTexts([[]], m, verb) == ["" + RawVerb(verb)] + [];
    } else {
      var rest := SplitTokens(ts[1..]);
      assert ts[0] in ts && forall t | t in ts[1..] :: t in ts;
      RawSegments(ts[1..], m, verb);
      Assoc(RawToken(ts[0], m), RawShow(ts[1..], m), RawVerb(verb));
      if ts[0] == Ch('/') {
        RawTextsCons([], rest, m, verb);
        JoinSlash(RawTexts(rest, m, verb));
        assert RawToken(ts[0], m) == "/";
      } else {
        RawTextsHead(ts[0], rest, m, verb);
        JoinHead(RawToken(ts[0], m), RawTexts(rest, m, verb));
      }
    }
  }

  lemma {:induction false} RawChars(text: string, m: map<Hole, string>)
    requires Octets(text) && OctetMap(m)
    ensures OctetTokens(Chars(text)) && RawShow(Chars(text), m) == RawVerb(text)
  {
    if text != "" {
      RawChars(text[1..], m);
      CharsCons(text);
      assert Chars(text)[1..] == Chars(text[1..]);
    }
  }

  /** The segments of the raw path of a template. */
  lemma {:induction false} RawPathSplits(ts: seq<Token>, m: map<Hole, string>, verb: string)
    requires Routable(ts) && OctetTokens(ts) && Ch('%') !in ts && OctetMap(m) && Octets(verb)
    ensures OctetTokens(ts + Chars(verb)) && OctetSegments(SplitTokens(ts)[1..])
    ensures var cs := SplitTokens(ts)[1..];
      Split(RawShow(ts + Chars(verb), m), '/') == [""] + Request(RawTexts(cs, m, verb))
  {
    var segs, cs := SplitTokens(ts), SplitTokens(ts)[1..];
    assert segs == [[]] + cs;
    RawSegments(ts, m, verb);
    RawChars(verb, m);
    RawConcat(ts, Chars(verb), m);
    assert forall seg | seg in cs :: seg in segs;
    RawTextsCons([], cs, m, verb);
    var texts := RawTexts(cs, m, verb);
    JoinSlash(texts);
    PercentInSegments(ts);
    RawJoins(cs, m, verb);
    SplitSum("", '/', Join(texts, "/"));
    assert "" + ['/'] + Join(texts, "/") == "/" + Join(texts, "/") && Split("", '/') == [""];
  }

  /** The raw path of a template with some of its placeholders filled is served by every route of its
      shape exactly when what stands in the places of the placeholders is servable; the route then
      captures it, the verb following the last value. */
  lemma {:induction false} RawPathIsServed(ct: seq<Token>, st: seq<Token>, m: map<Hole, string>,
                                           sent: map<Hole, string>, verb: string)
    requires Routable(ct) && Routable(st) && SameShape(SplitTokens(ct)[1..], SplitTokens(st)[1..])
    requires OctetTokens(ct) && Ch('%') !in ct && OctetMap(m) && GoodVerb(verb) && Octets(verb)
    requires verb != "" ==> LastIsHole(SplitTokens(ct))
    requires SeesAll(SplitTokens(ct)[1..], m, sent)
    ensures OctetTokens(ct + Chars(verb)) && Covers(sent, SplitTokens(ct)[1..])
    ensures var cs := SplitTokens(ct)[1..];
      Serve(Show(st), RawShow(ct + Chars(verb), m))
      == if Servable(cs, sent, verb) then Captured(Expected(cs, sent, verb)) else NotServed
  {
    var cs := SplitTokens(ct)[1..];
    RawPathSplits(ct, m, verb);
    PercentInSegments(ct);
    RoundTrip.LastOfTail(ct);
    RawIsWritten(cs, m, sent, verb);
    WrittenIsServed(ct, st, RawTexts(cs, m, verb), sent, verb, RawShow(ct + Chars(verb), m));
  }

  /** A streaming call: when no step is misled, the path that goes out for the template of a pattern
      is served by the group of its route exactly when the yielded values are servable, and the mux
      captures those values, the verb following the last. A placeholder that was not yielded arrives
      as its own text. */
  lemma {:induction false} StreamIsServed(pattern: string, st: seq<Token>, url: Url, pairs: seq<Pair>,
                                          sent: map<Hole, string>)
    requires Supported(pattern) && SameRoute(GoParse(pattern).tokens, st) && GoodPairs(pairs)
    requires OctetTokens(GoParse(pattern).tokens) && Ch('%') !in GoParse(pattern).tokens
      && Octets(GoParse(pattern).verb)
    requires url.path == UrlPattern(pattern) && (url.rawPath == "" || '{' in url.rawPath)
    requires Untouched(GoParse(pattern).tokens + Chars(GoParse(pattern).verb), map[], pairs)
    requires SeesAll(SplitTokens(GoParse(pattern).tokens)[1..], Filled(map[], pairs), sent)
    ensures Octets(url.path) && Covers(sent, SplitTokens(GoParse(pattern).tokens)[1..])
    ensures var p := GoParse(pattern);
      var cs := SplitTokens(p.tokens)[1..];
      Serve(Show(st), FillRaw(EscapedPath(url), pairs))
      == if Servable(cs, sent, p.verb) then Captured(Expected(cs, sent, p.verb)) else NotServed
  {
    var p := GoParse(pattern);
    var all := p.tokens + Chars(p.verb);
    VerbAddsNoHoles(p.tokens, p.verb);
    DistinctNamesDistinctHoles(Holes(p.tokens));
    RawChars(p.verb, map[]);
    RawConcat(p.tokens, Chars(p.verb), map[]);
    TemplateIsRaw(all);
    PlaceholderHidesRawPath(url);
    StartsWithSlash(p.tokens, p.verb);
    EveryValueInItsPlace(all, map[], pairs);
    RawPathIsServed(p.tokens, st, Filled(map[], pairs), sent, p.verb);
  }

  lemma StartsWithSlash(ts: seq<Token>, verb: string)
    requires Routable(ts)
    ensures Show(ts) + verb != "*"
  {
    assert ts != [] && ts[0] == Ch('/');
  }
}
