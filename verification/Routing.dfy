/** A client-filled template meets the registered path of its route. */
module Routing {
  import opened Text
  import opened Escape
  import opened Template
  import opened ServeMux

  // ---- the segments of a routable template ----

  predicate IsHole(seg: seq<Token>) { |seg| == 1 && seg[0].Var? }

  predicate IsLiteral(seg: seq<Token>) {
    && seg != [] && (forall t | t in seg :: t.Ch? && t.c != '{' && t.c != '}' && t.c != '/')
    && !IsDots(Show(seg))
  }

  predicate GoodHole(h: Hole, last: bool) { PlainName(h.name) && (h.rest ==> last) }

  /** Every segment is a literal or exactly one placeholder; "{name...}" only at the end. */
  predicate GoodSegments(segs: seq<seq<Token>>) {
    segs == [] || ((IsLiteral(segs[0]) || (IsHole(segs[0]) && GoodHole(segs[0][0].hole, |segs| == 1)))
                   && GoodSegments(segs[1..]))
  }

  predicate GoodVerb(verb: string) {
    verb == "" || (verb[0] == ':' && BraceFree(verb) && '/' !in verb && '%' !in verb && '.' !in verb)
  }

  /** Two segment lists that differ at most in the names of their placeholders. */
  predicate SameShape(a: seq<seq<Token>>, b: seq<seq<Token>>) {
    |a| == |b| &&
    (a == [] ||
     ((if IsHole(a[0]) then IsHole(b[0]) && a[0][0].hole.rest == b[0][0].hole.rest else a[0] == b[0])
      && SameShape(a[1..], b[1..])))
  }

  function SegHoles(segs: seq<seq<Token>>): seq<Hole> {
    if segs == [] then [] else (if IsHole(segs[0]) then [segs[0][0].hole] else []) + SegHoles(segs[1..])
  }

  // ---- what a request for a template says ----

  predicate Covers(values: map<Hole, string>, segs: seq<seq<Token>>) {
    forall h | h in SegHoles(segs) :: h in values
  }

  lemma CoversHead(values: map<Hole, string>, segs: seq<seq<Token>>)
    requires segs != [] && Covers(values, segs)
    ensures IsHole(segs[0]) ==> segs[0][0].hole in values
    ensures Covers(values, segs[1..])
  {
    if IsHole(segs[0]) { assert SegHoles(segs)[0] == segs[0][0].hole; }
    assert forall h | h in SegHoles(segs[1..]) :: h in SegHoles(segs);
  }

  /** `text`, one segment of a request or the rest of it, stands for `value`: it decodes to it, and
      the mux cleans it exactly when it would clean the value. */
  predicate Carries(text: string, value: string, rest: bool) {
    && DecodeSegment(text) == value
    && if rest then CleanSegments(Split(text, '/')) <==> CleanSegments(Split(value, '/'))
       else '/' !in text && (text == "" <==> value == "") && (IsDots(text) <==> IsDots(value))
  }

  /** A segment of a request that spells a literal segment of the template. */
  predicate Spells(text: string, seg: seq<Token>) {
    '/' !in text && text != "" && !IsDots(text) && DecodeSegment(text) == DecodeSegment(Show(seg))
  }

  /** `text` is written for the segment `seg`; the verb, if any, follows a placeholder. */
  predicate WrittenFor(seg: seq<Token>, text: string, values: map<Hole, string>, verb: string)
    requires IsHole(seg) ==> seg[0].hole in values
  {
    if IsHole(seg) then Carries(text, values[seg[0].hole] + verb, seg[0].hole.rest)
    else Spells(text, seg) && verb == ""
  }

  /** `texts` are written for the segments of a template, the verb being part of the last. */
  predicate Written(segs: seq<seq<Token>>, texts: seq<string>, values: map<Hole, string>, verb: string)
    requires |segs| == |texts| && Covers(values, segs)
  {
    segs == [] ||
    (CoversHead(values, segs);
     WrittenFor(segs[0], texts[0], values, if |segs| == 1 then verb else "")
     && Written(segs[1..], texts[1..], values, verb))
  }

  /** The segments of the request: the last text may hold several. */
  function Request(texts: seq<string>): (r: seq<string>)
    requires texts != []
    ensures r != []
  {
    if |texts| == 1 then Split(texts[0], '/') else [texts[0]] + Request(texts[1..])
  }

  /** Only the last text may hold slashes. */
  lemma {:induction false} RequestOfTexts(texts: seq<string>)
    requires texts != [] && forall i | 0 <= i < |texts| - 1 :: '/' !in texts[i]
    ensures Split(Join(texts, "/"), '/') == Request(texts)
  {
    if |texts| > 1 {
      RequestOfTexts(texts[1..]);
      SplitWhole(texts[0], '/');
      SplitSum(texts[0], '/', Join(texts[1..], "/"));
    }
  }

  /** A text without slashes is one segment of the request. */
  lemma {:induction false} RequestAt(texts: seq<string>, i: nat)
    requires i < |texts| && (i < |texts| - 1 || '/' !in texts[i])
    ensures i < |Request(texts)| && Request(texts)[i] == texts[i]
  {
    if i > 0 {
      RequestAt(texts[1..], i - 1);
    } else if |texts| == 1 {
      SplitWhole(texts[0], '/');
    }
  }

  /** The values the server captures: the last placeholder's carries the verb. */
  function Expected(segs: seq<seq<Token>>, values: map<Hole, string>, verb: string): seq<string>
    requires Covers(values, segs)
  {
    if segs == [] then []
    else
      CoversHead(values, segs);
      (if IsHole(segs[0]) then [values[segs[0][0].hole] + if |segs| == 1 then verb else ""] else [])
        + Expected(segs[1..], values, verb)
  }

  predicate GoodText(text: string, rest: bool) {
    if rest then CleanSegments(Split(text, '/')) else text != "" && text != "/" && !IsDots(text)
  }

  /** What the values must satisfy for the request to be served at all. */
  predicate Servable(segs: seq<seq<Token>>, values: map<Hole, string>, verb: string)
    requires Covers(values, segs)
  {
    segs == [] ||
    (CoversHead(values, segs);
     (IsHole(segs[0]) ==> GoodText(values[segs[0][0].hole] + (if |segs| == 1 then verb else ""), segs[0][0].hole.rest))
     && Servable(segs[1..], values, verb))
  }

  // ---- escaping does not hide what cleaning looks at ----

  predicate IsSpecial(x: string) { x == "" || IsDots(x) }

  lemma {:induction false} SpecialEscapesToItself(codec: Codec, x: string)
    requires codec.Valid() && IsSpecial(x)
    ensures Octets(x) && EscapeText(codec, x) == x
  {
    assert EscapeText(codec, "") == "";
    assert EscapeText(codec, ".") == "." by { assert "."[1..] == ""; }
    assert EscapeText(codec, "..") == ".." by { assert ".."[1..] == "."; }
  }

  lemma {:induction false} EscapedIsSpecial(codec: Codec, v: string, verb: string, x: string)
    requires codec.Valid() && Octets(v) && GoodVerb(verb) && IsSpecial(x)
    ensures EscapeText(codec, v) + verb == x <==> v + verb == x
  {
    if verb == "" {
      assert EscapeText(codec, v) + verb == EscapeText(codec, v) && v + verb == v;
      SpecialEscapesToItself(codec, x);
      RoundTrip(codec, v);
      RoundTrip(codec, x);
    } else {
      assert (EscapeText(codec, v) + verb)[|EscapeText(codec, v)|] == ':' && (v + verb)[|v|] == ':';
    }
  }

  lemma {:induction false} CleanOne(text: string)
    ensures CleanSegments([text]) <==> !IsDots(text)
  {
    assert [text][0] == text;
  }

  lemma {:induction false} CleanCons(text: string, rest: seq<string>)
    requires rest != []
    ensures CleanSegments([text] + rest) <==> text != "" && !IsDots(text) && CleanSegments(rest)
  {
    var all := [text] + rest;
    assert all[0] == text && all[1..] == rest;
    assert forall i | 0 <= i < |rest| :: rest[i] == all[i + 1];
    if text != "" && !IsDots(text) && CleanSegments(rest) {
      forall i | 0 <= i < |all|
        ensures !IsDots(all[i]) && (all[i] == "" ==> i == |all| - 1)
      {
        if i > 0 { assert all[i] == rest[i - 1]; }
      }
    }
  }

  lemma {:induction false} SameSpecialSameClean(a: seq<string>, b: seq<string>)
    requires |a| == |b|
    requires forall i | 0 <= i < |a| :: (a[i] == "" <==> b[i] == "") && (IsDots(a[i]) <==> IsDots(b[i]))
    ensures CleanSegments(a) <==> CleanSegments(b)
  {
  }

  lemma {:induction false} EscapedSameSpecial(codec: Codec, v: string, verb: string)
    requires codec.Valid() && Octets(v) && GoodVerb(verb)
    ensures (EscapeText(codec, v) + verb == "" <==> v + verb == "")
    ensures (IsDots(EscapeText(codec, v) + verb) <==> IsDots(v + verb))
  {
    EscapedIsSpecial(codec, v, verb, "");
    EscapedIsSpecial(codec, v, verb, ".");
    EscapedIsSpecial(codec, v, verb, "..");
  }

  lemma {:induction false} EscapedListIsClean(codec: Codec, parts: seq<string>, texts: seq<string>, verb: string)
    requires codec.Valid() && GoodVerb(verb) && |parts| == |texts| >= 1
    requires forall i | 0 <= i < |parts| :: Octets(parts[i]) && texts[i] == EscapeText(codec, parts[i])
    ensures var n := |parts| - 1;
      CleanSegments(texts[..n] + [texts[n] + verb]) <==> CleanSegments(parts[..n] + [parts[n] + verb])
  {
    var n := |parts| - 1;
    var a := texts[..n] + [texts[n] + verb];
    var b := parts[..n] + [parts[n] + verb];
    forall i | 0 <= i < |a|
      ensures (a[i] == "" <==> b[i] == "") && (IsDots(a[i]) <==> IsDots(b[i]))
    {
      var suffix := if i < n then "" else verb;
      assert a[i] == texts[i] + suffix && b[i] == parts[i] + suffix;
      EscapedSameSpecial(codec, parts[i], suffix);
    }
    SameSpecialSameClean(a, b);
  }

  lemma {:induction false} EscapedRestIsClean(codec: Codec, v: string, verb: string)
    requires codec.Valid() && Octets(v) && GoodVerb(verb)
    ensures CleanSegments(Split(EscapeVar(codec, v, true) + verb, '/')) <==> CleanSegments(Split(v + verb, '/'))
  {
    SplitOctets(v, '/');
    var parts := Split(v, '/');
    var texts := EscapeAll(codec, parts);
    forall t | t in texts
      ensures '/' !in t
    {
      var i :| 0 <= i < |texts| && texts[i] == t;
      EscapedTextIsClean(codec, parts[i]);
    }
    JoinAfterSplit(v, '/');
    SplitJoinAppend(parts, '/', verb);
    SplitJoinAppend(texts, '/', verb);
    EscapedListIsClean(codec, parts, texts, verb);
  }

  // ---- one segment ----

  lemma DotSuffix(s: string)
    requires HasSuffix(s, "...")
    ensures '.' in s
  {
    assert s[|s| - 3..][0] == '.';
  }

  lemma {:induction false} HoleParses(h: Hole)
    requires PlainName(h.name)
    ensures ParseSegment(Placeholder(h)) == if h.rest then Rest(h.name) else Single(h.name)
  {
    var s := Placeholder(h);
    assert s[1..|s| - 1] == Inner(h);
    if h.rest {
      assert Inner(h)[..|Inner(h)| - 3] == h.name;
    } else {
      assert Inner(h) == h.name;
      if HasSuffix(h.name, "...") { DotSuffix(h.name); }
    }
  }

  lemma {:induction false} ShowHole(seg: seq<Token>)
    requires IsHole(seg)
    ensures Show(seg) == Placeholder(seg[0].hole)
  {
    assert seg[1..] == [];
  }

  lemma {:induction false} LiteralText(seg: seq<Token>)
    requires forall t | t in seg :: t.Ch? && t.c != '{' && t.c != '}' && t.c != '/'
    ensures |Show(seg)| == |seg|
    ensures forall c | c in Show(seg) :: c != '{' && c != '}' && c != '/'
  {
    if seg != [] {
      assert seg[0] in seg && forall t | t in seg[1..] :: t in seg;
      LiteralText(seg[1..]);
    }
  }

  lemma {:induction false} LiteralParses(seg: seq<Token>)
    requires IsLiteral(seg)
    ensures ParseSegment(Show(seg)) == Literal(Show(seg)) && Show(seg) != "" && '/' !in Show(seg)
  {
    LiteralText(seg);
    assert Show(seg)[0] in Show(seg);
  }

  predicate LastIsHole(segs: seq<seq<Token>>) { segs != [] && IsHole(segs[|segs| - 1]) }

  // ---- matching ----

  /** What MatchRequest says of one list of segments. */
  predicate Matches(cs: seq<seq<Token>>, ss: seq<seq<Token>>, texts: seq<string>, values: map<Hole, string>,
                    verb: string)
    requires texts != [] && Covers(values, cs)
  {
    var request := Request(texts);
    var served := Match(ParseSegments(ShowAll(ss)), request);
    if Servable(cs, values, verb)
    then CleanSegments(request) && served == Captured(Expected(cs, values, verb))
    else served.NotServed? || !CleanSegments(request)
  }

  lemma {:induction false} MatchLastLiteral(seg: seq<Token>, text: string, values: map<Hole, string>)
    requires IsLiteral(seg) && !IsHole(seg) && Covers(values, [seg]) && Spells(text, seg)
    ensures Matches([seg], [seg], [text], values, "")
  {
    CoversHead(values, [seg]);
    LiteralParses(seg);
    SplitWhole(text, '/');
    CleanOne(text);
    assert ShowAll([seg]) == [Show(seg)];
    assert ParseSegments([Show(seg)]) == [Literal(Show(seg))];
    assert [Literal(Show(seg))][1..] == [] && [text][1..] == [];
    assert Match([Literal(Show(seg))], [text]) == Captured([]);
    assert [seg][1..] == [];
    assert Expected([seg], values, "") == [];
    assert Servable([seg], values, "");
  }

  lemma {:induction false} OneHole(c: seq<Token>, s: seq<Token>, values: map<Hole, string>, verb: string)
    requires Covers(values, [c]) && IsHole(c) && IsHole(s) && PlainName(s[0].hole.name)
    ensures c[0].hole in values
    ensures var v, h := values[c[0].hole], s[0].hole;
      && Expected([c], values, verb) == [v + verb]
      && (Servable([c], values, verb) <==> GoodText(v + verb, c[0].hole.rest))
      && ParseSegments(ShowAll([s])) == [if h.rest then Rest(h.name) else Single(h.name)]
  {
    CoversHead(values, [c]);
    ShowHole(s);
    HoleParses(s[0].hole);
    assert ShowAll([s]) == [Show(s)];
    assert [c][1..] == [] && [Show(s)][1..] == [];
  }

  lemma {:induction false} MatchLastHole(c: seq<Token>, s: seq<Token>, text: string, values: map<Hole, string>,
                                         verb: string)
    requires Covers(values, [c]) && IsHole(c) && IsHole(s) && PlainName(s[0].hole.name)
    requires c[0].hole.rest == s[0].hole.rest && c[0].hole in values && WrittenFor(c, text, values, verb)
    ensures Matches([c], [s], [text], values, verb)
  {
    OneHole(c, s, values, verb);
    var want, rest := values[c[0].hole] + verb, c[0].hole.rest;
    if rest { RestMatches(text, want, s[0].hole.name); } else { SingleMatches(text, want, s[0].hole.name); }
  }

  lemma {:induction false} RestMatches(text: string, value: string, name: string)
    requires Carries(text, value, true)
    ensures var request := Split(text, '/');
      && Match([Rest(name)], request) == Captured([value])
      && (CleanSegments(request) <==> GoodText(value, true))
  {
    JoinAfterSplit(text, '/');
  }

  lemma {:induction false} SingleMatches(text: string, value: string, name: string)
    requires Carries(text, value, false)
    ensures var request := Split(text, '/');
      && Match([Single(name)], request) == (if text == "" || value == "/" then NotServed else Captured([value]))
      && (CleanSegments(request) <==> !IsDots(text))
      && (GoodText(value, false) <==> text != "" && value != "/" && !IsDots(text))
  {
    SplitWhole(text, '/');
    CleanOne(text);
    assert [text][1..] == [] && [Single(name)][1..] == [];
  }

  lemma {:induction false} PeelFirst(ss: seq<seq<Token>>, texts: seq<string>)
    requires |texts| > 1 && ss != []
    ensures var text, rest := texts[0], Request(texts[1..]);
      && Request(texts) == [text] + rest
      && (CleanSegments([text] + rest) <==> text != "" && !IsDots(text) && CleanSegments(rest))
    ensures ParseSegments(ShowAll(ss)) == [ParseSegment(Show(ss[0]))] + ParseSegments(ShowAll(ss[1..]))
  {
    CleanCons(texts[0], Request(texts[1..]));
    assert ([Show(ss[0])] + ShowAll(ss[1..]))[1..] == ShowAll(ss[1..]);
  }

  lemma {:induction false} MatchCons(segment: Segment, pattern: seq<Segment>, text: string, rest: seq<string>)
    requires !segment.Rest?
    ensures var served := Match(pattern, rest);
      Match([segment] + pattern, [text] + rest) ==
        if segment.Single? then
          (if text == "" || DecodeSegment(text) == "/" || served.NotServed? then NotServed
           else Captured([DecodeSegment(text)] + served.values))
        else if DecodeSegment(text) == DecodeSegment(segment.text) then served else NotServed
  {
    assert ([segment] + pattern)[1..] == pattern && ([text] + rest)[1..] == rest;
  }

  lemma {:induction false} MatchInnerHole(cs: seq<seq<Token>>, ss: seq<seq<Token>>, texts: seq<string>,
                                          values: map<Hole, string>, verb: string)
    requires |cs| == |texts| > 1 && ss != [] && IsHole(cs[0]) && IsHole(ss[0]) && PlainName(ss[0][0].hole.name)
    requires !cs[0][0].hole.rest && !ss[0][0].hole.rest
    requires Covers(values, cs) && Covers(values, cs[1..])
    requires cs[0][0].hole in values && WrittenFor(cs[0], texts[0], values, "")
    requires Matches(cs[1..], ss[1..], texts[1..], values, verb)
    ensures Matches(cs, ss, texts, values, verb)
  {
    PeelFirst(ss, texts);
    var s, v := ss[0], values[cs[0][0].hole];
    assert v + "" == v;
    ShowHole(s);
    HoleParses(s[0].hole);
    MatchCons(ParseSegment(Show(s)), ParseSegments(ShowAll(ss[1..])), texts[0], Request(texts[1..]));
  }

  lemma {:induction false} MatchInnerLiteral(cs: seq<seq<Token>>, ss: seq<seq<Token>>, texts: seq<string>,
                                             values: map<Hole, string>, verb: string)
    requires |cs| == |texts| > 1 && ss != [] && !IsHole(cs[0]) && IsLiteral(cs[0]) && ss[0] == cs[0]
    requires Covers(values, cs) && Covers(values, cs[1..]) && Spells(texts[0], cs[0])
    requires Matches(cs[1..], ss[1..], texts[1..], values, verb)
    ensures Matches(cs, ss, texts, values, verb)
  {
    PeelFirst(ss, texts);
    LiteralParses(ss[0]);
    MatchCons(ParseSegment(Show(ss[0])), ParseSegments(ShowAll(ss[1..])), texts[0], Request(texts[1..]));
    assert Expected(cs, values, verb) == [] + Expected(cs[1..], values, verb);
  }

  /** The server captures exactly the values a request was written for, if it is served. */
  lemma {:induction false} MatchRequest(cs: seq<seq<Token>>, ss: seq<seq<Token>>, texts: seq<string>,
                                        values: map<Hole, string>, verb: string)
    requires cs != [] && GoodSegments(cs) && GoodSegments(ss) && SameShape(cs, ss)
    requires |cs| == |texts| && Covers(values, cs) && Written(cs, texts, values, verb)
    ensures Matches(cs, ss, texts, values, verb)
  {
    CoversHead(values, cs);
    if |cs| == 1 {
      assert cs == [cs[0]] && ss == [ss[0]] && texts == [texts[0]];
      if IsHole(cs[0]) {
        MatchLastHole(cs[0], ss[0], texts[0], values, verb);
      } else {
        MatchLastLiteral(cs[0], texts[0], values);
      }
    } else {
      MatchRequest(cs[1..], ss[1..], texts[1..], values, verb);
      if IsHole(cs[0]) {
        MatchInnerHole(cs, ss, texts, values, verb);
      } else {
        MatchInnerLiteral(cs, ss, texts, values, verb);
      }
    }
  }

  predicate EndsInRest(segs: seq<seq<Token>>) { LastIsHole(segs) && segs[|segs| - 1][0].hole.rest }

  lemma {:induction false} SameShapeSameEnd(a: seq<seq<Token>>, b: seq<seq<Token>>)
    requires SameShape(a, b)
    ensures |a| == |b| && (EndsInRest(a) <==> EndsInRest(b))
  {
    if |a| > 1 {
      SameShapeSameEnd(a[1..], b[1..]);
    } else if a != [] {
      assert SameShape(a[1..], b[1..]);
    }
  }

  /** How much of a request a template takes: a segment each, and the last one all that is left when
      it takes the rest of the path. */
  predicate Counted(ss: seq<seq<Token>>, request: seq<string>, values: seq<string>) {
    && |values| == |SegHoles(ss)| && 1 <= |ss| <= |request|
    && if EndsInRest(ss)
       then values != [] && values[|values| - 1] == DecodeSegment(Join(request[|ss| - 1..], "/"))
       else |ss| == |request|
  }

  lemma {:induction false} MatchCounts(ss: seq<seq<Token>>, request: seq<string>)
    requires ss != [] && GoodSegments(ss) && Match(ParseSegments(ShowAll(ss)), request).Captured?
    ensures Counted(ss, request, Match(ParseSegments(ShowAll(ss)), request).values)
  {
    var first, more := ParseSegment(Show(ss[0])), ParseSegments(ShowAll(ss[1..]));
    assert ParseSegments(ShowAll(ss)) == [first] + more by {
      assert ([Show(ss[0])] + ShowAll(ss[1..]))[1..] == ShowAll(ss[1..]);
    }
    FirstParses(ss);
    if |ss| == 1 {
      assert ss[1..] == [] && [first] + more == [first];
      OneCounts(ss, first, request);
    } else {
      assert request == [request[0]] + request[1..];
      MatchCons(first, more, request[0], request[1..]);
      MatchCounts(ss[1..], request[1..]);
      MoreCounts(ss, request, if first.Literal? then []
          else [DecodeSegment(request[0])], Match(more, request[1..]).values);
    }
  }

  lemma MoreCounts(ss: seq<seq<Token>>, request: seq<string>, head: seq<string>, values: seq<string>)
    requires |ss| > 1 && request != [] && |head| == (if IsHole(ss[0]) then 1 else 0)
    requires Counted(ss[1..], request[1..], values)
    ensures Counted(ss, request, head + values)
  {
    assert EndsInRest(ss) <==> EndsInRest(ss[1..]);
    assert request[1..][|ss| - 2..] == request[|ss| - 1..];
    if EndsInRest(ss) { assert (head + values)[|head + values| - 1] == values[|values| - 1]; }
  }

  lemma FirstParses(ss: seq<seq<Token>>)
    requires ss != [] && GoodSegments(ss)
    ensures var first := ParseSegment(Show(ss[0]));
      && (first.Literal? <==> !IsHole(ss[0]))
      && (first.Rest? <==> IsHole(ss[0]) && ss[0][0].hole.rest)
      && (first.Rest? ==> |ss| == 1)
  {
    if IsLiteral(ss[0]) {
      LiteralParses(ss[0]);
      assert ss[0][0] in ss[0];
    } else {
      ShowHole(ss[0]);
      HoleParses(ss[0][0].hole);
    }
  }

  lemma {:induction false} OneCounts(ss: seq<seq<Token>>, first: Segment, request: seq<string>)
    requires |ss| == 1 && Match([first], request).Captured?
    requires (first.Literal? <==> !IsHole(ss[0])) && (first.Rest? <==> IsHole(ss[0]) && ss[0][0].hole.rest)
    ensures Counted(ss, request, Match([first], request).values)
  {
    assert [first][1..] == [] && ss[1..] == [] && request[0..] == request;
    assert SegHoles(ss[1..]) == [];
  }

  // ---- from the filled string to the request's segments ----

  predicate AllOctets(values: map<Hole, string>) { forall h | h in values :: Octets(values[h]) }

  function Escaped(codec: Codec, values: map<Hole, string>): map<Hole, string>
    requires AllOctets(values)
  {
    map h | h in values :: EscapeVar(codec, values[h], h.rest)
  }

  /** The text of a segment once the placeholders of `filled` are replaced; others stay as they are. */
  function SegmentText(seg: seq<Token>, filled: map<Hole, string>): string {
    if IsHole(seg) && seg[0].hole in filled then filled[seg[0].hole] else Show(seg)
  }

  function FilledTexts(segs: seq<seq<Token>>, filled: map<Hole, string>, verb: string): (texts: seq<string>)
    ensures |texts| == |segs|
  {
    if segs == [] then []
    else [SegmentText(segs[0], filled) + if |segs| == 1 then verb else ""] + FilledTexts(segs[1..], filled, verb)
  }

  /** A literal segment, possibly the empty one before the leading slash. */
  predicate IsText(seg: seq<Token>) { forall t | t in seg :: t.Ch? && t.c != '{' && t.c != '}' && t.c != '/' }

  lemma {:induction false} SegmentFills(seg: seq<Token>, filled: map<Hole, string>, tail: string)
    requires IsHole(seg) || IsText(seg)
    ensures Show(Subst(seg + Chars(tail), filled)) == SegmentText(seg, filled) + tail
  {
    SubstConcat(seg, Chars(tail), filled);
    SubstChars(tail, filled);
    ShowConcat(Subst(seg, filled), Chars(tail));
    ShowChars(tail);
    if IsHole(seg) {
      assert seg[1..] == [];
      if seg[0].hole in filled {
        assert Subst(seg, filled) == Chars(filled[seg[0].hole]) + [];
        ShowChars(filled[seg[0].hole]);
        assert Chars(filled[seg[0].hole]) + [] == Chars(filled[seg[0].hole]);
      } else {
        assert Subst(seg, filled) == seg;
      }
    } else {
      SubstText(seg, filled);
    }
  }

  lemma {:induction false} SubstText(seg: seq<Token>, values: map<Hole, string>)
    requires forall t | t in seg :: t.Ch?
    ensures Subst(seg, values) == seg
  {
    if seg != [] {
      assert seg[0] in seg && forall t | t in seg[1..] :: t in seg;
      SubstText(seg[1..], values);
    }
  }

  predicate HolesOrTexts(segs: seq<seq<Token>>) { forall s | s in segs :: IsHole(s) || IsText(s) }

  lemma {:induction false} SegmentsFill(segs: seq<seq<Token>>, filled: map<Hole, string>, verb: string)
    requires segs != [] && HolesOrTexts(segs)
    ensures ShowAll(SubstAll(WithTail(segs, verb), filled)) == FilledTexts(segs, filled, verb)
  {
    assert segs[0] in segs;
    if |segs| == 1 {
      SegmentFills(segs[0], filled, verb);
      assert SubstAll(WithTail(segs, verb), filled) == [Subst(segs[0] + Chars(verb), filled)];
      assert segs[1..] == [];
    } else {
      assert forall s | s in segs[1..] :: s in segs;
      SegmentsFill(segs[1..], filled, verb);
      SegmentFills(segs[0], filled, "");
      assert segs[0] + Chars("") == segs[0];
      var rest := WithTail(segs[1..], verb);
      assert ([segs[0]] + rest)[1..] == rest;
      assert SubstAll([segs[0]] + rest, filled) == [Subst(segs[0], filled)] + SubstAll(rest, filled);
      assert ([Subst(segs[0], filled)] + SubstAll(rest, filled))[1..] == SubstAll(rest, filled);
      assert WithTail(segs, verb) == [segs[0]] + rest;
    }
  }

  /** Replaced single placeholders are replaced by one segment. */
  predicate SlashFree(filled: map<Hole, string>) { forall h | h in filled && !h.rest :: '/' !in filled[h] }

  lemma {:induction false} InnerTextIsOneSegment(seg: seq<Token>, filled: map<Hole, string>)
    requires SlashFree(filled) && (IsLiteral(seg) || (IsHole(seg) && GoodHole(seg[0].hole, false)))
    ensures '/' !in SegmentText(seg, filled)
  {
    if IsHole(seg) { ShowHole(seg); } else { LiteralParses(seg); }
  }

  lemma {:induction false} FilledTextsSplit(segs: seq<seq<Token>>, filled: map<Hole, string>, verb: string)
    requires segs != [] && GoodSegments(segs) && SlashFree(filled)
    ensures FilledTexts(segs, filled, verb) != []
    ensures Split(Join(FilledTexts(segs, filled, verb), "/"), '/') == Request(FilledTexts(segs, filled, verb))
  {
    var texts := FilledTexts(segs, filled, verb);
    if |segs| > 1 {
      FilledTextsSplit(segs[1..], filled, verb);
      var text, rest := SegmentText(segs[0], filled), FilledTexts(segs[1..], filled, verb);
      assert text + "" == text;
      assert texts == [text] + rest && ([text] + rest)[1..] == rest;
      InnerTextIsOneSegment(segs[0], filled);
      SplitWhole(text, '/');
      SplitSum(text, '/', Join(rest, "/"));
    } else {
      assert segs[1..] == [] && FilledTexts(segs[1..], filled, verb) == [];
    }
  }

  lemma {:induction false} GoodSegmentsAreTexts(segs: seq<seq<Token>>)
    requires GoodSegments(segs)
    ensures HolesOrTexts(segs)
    ensures forall t | t in ShowAll(segs) :: '/' !in t
  {
    if segs != [] {
      GoodSegmentsAreTexts(segs[1..]);
      if IsHole(segs[0]) {
        ShowHole(segs[0]);
        var h := segs[0][0].hole;
        assert forall c | c in Placeholder(h) :: c == '{' || c == '}' || c == '.' || c in h.name;
      } else {
        LiteralParses(segs[0]);
      }
    }
  }

  // ---- templates without escapes ----

  lemma {:induction false} NoPercent(seg: seq<Token>)
    requires (forall t | t in seg :: t.Ch?) && Ch('%') !in seg
    ensures '%' !in Show(seg)
  {
    if seg != [] {
      assert seg[0] in seg && forall t | t in seg[1..] :: t in seg;
      NoPercent(seg[1..]);
    }
  }

  predicate NoPercentIn(segs: seq<seq<Token>>) { forall seg | seg in segs :: Ch('%') !in seg }

  lemma {:induction false} PercentInSegments(ts: seq<Token>)
    requires Ch('%') !in ts
    ensures NoPercentIn(SplitTokens(ts)) && NoPercentIn(SplitTokens(ts)[1..])
  {
    if ts != [] {
      assert ts[0] in ts && forall t | t in ts[1..] :: t in ts;
      PercentInSegments(ts[1..]);
    }
  }

  /** A template is routable: "/" and good segments. */
  predicate Routable(ts: seq<Token>) {
    var segs := SplitTokens(ts);
    |segs| >= 2 && segs[0] == [] && GoodSegments(segs[1..])
  }

  /** The path the client sends; a placeholder without a value stays in it. */
  function ClientPath(codec: Codec, ts: seq<Token>, values: map<Hole, string>, verb: string): string
    requires AllOctets(values)
  {
    Show(Subst(ts + Chars(verb), Escaped(codec, values)))
  }

  /** The path is "/" and the filled segments. */
  lemma {:induction false} PathIsTexts(ts: seq<Token>, filled: map<Hole, string>, verb: string)
    requires Routable(ts) && '/' !in verb
    ensures var texts := FilledTexts(SplitTokens(ts)[1..], filled, verb);
      texts != [] && Show(Subst(ts + Chars(verb), filled)) == "/" + Join(texts, "/")
  {
    var segs := SplitTokens(ts);
    var cs := segs[1..];
    assert segs == [[]] + cs;
    SplitTokensAppend(ts, verb);
    FilledSegments(ts + Chars(verb), filled);
    GoodSegmentsAreTexts(cs);
    SegmentsFill(segs, filled, verb);
    var texts := FilledTexts(cs, filled, verb);
    assert FilledTexts(segs, filled, verb) == [""] + texts;
    JoinSlash(texts);
  }

  lemma JoinSlash(texts: seq<string>)
    requires texts != []
    ensures Join([""] + texts, "/") == "/" + Join(texts, "/")
  {
    assert ([""] + texts)[1..] == texts;
  }

  lemma SplitPath(text: string)
    ensures Split("/" + text, '/') == [""] + Split(text, '/')
  {
    SplitCons('/', text, '/');
  }

  lemma {:induction false} PathSplits(ts: seq<Token>, filled: map<Hole, string>, verb: string)
    requires Routable(ts) && '/' !in verb && SlashFree(filled)
    ensures FilledTexts(SplitTokens(ts)[1..], filled, verb) != []
    ensures Split(Show(Subst(ts + Chars(verb), filled)), '/')
      == [""] + Request(FilledTexts(SplitTokens(ts)[1..], filled, verb))
  {
    var cs := SplitTokens(ts)[1..];
    PathIsTexts(ts, filled, verb);
    FilledTextsSplit(cs, filled, verb);
    SplitPath(Join(FilledTexts(cs, filled, verb), "/"));
  }

  lemma {:induction false} RegisteredSegments(ts: seq<Token>)
    requires Routable(ts)
    ensures Register(Show(ts)) == [Literal("")] + ParseSegments(ShowAll(SplitTokens(ts)[1..]))
  {
    var segs := SplitTokens(ts);
    assert segs == [[]] + segs[1..];
    ShownSegments(ts);
    GoodSegmentsAreTexts(segs[1..]);
    assert ShowAll(segs) == [""] + ShowAll(segs[1..]);
    SplitAfterJoin(ShowAll(segs), '/');
    assert ([""] + ShowAll(segs[1..]))[1..] == ShowAll(segs[1..]);
  }

  /** A request written for a template is served exactly when its values are servable, and then the
      server captures the values, the verb following the last one. The registered template may name
      its placeholders differently. */
  lemma {:induction false} WrittenIsServed(ct: seq<Token>, st: seq<Token>, texts: seq<string>,
                                           values: map<Hole, string>, verb: string, path: string)
    requires Routable(ct) && Routable(st) && SameShape(SplitTokens(ct)[1..], SplitTokens(st)[1..])
    requires |texts| == |SplitTokens(ct)[1..]| && Covers(values, SplitTokens(ct)[1..])
    requires Written(SplitTokens(ct)[1..], texts, values, verb) && Split(path, '/') == [""] + Request(texts)
    ensures var cs := SplitTokens(ct)[1..];
      Serve(Show(st), path) == if Servable(cs, values, verb) then Captured(Expected(cs, values, verb)) else NotServed
  {
    var cs, ss := SplitTokens(ct)[1..], SplitTokens(st)[1..];
    RegisteredSegments(st);
    MatchRequest(cs, ss, texts, values, verb);
    ServeSplit(Show(st), path, ParseSegments(ShowAll(ss)), Request(texts));
  }

  lemma ServeSplit(registered: string, path: string, pattern: seq<Segment>, request: seq<string>)
    requires Split(path, '/') == [""] + request && request != [] && Register(registered) == [Literal("")] + pattern
    ensures Serve(registered, path) == if CleanSegments(request) then Match(pattern, request) else NotServed
  {
    assert ([""] + request)[1..] == request;
    MatchCons(Literal(""), pattern, "", request);
  }

  // ---- a client's path is written for its template ----

  /** What arrives for each placeholder: its value, or, when the client found no value for it, the
      text of the placeholder itself. */
  predicate Arrives(segs: seq<seq<Token>>, values: map<Hole, string>, sent: map<Hole, string>)
    requires Covers(sent, segs)
  {
    forall h | h in SegHoles(segs) ::
      if h in values then sent[h] == values[h] else !h.rest && sent[h] == Placeholder(h)
  }

  lemma {:induction false} EscapedCarries(codec: Codec, v: string, rest: bool, verb: string)
    requires codec.Valid() && Octets(v) && GoodVerb(verb)
    ensures Carries(EscapeVar(codec, v, rest) + verb, v + verb, rest)
  {
    EscapedVarDecodes(codec, v, rest, verb);
    if rest { EscapedRestIsClean(codec, v, verb); } else { EscapedSameSpecial(codec, v, verb); }
  }

  lemma {:induction false} PlaceholderCarries(h: Hole, verb: string)
    requires PlainName(h.name) && !h.rest && GoodVerb(verb)
    ensures Carries(Placeholder(h) + verb, Placeholder(h) + verb, false)
  {
    PlainTextDecodes(Placeholder(h) + verb);
  }

  lemma {:induction false} LiteralSpells(seg: seq<Token>)
    requires IsLiteral(seg)
    ensures Spells(Show(seg), seg)
  {
    LiteralParses(seg);
  }

  lemma {:induction false} SegmentIsWritten(codec: Codec, seg: seq<Token>, values: map<Hole, string>,
                                            sent: map<Hole, string>, verb: string)
    requires codec.Valid() && GoodVerb(verb) && AllOctets(values) && Covers(sent, [seg]) && Arrives([seg], values, sent)
    requires IsLiteral(seg) || (IsHole(seg) && PlainName(seg[0].hole.name))
    requires (verb != "" ==> IsHole(seg)) && (IsHole(seg) ==> seg[0].hole in sent)
    ensures WrittenFor(seg, SegmentText(seg, Escaped(codec, values)) + verb, sent, verb)
  {
    if IsHole(seg) {
      var h := seg[0].hole;
      assert SegHoles([seg]) == [h] + [] && h in SegHoles([seg]);
      if h in values {
        EscapedCarries(codec, values[h], h.rest, verb);
      } else {
        ShowHole(seg);
        PlaceholderCarries(h, verb);
      }
    } else {
      LiteralSpells(seg);
      assert Show(seg) + "" == Show(seg);
    }
  }

  lemma ArrivesHead(segs: seq<seq<Token>>, values: map<Hole, string>, sent: map<Hole, string>)
    requires segs != [] && Covers(sent, segs) && Arrives(segs, values, sent)
    ensures Covers(sent, [segs[0]]) && Arrives([segs[0]], values, sent)
    ensures Covers(sent, segs[1..]) && Arrives(segs[1..], values, sent)
  {
    CoversHead(sent, segs);
    var first := if IsHole(segs[0]) then [segs[0][0].hole] else [];
    assert SegHoles([segs[0]]) == first + [] && SegHoles(segs) == first + SegHoles(segs[1..]);
    assert forall h | h in SegHoles([segs[0]]) :: h in SegHoles(segs);
    assert forall h | h in SegHoles(segs[1..]) :: h in SegHoles(segs);
  }

  lemma {:induction false} FilledIsWritten(codec: Codec, segs: seq<seq<Token>>, values: map<Hole, string>,
                                           sent: map<Hole, string>, verb: string)
    requires codec.Valid() && GoodVerb(verb) && AllOctets(values) && GoodSegments(segs)
    requires Covers(sent, segs) && Arrives(segs, values, sent) && (verb != "" ==> segs == [] || LastIsHole(segs))
    ensures Written(segs, FilledTexts(segs, Escaped(codec, values), verb), sent, verb)
  {
    if segs != [] {
      CoversHead(sent, segs);
      ArrivesHead(segs, values, sent);
      FilledIsWritten(codec, segs[1..], values, sent, verb);
      var own := if |segs| == 1 then verb else "";
      SegmentIsWritten(codec, segs[0], values, sent, own);
      var texts := FilledTexts(segs, Escaped(codec, values), verb);
      assert texts[1..] == FilledTexts(segs[1..], Escaped(codec, values), verb);
    }
  }

  lemma {:induction false} EscapedIsSlashFree(codec: Codec, values: map<Hole, string>)
    requires codec.Valid() && AllOctets(values)
    ensures SlashFree(Escaped(codec, values))
  {
    forall h | h in values && !h.rest
      ensures '/' !in Escaped(codec, values)[h]
    {
      EscapedVarDecodes(codec, values[h], false, "");
    }
  }

  /** The path a client builds is served exactly when what arrives is servable. */
  lemma {:induction false} ServedExactlyWhenServable(codec: Codec, ct: seq<Token>, st: seq<Token>,
                                                     values: map<Hole, string>, sent: map<Hole, string>, verb: string)
    requires codec.Valid() && GoodVerb(verb) && AllOctets(values)
    requires Routable(ct) && Routable(st) && SameShape(SplitTokens(ct)[1..], SplitTokens(st)[1..])
    requires Covers(sent, SplitTokens(ct)[1..]) && Arrives(SplitTokens(ct)[1..], values, sent)
    requires verb != "" ==> LastIsHole(SplitTokens(ct))
    ensures var cs := SplitTokens(ct)[1..];
      Serve(Show(st), ClientPath(codec, ct, values, verb)) ==
        if Servable(cs, sent, verb) then Captured(Expected(cs, sent, verb)) else NotServed
  {
    var cs := SplitTokens(ct)[1..];
    EscapedIsSlashFree(codec, values);
    PathSplits(ct, Escaped(codec, values), verb);
    FilledIsWritten(codec, cs, values, sent, verb);
    WrittenIsServed(ct, st, FilledTexts(cs, Escaped(codec, values), verb), sent, verb,
                    ClientPath(codec, ct, values, verb));
  }
}
