/** The unary clients of the three runtimes: taking the message's fields apart, and filling the
    placeholders of the URL template one after the other. */
module Clients {
  import opened Text
  import opened Escape
  import opened Template
  import opened Routing
  import opened Patterns
  import opened Wildcards
  import opened Fields

  predicate Contains(s: string, sub: string) { IndexOf(s, sub) >= 0 }

  /** The placeholder the generators emit for a variable: they look for "name..." in the path. */
  function ClientHole(name: string, wildcard: bool, path: string): Hole {
    Hole(name, wildcard && Contains(path, name + "..."))
  }

  function ClientHoles(vars: seq<SharedVar>, path: string): (holes: seq<Hole>)
    ensures |holes| == |vars|
  {
    if vars == [] then [] else [ClientHole(vars[0].name, vars[0].wildcard, path)] + ClientHoles(vars[1..], path)
  }

  // ---- when the search for "name..." is right ----

  lemma ContainsCons(c: char, s: string, sub: string)
    ensures Contains([c] + s, sub) <==> sub <= [c] + s || Contains(s, sub)
  {
    assert ([c] + s)[1..] == s;
  }

  lemma PrefixStops(a: string, x: char, b: string, sub: string)
    requires x !in sub
    ensures sub <= a + [x] + b <==> sub <= a
  {
    var all := a + [x] + b;
    assert all[|a|] == x && all[..|a|] == a;
    if |sub| > |a| { assert sub[|a|] in sub; }
  }

  lemma {:induction false} OccurrenceStaysOnOneSide(a: string, x: char, b: string, sub: string)
    requires sub != "" && x !in sub
    ensures Contains(a + [x] + b, sub) <==> Contains(a, sub) || Contains(b, sub)
  {
    PrefixStops(a, x, b, sub);
    if a == "" {
      assert a + [x] + b == [x] + b;
      ContainsCons(x, b, sub);
    } else {
      assert a + [x] + b == [a[0]] + (a[1..] + [x] + b) && a == [a[0]] + a[1..];
      OccurrenceStaysOnOneSide(a[1..], x, b, sub);
      ContainsCons(a[0], a[1..] + [x] + b, sub);
      ContainsCons(a[0], a[1..], sub);
    }
  }

  lemma PrefixTail(p: string, s: string)
    requires p != "" && s != ""
    ensures p <= s ==> p[1..] <= s[1..]
  {
    if p <= s { assert s[1..|p|] == p[1..]; }
  }

  /** No "..." among the literals of a path. */
  predicate NoLiteralDots(ts: seq<Token>) {
    forall i | 0 <= i < |ts| - 2 && ts[i] == Ch('.') && ts[i + 1] == Ch('.') :: ts[i + 2] != Ch('.')
  }

  /** Brace-free text at the start of a path is literal text. */
  lemma {:induction false} PrefixIsText(ts: seq<Token>, sub: string)
    requires Plain(ts) && BraceFree(sub) && sub <= Show(ts)
    ensures |sub| <= |ts| && forall i | 0 <= i < |sub| :: ts[i] == Ch(sub[i])
  {
    if sub != "" {
      assert ts[0] in ts && sub[0] in sub && Show(ts)[0] == sub[0];
      assert ts[0] == Ch(sub[0]);
      assert Show(ts)[1..] == Show(ts[1..]);
      PrefixTail(sub, Show(ts));
      assert (forall t | t in ts[1..] :: t in ts) && forall x | x in sub[1..] :: x in sub;
      PrefixIsText(ts[1..], sub[1..]);
      forall i | 0 <= i < |sub|
        ensures i < |ts| && ts[i] == Ch(sub[i])
      {
        if i > 0 { assert ts[1..][i - 1] == Ch(sub[1..][i - 1]); }
      }
    }
  }

  /** `text` stands at the start of the template, all of it literal. */
  predicate TextAt(ts: seq<Token>, text: string) {
    |text| <= |ts| && forall i | 0 <= i < |text| :: ts[i] == Ch(text[i])
  }

  /** `text` occurs among the literals. */
  predicate HasText(ts: seq<Token>, text: string) { TextAt(ts, text) || (ts != [] && HasText(ts[1..], text)) }

  lemma {:induction false} TextIsPrefix(ts: seq<Token>, text: string)
    requires TextAt(ts, text)
    ensures text <= Show(ts)
  {
    if text != "" {
      assert ts[0] == Ch(text[0]) && forall i | 0 <= i < |text| - 1 :: ts[1..][i] == ts[i + 1];
      TextIsPrefix(ts[1..], text[1..]);
      assert text == [text[0]] + text[1..] && Show(ts) == [text[0]] + Show(ts[1..]);
    }
  }

  lemma PrefixExactly(ts: seq<Token>, name: string)
    requires Plain(ts) && BraceFree(name)
    ensures name + "..." <= Show(ts) <==> TextAt(ts, name + "...")
  {
    if name + "..." <= Show(ts) { PrefixIsText(ts, name + "..."); }
    if TextAt(ts, name + "...") { TextIsPrefix(ts, name + "..."); }
  }

  lemma {:induction false} NoDotsNoText(ts: seq<Token>, name: string)
    requires NoLiteralDots(ts)
    ensures !HasText(ts, name + "...")
  {
    var sub, n := name + "...", |name|;
    assert sub[n] == '.' && sub[n + 1] == '.' && sub[n + 2] == '.';
    if ts != [] {
      assert ts == [ts[0]] + ts[1..];
      DotsInTail(ts[0], ts[1..]);
      NoDotsNoText(ts[1..], name);
    }
  }

  lemma DotsInTail(t: Token, rest: seq<Token>)
    requires NoLiteralDots([t] + rest)
    ensures NoLiteralDots(rest)
  {
    var ts := [t] + rest;
    assert forall i | 0 <= i < |rest| :: rest[i] == ts[i + 1];
  }

  lemma {:induction false} InnerContains(h: Hole, name: string)
    requires PlainName(h.name) && PlainName(name)
    ensures Contains(Inner(h), name + "...") <==> h.rest && HasSuffix(h.name, name)
  {
    if Contains(Inner(h), name + "...") { FoundAtEnd(h, name); }
    if h.rest && HasSuffix(h.name, name) {
      assert Inner(h)[|h.name| - |name|..] == name + "...";
      IndexOfIsFirst(Inner(h), name + "...", |h.name| - |name|);
    }
  }

  lemma {:induction false} FoundAtEnd(h: Hole, name: string)
    requires PlainName(h.name) && PlainName(name) && Contains(Inner(h), name + "...")
    ensures h.rest && HasSuffix(h.name, name)
  {
    var i := IndexOf(Inner(h), name + "...");
    IndexOfOccurs(Inner(h), name + "...");
    FoundDot(Inner(h), name, i);
    DotMeansRest(h);
    DotIsAfterName(h, i + |name|);
    FoundName(h, name, i);
  }

  lemma FoundDot(inner: string, name: string, i: nat)
    requires i <= |inner| && name + "..." <= inner[i..]
    ensures i + |name| + 3 <= |inner| && inner[i + |name|] == '.' && '.' in inner
  {
    assert inner[i..][|name|] == (name + "...")[|name|];
  }

  lemma FoundName(h: Hole, name: string, i: nat)
    requires h.rest && i + |name| + 3 <= |Inner(h)| && |h.name| <= i + |name| && name + "..." <= Inner(h)[i..]
    ensures HasSuffix(h.name, name)
  {
    assert i + |name| == |h.name|;
    assert h.name[i..] == Inner(h)[i..][..|name|];
  }

  lemma DotIsAfterName(h: Hole, i: nat)
    requires PlainName(h.name) && i < |Inner(h)|
    ensures Inner(h)[i] == '.' <==> i >= |h.name|
  {
    if i < |h.name| { assert h.name[i] in h.name; }
  }

  predicate EndsRestName(holes: seq<Hole>, name: string) {
    exists h | h in holes :: h.rest && HasSuffix(h.name, name)
  }

  lemma EndsRestNameCons(h: Hole, holes: seq<Hole>, name: string)
    ensures EndsRestName([h] + holes, name) <==> (h.rest && HasSuffix(h.name, name)) || EndsRestName(holes, name)
  {
    assert ([h] + holes)[0] == h;
    assert forall g | g in holes :: g in [h] + holes;
  }

  /** The search finds exactly the rest-of-path placeholders whose name ends with the variable's, that
      is its own and that of a variable with a longer name, and the text itself among the literals. */
  lemma {:induction false} SearchFindsExactly(ts: seq<Token>, name: string)
    requires Plain(ts) && PlainName(name)
    ensures Contains(Show(ts), name + "...") <==> EndsRestName(Holes(ts), name) || HasText(ts, name + "...")
  {
    assert BraceFree(name);
    if ts == [] {
      NothingContains(name);
    } else {
      var t, rest := ts[0], ts[1..];
      assert ts == [t] + rest && t in ts && forall x | x in rest :: x in ts;
      SearchFindsExactly(rest, name);
      PrefixExactly(ts, name);
      assert PlainToken(t);
      var later := HasText(rest, name + "...");
      if t.Ch? {
        SearchPastChar(t.c, rest, name, later);
      } else {
        NoTextAtHole(t.hole, rest, name);
        SearchPastHole(t.hole, rest, name, later);
      }
    }
  }

  lemma NothingContains(name: string)
    ensures !Contains("", name + "...") && !EndsRestName([], name) && !HasText([], name + "...")
  {
    assert (name + "...")[|name|] == '.';
  }

  lemma NoTextAtHole(h: Hole, rest: seq<Token>, name: string)
    ensures !TextAt([Var(h)] + rest, name + "...")
  {
    assert ([Var(h)] + rest)[0] == Var(h) && |name + "..."| > 0;
  }

  lemma SearchPastChar(c: char, rest: seq<Token>, name: string, later: bool)
    requires Contains(Show(rest), name + "...") <==> EndsRestName(Holes(rest), name) || later
    ensures Contains(Show([Ch(c)] + rest), name + "...")
      <==> name + "..." <= Show([Ch(c)] + rest) || EndsRestName(Holes([Ch(c)] + rest), name) || later
  {
    assert ([Ch(c)] + rest)[1..] == rest;
    assert Show([Ch(c)] + rest) == [c] + Show(rest);
    assert Holes([Ch(c)] + rest) == [] + Holes(rest) && [] + Holes(rest) == Holes(rest);
    ContainsCons(c, Show(rest), name + "...");
  }

  lemma ContainsLater(a: string, b: string, sub: string)
    requires Contains(b, sub)
    ensures Contains(a + b, sub)
  {
    var i := IndexOf(b, sub);
    IndexOfOccurs(b, sub);
    assert (a + b)[|a| + i..] == b[i..];
    IndexOfIsFirst(a + b, sub, |a| + i);
  }

  /** A rest-of-path placeholder is always found under its own name. */
  lemma {:induction false} RestIsFound(ts: seq<Token>, name: string)
    requires Var(Hole(name, true)) in ts
    ensures Contains(Show(ts), name + "...")
  {
    var rest := ts[1..];
    assert ts == [ts[0]] + rest;
    if ts[0] == Var(Hole(name, true)) {
      var tail := ['}'] + Show(rest);
      assert Show(ts) == ['{'] + (name + "..." + tail);
      assert Show(ts)[1..] == name + "..." + tail && name + "..." <= Show(ts)[1..];
      IndexOfIsFirst(Show(ts), name + "...", 1);
    } else {
      RestIsFound(rest, name);
      ContainsLater(ShowToken(ts[0]), Show(rest), name + "...");
    }
  }

  lemma ShowHoleThen(h: Hole, rest: seq<Token>)
    ensures Show([Var(h)] + rest) == ['{'] + (Inner(h) + ['}'] + Show(rest))
    ensures Holes([Var(h)] + rest) == [h] + Holes(rest)
  {
    assert ([Var(h)] + rest)[1..] == rest;
    assert Placeholder(h) + Show(rest) == ['{'] + (Inner(h) + ['}'] + Show(rest));
  }

  lemma {:induction false} SearchPastHole(h: Hole, rest: seq<Token>, name: string, later: bool)
    requires PlainName(h.name) && PlainName(name) && !(name + "..." <= Show([Var(h)] + rest))
    requires Contains(Show(rest), name + "...") <==> EndsRestName(Holes(rest), name) || later
    ensures Contains(Show([Var(h)] + rest), name + "...") <==> EndsRestName(Holes([Var(h)] + rest), name) || later
  {
    var sub := name + "...";
    assert BraceFree(sub);
    ShowHoleThen(h, rest);
    InnerContains(h, name);
    OccurrenceStaysOnOneSide(Inner(h), '}', Show(rest), sub);
    ContainsCons('{', Inner(h) + ['}'] + Show(rest), sub);
    EndsRestNameCons(h, Holes(rest), name);
  }

  // ---- the extractors ----

  /** Go: two wildcards are split; with more, every placeholder gets the whole field. */
  function GoExtract(v: PathVar, msg: Message): string {
    match v.multi
    case None => Get(msg, v.fieldPath)
    case Some(m) =>
      if |m.names| == 2 && |m.seps| == 1 then SplitMultiWildcard(Get(msg, m.fieldPath), m.prefix, m.seps[0], m.idx)
      else Get(msg, m.fieldPath)
  }

  function GoRaw(v: PathVar, msg: Message): string { TrimPrefix(GoExtract(v, msg), v.prefix) }

  function GoRaws(vars: seq<PathVar>, msg: Message): (r: seq<string>)
    ensures |r| == |vars| && forall i | 0 <= i < |vars| :: r[i] == GoRaw(vars[i], msg)
  {
    seq(|vars|, i requires 0 <= i < |vars| => GoRaw(vars[i], msg))
  }

  function PyExtract(v: SharedVar, msg: Message): string {
    match v.multi
    case None => Get(msg, v.fieldPath)
    case Some(m) => SplitN(Get(msg, v.fieldPath), m.prefix, m.seps, m.idx)
  }

  function PyRaw(v: SharedVar, msg: Message): string { TrimPrefix(PyExtract(v, msg), v.prefix) }

  function PyRaws(vars: seq<SharedVar>, msg: Message): (r: seq<string>)
    ensures |r| == |vars| && forall i | 0 <= i < |vars| :: r[i] == PyRaw(vars[i], msg)
  {
    seq(|vars|, i requires 0 <= i < |vars| => PyRaw(vars[i], msg))
  }

  /** TypeScript strips the prefix wherever it first occurs. */
  function TsRaw(v: SharedVar, msg: Message): string {
    match v.multi
    case None => ReplaceFirst(Get(msg, v.fieldPath), v.prefix, "")
    case Some(m) => SplitN(Get(msg, v.fieldPath), m.prefix, m.seps, m.idx)
  }

  function TsRaws(vars: seq<SharedVar>, msg: Message): (r: seq<string>)
    ensures |r| == |vars| && forall i | 0 <= i < |vars| :: r[i] == TsRaw(vars[i], msg)
  {
    seq(|vars|, i requires 0 <= i < |vars| => TsRaw(vars[i], msg))
  }

  // ---- filling the template ----

  predicate OctetValues(raws: seq<string>) { forall r | r in raws :: Octets(r) }

  lemma OctetMap(holes: seq<Hole>, raws: seq<string>)
    requires |holes| == |raws| && OctetValues(raws)
    ensures AllOctets(ValueMap(holes, raws))
  {
  }

  /** Every placeholder replaced once, in order. */
  function FillTemplate(codec: Codec, template: string, holes: seq<Hole>, raws: seq<string>): string
    requires |holes| == |raws| && OctetValues(raws)
  {
    OctetMap(holes, raws);
    FillInOrder(template, holes, Escaped(codec, ValueMap(holes, raws)))
  }

  /** Every placeholder replaced throughout, in order. */
  function FillTemplateAll(codec: Codec, template: string, holes: seq<Hole>, raws: seq<string>): string
    requires |holes| == |raws| && OctetValues(raws)
  {
    OctetMap(holes, raws);
    FillAllInOrder(template, holes, Escaped(codec, ValueMap(holes, raws)))
  }

  /** One round of the loops: `done` holes are filled, h is next. */
  lemma {:induction false} FillStep(codec: Codec, url: string, holes: seq<Hole>, raws: seq<string>, done: seq<Hole>,
                                    h: Hole, left: seq<Hole>)
    requires |holes| == |raws| && Distinct(holes) && OctetValues(raws) && holes == done + ([h] + left)
    ensures AllOctets(ValueMap(holes, raws)) && Octets(raws[|done|])
    ensures var escaped, one := Escaped(codec, ValueMap(holes, raws)), EscapeVar(codec, raws[|done|], h.rest);
      && FillInOrder(url, [h] + left, escaped) == FillInOrder(ReplaceFirst(url, Placeholder(h), one), left, escaped)
      && FillAllInOrder(url, [h] + left, escaped) == FillAllInOrder(ReplaceAll(url, Placeholder(h), one), left, escaped)
  {
    OctetMap(holes, raws);
    assert holes[|done|] == h && raws[|done|] in raws;
    ValueAt(holes, raws, |done|);
    assert ([h] + left)[0] == h && ([h] + left)[1..] == left;
  }

  /** The body of CallRequest's loop: strip the prefix, escape, replace once. */
  method FillOne(codec: Codec, urlPath: string, hole: Hole, prefix: string, extracted: string) returns (next: string)
    requires PlainName(hole.name) && Octets(TrimPrefix(extracted, prefix))
    ensures next == ReplaceFirst(urlPath, Placeholder(hole), EscapeVar(codec, TrimPrefix(extracted, prefix), hole.rest))
  {
    var val := extracted;
    if prefix != "" { val := TrimPrefix(val, prefix); }
    PlaceholderSuffix(hole);
    var text := EscapePathVar(codec, val, Placeholder(hole));
    next := ReplaceFirst(urlPath, Placeholder(hole), text);
  }

  /** CallRequest's loop. `extracted` holds what the extractor returned for each placeholder. */
  method FillPath(codec: Codec, template: string, holes: seq<Hole>, prefixes: seq<string>, extracted: seq<string>,
                  ghost raws: seq<string>)
    returns (urlPath: string)
    requires |holes| == |prefixes| == |extracted| == |raws| && Distinct(holes) && OctetValues(raws)
    requires forall i | 0 <= i < |raws| :: raws[i] == TrimPrefix(extracted[i], prefixes[i]) && PlainName(holes[i].name)
    ensures urlPath == FillTemplate(codec, template, holes, raws)
  {
    urlPath := template;
    OctetMap(holes, raws);
    ghost var escaped, goal := Escaped(codec, ValueMap(holes, raws)), FillTemplate(codec, template, holes, raws);
    ghost var done, left := [], holes;
    var i := 0;
    while i < |holes|
      invariant i == |done| && holes == done + left
      invariant FillInOrder(urlPath, left, escaped) == goal
    {
      NextElement(holes, done, left);
      Assoc(done, [holes[i]], left[1..]);
      FillStep(codec, urlPath, holes, raws, done, holes[i], left[1..]);
      urlPath := FillOne(codec, urlPath, holes[i], prefixes[i], extracted[i]);
      done, left := done + [holes[i]], left[1..];
      i := i + 1;
    }
  }

  /** The body of the loop of Python's Client.call: replace throughout. */
  method FillEvery(codec: Codec, url: string, hole: Hole, prefix: string, extracted: string) returns (next: string)
    requires codec.Valid() && PlainName(hole.name) && Octets(TrimPrefix(extracted, prefix))
    ensures next == ReplaceAll(url, Placeholder(hole), EscapeVar(codec, TrimPrefix(extracted, prefix), hole.rest))
  {
    var val := extracted;
    if prefix != "" { val := TrimPrefix(val, prefix); }
    PlaceholderSuffix(hole);
    RestIsOnePass(codec, val);
    var text := EscapeText(if HasSuffix(Placeholder(hole), "...}") then codec.WithSlash() else codec, val);
    next := ReplaceAll(url, Placeholder(hole), text);
  }

  /** The loop of Python's Client.call. */
  method FillUrl(codec: Codec, template: string, holes: seq<Hole>, prefixes: seq<string>, extracted: seq<string>,
                 ghost raws: seq<string>)
    returns (url: string)
    requires codec.Valid()
    requires |holes| == |prefixes| == |extracted| == |raws| && Distinct(holes) && OctetValues(raws)
    requires forall i | 0 <= i < |raws| :: raws[i] == TrimPrefix(extracted[i], prefixes[i]) && PlainName(holes[i].name)
    ensures url == FillTemplateAll(codec, template, holes, raws)
  {
    url := template;
    OctetMap(holes, raws);
    ghost var escaped, goal := Escaped(codec, ValueMap(holes, raws)), FillTemplateAll(codec, template, holes, raws);
    ghost var done, left := [], holes;
    var i := 0;
    while i < |holes|
      invariant i == |done| && holes == done + left
      invariant FillAllInOrder(url, left, escaped) == goal
    {
      NextElement(holes, done, left);
      Assoc(done, [holes[i]], left[1..]);
      FillStep(codec, url, holes, raws, done, holes[i], left[1..]);
      url := FillEvery(codec, url, holes[i], prefixes[i], extracted[i]);
      done, left := done + [holes[i]], left[1..];
      i := i + 1;
    }
  }
}
