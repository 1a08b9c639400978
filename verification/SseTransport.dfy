/** pathVarSSETransport: placeholders are replaced in the escaped path, and the path is then decoded
    from it. Substitution in escaped space is shown to be substitution in decoded space, and the
    latter to be right exactly as long as no earlier text contains the placeholder looked for. */
module SseTransport {
  import opened Text
  import opened Escape
  import opened Template
  import opened Clients
  import opened NetUrl

  predicate SafeName(name: string) { PlainName(name) && forall c | c in name :: IsUnreserved(c) }

  // ---- replacing in escaped space ----

  /** Text that has only one encoding. */
  predicate Rigid(s: string) { forall c | c in s :: (IsUnreserved(c) || IsEscaped(c)) && c < 256 as char }

  function Rigidly(s: string): string
    requires Rigid(s)
  {
    if s == "" then ""
    else
      assert s[0] in s && forall c | c in s[1..] :: c in s;
      (if IsEscaped(s[0]) then Hex(s[0]) else [s[0]]) + Rigidly(s[1..])
  }

  lemma {:induction false} RigidEscape(codec: Codec, s: string)
    requires Rigid(s) && Faithful(codec) && Octets(s)
    ensures EscapeText(codec, s) == Rigidly(s)
  {
    if s != "" {
      assert s[0] in s && forall c | c in s[1..] :: c in s;
      RigidEscape(codec, s[1..]);
    }
  }

  /** The encoding of rigid text is found in `raw` exactly where the text is found in `path`. */
  lemma {:induction false} RigidPrefix(raw: string, path: string, s: string)
    requires Encodes(raw, path) && Rigid(s)
    ensures Rigidly(s) <= raw <==> s <= path
    ensures s <= path ==> Encodes(raw[|Rigidly(s)|..], path[|s|..])
  {
    if s != "" {
      var c := s[0];
      assert c in s && forall x | x in s[1..] :: x in s;
      var head := if IsEscaped(c) then Hex(c) else [c];
      if path != "" {
        var n := if raw[0] == '%' then 3 else 1;
        assert raw == raw[..n] + raw[n..] && path == [path[0]] + path[1..] && s == [c] + s[1..];
        if path[0] == c {
          assert raw[..n] == head;
          RigidPrefix(raw[n..], path[1..], s[1..]);
          SamePrefix(head, Rigidly(s[1..]), raw[n..]);
          SamePrefix([c], s[1..], path[1..]);
        } else {
          HeadsDiffer(c, path[0], raw);
        }
      }
    }
  }

  lemma SamePrefix(head: string, a: string, b: string)
    ensures head + a <= head + b <==> a <= b
    ensures (head + b)[|head|..] == b
    ensures a <= b ==> (head + b)[|head + a|..] == b[|a|..]
  {
    if head + a <= head + b { assert b[..|a|] == (head + b)[|head|..|head + a|]; }
    if a <= b { assert (head + b)[..|head + a|] == head + a; }
  }

  lemma HeadsDiffer(c: char, d: char, raw: string)
    requires c != d && c < 256 as char && d < 256 as char && (IsUnreserved(c) || IsEscaped(c)) && raw != ""
    requires if raw[0] == '%' then !IsUnreserved(d) && Hex(d) <= raw else raw[0] == d
    ensures !((if IsEscaped(c) then Hex(c) else [c]) <= raw)
  {
    if IsEscaped(c) && raw[0] == '%' {
      HexIsInjective(c, d);
      assert raw[..3] == Hex(d);
    }
  }

  lemma {:induction false} PassOther(s: string, old_: string, new_: string)
    requires s != "" && old_ != "" && old_[0] != s[0]
    ensures ReplaceFirst(s, old_, new_) == [s[0]] + ReplaceFirst(s[1..], old_, new_)
  {
  }

  lemma {:induction false} ReplacePastUnit(raw: string, n: nat, old_: string, new_: string)
    requires old_ != "" && old_[0] == '%' && !(old_ <= raw)
    requires (n == 1 && raw != "") || (n == 3 && |raw| >= 3 && raw[1] != '%' && raw[2] != '%')
    ensures ReplaceFirst(raw, old_, new_) == raw[..n] + ReplaceFirst(raw[n..], old_, new_)
  {
    if n == 3 {
      PassOther(raw[1..], old_, new_);
      PassOther(raw[2..], old_, new_);
      assert raw[1..][1..] == raw[2..] && raw[2..][1..] == raw[3..];
      assert ReplaceFirst(raw, old_, new_) == [raw[0]] + ([raw[1]] + ([raw[2]] + ReplaceFirst(raw[3..], old_, new_)));
      assert raw[..3] == [raw[0], raw[1], raw[2]];
    }
  }

  /** One replacement in escaped space is one replacement in decoded space. */
  lemma {:induction false} ReplaceEncoded(raw: string, path: string, s: string, escaped: string, value: string)
    requires Encodes(raw, path) && Encodes(escaped, value) && Rigid(s) && s != "" && IsEscaped(s[0])
    ensures Encodes(ReplaceFirst(raw, Rigidly(s), escaped), ReplaceFirst(path, s, value))
  {
    RigidPrefix(raw, path, s);
    if s <= path {
      EncodingsJoin(escaped, value, raw[|Rigidly(s)|..], path[|s|..]);
    } else if path != "" {
      var n := if raw[0] == '%' then 3 else 1;
      ReplaceEncoded(raw[n..], path[1..], s, escaped, value);
      ReplacePastUnit(raw, n, Rigidly(s), escaped);
      UnitEncodes(raw, path, n);
      EncodingsJoin(raw[..n], [path[0]], ReplaceFirst(raw[n..], Rigidly(s), escaped),
                    ReplaceFirst(path[1..], s, value));
    }
  }

  // ---- the transport ----

  /** One pair yielded by the extractor. */
  datatype Pair = Pair(hole: Hole, value: string)

  predicate GoodPairs(pairs: seq<Pair>) { forall y | y in pairs :: SafeName(y.hole.name) && Octets(y.value) }

  /** Replacing in the decoded path, one pair after the other. */
  function FillPairs(path: string, pairs: seq<Pair>): string
    decreases |pairs|
  {
    if pairs == [] then path
    else FillPairs(ReplaceFirst(path, Placeholder(pairs[0].hole), pairs[0].value), pairs[1..])
  }

  /** The same in escaped space, with url.PathEscape and escapePathVar. */
  function FillRaw(raw: string, pairs: seq<Pair>): string
    requires GoodPairs(pairs)
    decreases |pairs|
  {
    if pairs == [] then raw
    else
      var y := pairs[0];
      assert y in pairs && forall p | p in pairs[1..] :: p in pairs;
      PlaceholderIsRigid(y.hole);
      FillRaw(ReplaceFirst(raw, EscapeText(GoCodec(), Placeholder(y.hole)),
                          EscapeVar(GoCodec(), y.value, y.hole.rest)), pairs[1..])
  }

  lemma OneFill(raw: string, y: Pair)
    requires GoodPairs([y]) && Octets(Placeholder(y.hole)) && Octets(y.value)
    ensures FillRaw(raw, [y]) == ReplaceFirst(raw, EscapeText(GoCodec(), Placeholder(y.hole)),
                                              EscapeVar(GoCodec(), y.value, y.hole.rest))
  {
    assert [y][0] == y && [y][1..] == [];
  }

  /** Whatever is yielded, and in whatever order, replacing in escaped space and decoding is
      replacing in decoded space. */
  lemma {:induction false} EscapedSpaceIsDecodedSpace(raw: string, path: string, pairs: seq<Pair>)
    requires Encodes(raw, path) && GoodPairs(pairs)
    ensures Encodes(FillRaw(raw, pairs), FillPairs(path, pairs))
    decreases |pairs|
  {
    if pairs != [] {
      var y := pairs[0];
      assert y in pairs && forall p | p in pairs[1..] :: p in pairs;
      PlaceholderIsRigid(y.hole);
      EscapeVarEncodes(y.value, y.hole.rest);
      var escaped := EscapeVar(GoCodec(), y.value, y.hole.rest);
      ReplaceEncoded(raw, path, Placeholder(y.hole), escaped, y.value);
      EscapedSpaceIsDecodedSpace(ReplaceFirst(raw, Rigidly(Placeholder(y.hole)), escaped),
                                 ReplaceFirst(path, Placeholder(y.hole), y.value), pairs[1..]);
    }
  }

  lemma PlaceholderIsRigid(h: Hole)
    requires SafeName(h.name)
    ensures Rigid(Placeholder(h)) && Octets(Placeholder(h))
    ensures EscapeText(GoCodec(), Placeholder(h)) == Rigidly(Placeholder(h))
  {
    var p := Placeholder(h);
    assert forall c | c in p :: c in h.name || c == '{' || c == '}' || c == '.';
    assert forall i | 0 <= i < |p| :: p[i] in p;
    CodecsAreFaithful();
    RigidEscape(GoCodec(), p);
  }

  lemma {:induction false} RigidDecodes(s: string)
    requires Rigid(s)
    ensures Unescape(Rigidly(s)).Text?
  {
    CodecsAreFaithful();
    assert Octets(s) by { assert forall i | 0 <= i < |s| :: s[i] in s; }
    RigidEscape(PathCodec(), s);
    EscapingEncodes(PathCodec(), s);
    EncodingDecodes(Rigidly(s), s);
  }

  /** Replacing an encoded placeholder leaves no broken escape, in any raw path. */
  lemma {:induction false} ReplaceDecodes(raw: string, old_: string, new_: string)
    requires Unescape(raw).Text? && Unescape(old_).Text? && Unescape(new_).Text? && old_ != "" && old_[0] == '%'
    ensures Unescape(ReplaceFirst(raw, old_, new_)).Text?
  {
    if old_ <= raw {
      assert raw == old_ + raw[|old_|..];
      UnescapeSum(old_, raw[|old_|..]);
      UnescapeSum(new_, raw[|old_|..]);
    } else if raw != "" {
      var n := if raw[0] == '%' then 3 else 1;
      ReplaceDecodes(raw[n..], old_, new_);
      ReplacePastUnit(raw, n, old_, new_);
      assert raw == raw[..n] + raw[n..];
      FirstUnitDecodes(raw, n);
      UnescapeSum(raw[..n], ReplaceFirst(raw[n..], old_, new_));
    }
  }

  /** Do, on the request's URL: `path` is its decoded path, `rawPath` the raw form it came with.
      Decoding the new raw path never fails, and the path that goes out is that raw path. When the
      path goes out in its own encoding, which it does whenever the URL was parsed from text with a
      placeholder, the new path is the old one with every pair replaced, and the new raw path has no
      brace in it. */
  method SubstitutePath(url: Url, pairs: seq<Pair>) returns (r: Url)
    requires Octets(url.path) && GoodPairs(pairs)
    ensures var raw := FillRaw(EscapedPath(url), pairs);
      && Unescape(raw).Text?
      && r == if raw == EscapedPath(url) then url else Url(Unescape(raw).text, raw)
    ensures Octets(r.path) && EscapedPath(r) == FillRaw(EscapedPath(url), pairs)
    ensures Encodes(EscapedPath(url), url.path) ==> r.path == FillPairs(url.path, pairs)
    ensures Encodes(EscapedPath(url), url.path) && r != url ==> BraceFree(r.rawPath)
  {
    var rawTemplate := EscapedPath(url);
    EscapedPathDecodes(url);
    var newRawPath := rawTemplate;
    ghost var done, left := [], pairs;
    var i := 0;
    while i < |pairs|
      invariant i == |done| && pairs == done + left && GoodPairs(left)
      invariant Unescape(newRawPath).Text? && FillRaw(newRawPath, left) == FillRaw(rawTemplate, pairs)
    {
      var y := pairs[i];
      NextElement(pairs, done, left);
      assert left[0] == y && forall p | p in left[1..] :: p in left;
      PlaceholderIsRigid(y.hole);
      PairDecodes(newRawPath, y);
      newRawPath := ReplaceFirst(newRawPath, EscapeText(GoCodec(), Placeholder(y.hole)),
                          EscapeVar(GoCodec(), y.value, y.hole.rest));
      done, left := done + [y], left[1..];
      i := i + 1;
    }
    EncodedIsDecoded(url, pairs);
    SentAsIntended(url, pairs);
    if newRawPath == rawTemplate {
      return url;
    }
    var decoded := Unescape(newRawPath);
    r := Url(decoded.text, newRawPath);
  }

  // ---- net/http writes the raw path that was intended ----

  lemma {:induction false} ReplacedIsRaw(raw: string, old_: string, new_: string)
    requires AllRaw(raw) && AllRaw(new_)
    ensures AllRaw(ReplaceFirst(raw, old_, new_))
  {
    if old_ <= raw {
      assert forall c | c in raw[|old_|..] :: c in raw;
    } else if raw != "" {
      assert raw[0] in raw && forall c | c in raw[1..] :: c in raw;
      ReplacedIsRaw(raw[1..], old_, new_);
    }
  }

  lemma {:induction false} FilledIsRaw(raw: string, pairs: seq<Pair>)
    requires AllRaw(raw) && GoodPairs(pairs)
    ensures AllRaw(FillRaw(raw, pairs))
    decreases |pairs|
  {
    if pairs != [] {
      var y := pairs[0];
      assert y in pairs && forall p | p in pairs[1..] :: p in pairs;
      PlaceholderIsRigid(y.hole);
      VarIsRaw(y.value, y.hole.rest);
      var old_ := EscapeText(GoCodec(), Placeholder(y.hole));
      ReplacedIsRaw(raw, old_, EscapeVar(GoCodec(), y.value, y.hole.rest));
      FilledIsRaw(ReplaceFirst(raw, old_, EscapeVar(GoCodec(), y.value, y.hole.rest)), pairs[1..]);
    }
  }

  /** Path and raw path agree, and the raw path is a valid encoding, so it is what EscapedPath gives. */
  lemma {:induction false} SentAsIntended(url: Url, pairs: seq<Pair>)
    requires Octets(url.path) && GoodPairs(pairs)
    ensures var raw := FillRaw(EscapedPath(url), pairs);
      Unescape(raw).Text? ==> Octets(Unescape(raw).text) && EscapedPath(Url(Unescape(raw).text, raw)) == raw
  {
    var raw := FillRaw(EscapedPath(url), pairs);
    EscapedPathIsRaw(url);
    FilledIsRaw(EscapedPath(url), pairs);
    if Unescape(raw).Text? {
      RawIsOctets(raw);
      UnescapedOctets(raw);
      if raw == "" { assert EscapeText(PathCodec(), "") == ""; }
    }
  }

  lemma PairDecodes(raw: string, y: Pair)
    requires Unescape(raw).Text? && SafeName(y.hole.name) && Octets(y.value)
    ensures Octets(Placeholder(y.hole))
    ensures Unescape(ReplaceFirst(raw, EscapeText(GoCodec(), Placeholder(y.hole)),
                        EscapeVar(GoCodec(), y.value, y.hole.rest))).Text?
  {
    PlaceholderIsRigid(y.hole);
    RigidDecodes(Placeholder(y.hole));
    EscapeVarEncodes(y.value, y.hole.rest);
    EncodingDecodes(EscapeVar(GoCodec(), y.value, y.hole.rest), y.value);
    ReplaceDecodes(raw, EscapeText(GoCodec(), Placeholder(y.hole)), EscapeVar(GoCodec(), y.value, y.hole.rest));
  }

  /** In the path's own encoding, the new raw path decodes to the filled path. */
  lemma EncodedIsDecoded(url: Url, pairs: seq<Pair>)
    requires Octets(url.path) && GoodPairs(pairs)
    ensures Encodes(EscapedPath(url), url.path) ==>
      var raw := FillRaw(EscapedPath(url), pairs); Unescape(raw) == Text(FillPairs(url.path, pairs)) && BraceFree(raw)
    ensures Unescape(EscapedPath(url)) == Text(url.path)
  {
    EscapedPathDecodes(url);
    if Encodes(EscapedPath(url), url.path) {
      EscapedSpaceIsDecodedSpace(EscapedPath(url), url.path, pairs);
      EncodingDecodes(FillRaw(EscapedPath(url), pairs), FillPairs(url.path, pairs));
    }
  }

  // ---- when every pair fills its own placeholder ----

  predicate OctetToken(t: Token) { if t.Ch? then t.c < 256 as char else SafeName(t.hole.name) }

  predicate OctetTokens(ts: seq<Token>) {
    forall t | t in ts :: OctetToken(t)
  }

  predicate OctetMap(m: map<Hole, string>) { forall h | h in m :: Octets(m[h]) }

  /** The raw path of a partly filled template: text escaped, placeholders escaped as they are, and
      values escaped as path variables. */
  function RawShow(ts: seq<Token>, m: map<Hole, string>): string
    requires OctetTokens(ts) && OctetMap(m)
  {
    if ts == [] then ""
    else
      assert ts[0] in ts && forall t | t in ts[1..] :: t in ts;
      RawToken(ts[0], m) + RawShow(ts[1..], m)
  }

  function RawToken(t: Token, m: map<Hole, string>): string
    requires OctetToken(t) && OctetMap(m)
  {
    match t
    case Ch(c) => EscapeByte(PathCodec(), c)
    case Var(h) =>
      PlaceholderIsRigid(h);
      if h in m then EscapeVar(GoCodec(), m[h], h.rest) else Rigidly(Placeholder(h))
  }

  function ShowFilled(ts: seq<Token>, m: map<Hole, string>): string { Show(Subst(ts, m)) }

  lemma OneToken(t: Token)
    ensures Show([t]) == ShowToken(t)
  {
    assert [t][1..] == [] && ShowToken(t) + "" == ShowToken(t);
  }

  lemma RawTokenEncodes(t: Token, m: map<Hole, string>)
    requires OctetToken(t) && OctetMap(m)
    ensures Encodes(RawToken(t, m), ShowFilled([t], m))
  {
    CodecsAreFaithful();
    assert [t][1..] == [];
    match t
    case Ch(c) =>
      EscapingEncodes(PathCodec(), [c]);
      assert [c][1..] == "";
      assert Subst([t], m) == [t];
      OneToken(t);
      assert EscapeText(PathCodec(), [c]) == EscapeByte(PathCodec(), c);
    case Var(h) =>
      if h in m {
        EscapeVarEncodes(m[h], h.rest);
        ShowChars(m[h]);
        assert Subst([t], m) == Chars(m[h]);
      } else {
        PlaceholderIsRigid(h);
        EscapingEncodes(GoCodec(), Placeholder(h));
        assert Subst([t], m) == [t];
        OneToken(t);
      }
  }

  lemma {:induction false} FilledConcat(a: seq<Token>, b: seq<Token>, m: map<Hole, string>)
    ensures ShowFilled(a + b, m) == ShowFilled(a, m) + ShowFilled(b, m)
  {
    SubstConcat(a, b, m);
    ShowConcat(Subst(a, m), Subst(b, m));
  }

  lemma {:induction false} RawShowEncodes(ts: seq<Token>, m: map<Hole, string>)
    requires OctetTokens(ts) && OctetMap(m)
    ensures Encodes(RawShow(ts, m), ShowFilled(ts, m))
  {
    if ts != [] {
      assert ts == [ts[0]] + ts[1..] && ts[0] in ts && forall t | t in ts[1..] :: t in ts;
      RawShowEncodes(ts[1..], m);
      RawTokenEncodes(ts[0], m);
      FilledConcat([ts[0]], ts[1..], m);
      EncodingsJoin(RawToken(ts[0], m), ShowFilled([ts[0]], m), RawShow(ts[1..], m), ShowFilled(ts[1..], m));
    }
  }

  /** What precedes the placeholder in the template. */
  function BeforeHole(ts: seq<Token>, h: Hole): (r: seq<Token>)
    ensures |r| <= |ts| && r == ts[..|r|] && Var(h) !in r
    ensures Var(h) in ts ==> |r| < |ts| && ts[|r|] == Var(h)
  {
    if ts == [] || ts[0] == Var(h) then []
    else
      var r := [ts[0]] + BeforeHole(ts[1..], h);
      assert ts == [ts[0]] + ts[1..];
      r
  }

  /** Nothing before the placeholder, as filled so far, looks like it. */
  predicate StepSafe(ts: seq<Token>, m: map<Hole, string>, h: Hole) {
    Var(h) in ts && h !in m && !Contains(ShowFilled(BeforeHole(ts, h), m), Placeholder(h))
  }

  /** The same for every pair in turn. */
  predicate Untouched(ts: seq<Token>, m: map<Hole, string>, pairs: seq<Pair>)
    decreases |pairs|
  {
    pairs == [] || (StepSafe(ts, m, pairs[0].hole) && Untouched(ts, m[pairs[0].hole := pairs[0].value], pairs[1..]))
  }

  function Filled(m: map<Hole, string>, pairs: seq<Pair>): map<Hole, string>
    decreases |pairs|
  {
    if pairs == [] then m else Filled(m[pairs[0].hole := pairs[0].value], pairs[1..])
  }

  /** Before position |a|, `s` does not occur in a + b. */
  predicate NotBefore(a: string, b: string, s: string) {
    forall k | 0 <= k < |a| :: !(s <= (a + b)[k..])
  }

  lemma NotBeforeTail(a: string, b: string, s: string)
    requires a != "" && NotBefore(a, b, s)
    ensures NotBefore(a[1..], b, s) && !(s <= a + b)
  {
    assert (a + b)[0..] == a + b;
    forall k | 0 <= k < |a[1..]|
      ensures !(s <= (a[1..] + b)[k..])
    {
      assert (a[1..] + b)[k..] == (a + b)[k + 1..];
    }
  }

  /** Replacement walks over one unit of an encoding in which the text is not found here. */
  lemma ReplacePastHead(raw: string, path: string, s: string, escaped: string)
    requires Encodes(raw, path) && path != "" && Rigid(s) && s != "" && IsEscaped(s[0]) && !(s <= path)
    ensures var n := if raw[0] == '%' then 3 else 1;
      n <= |raw| && ReplaceFirst(raw, Rigidly(s), escaped) == raw[..n] + ReplaceFirst(raw[n..], Rigidly(s), escaped)
  {
    RigidPrefix(raw, path, s);
    ReplacePastUnit(raw, if raw[0] == '%' then 3 else 1, Rigidly(s), escaped);
  }

  lemma {:induction false} ReplaceIsAt(rawA: string, a: string, rawB: string, b: string, s: string, escaped: string)
    requires Encodes(rawA, a) && Encodes(rawB, b) && Rigid(s) && s != "" && IsEscaped(s[0]) && NotBefore(a, b, s)
    ensures ReplaceFirst(rawA + rawB, Rigidly(s), escaped) == rawA + ReplaceFirst(rawB, Rigidly(s), escaped)
  {
    if a == "" {
      assert rawA + rawB == rawB;
    } else {
      var n := if rawA[0] == '%' then 3 else 1;
      NotBeforeTail(a, b, s);
      ReplaceIsAt(rawA[n..], a[1..], rawB, b, s, escaped);
      EncodingsJoin(rawA, a, rawB, b);
      ReplacePastHead(rawA + rawB, a + b, s, escaped);
      FirstUnit(rawA, rawB, n);
      Assoc(rawA[..n], rawA[n..], ReplaceFirst(rawB, Rigidly(s), escaped));
    }
  }

  lemma {:induction false} FirstIsOwn(before: string, h: Hole, tail: string)
    requires PlainName(h.name)
    ensures NotBefore(before, Placeholder(h) + tail, Placeholder(h)) <==> !Contains(before, Placeholder(h))
  {
    var p := Placeholder(h);
    var all := before + (p + tail);
    if !Contains(before, p) {
      forall k | 0 <= k < |before|
        ensures !(p <= all[k..])
      {
        OccursInside(before, h, tail, k);
      }
    } else {
      var k := IndexOf(before, p);
      IndexOfOccurs(before, p);
      assert k + |p| <= |before| && all[k..] == before[k..] + (p + tail);
      assert p <= all[k..];
    }
  }

  lemma OccursInside(before: string, h: Hole, tail: string, k: nat)
    requires PlainName(h.name) && k < |before| && !Contains(before, Placeholder(h))
    ensures !(Placeholder(h) <= (before + (Placeholder(h) + tail))[k..])
  {
    var p := Placeholder(h);
    var all := before + (p + tail);
    if k + |p| <= |before| {
      assert all[k..][..|p|] == before[k..][..|p|];
      if p <= before[k..] { IndexOfIsFirst(before, p, k); }
    } else {
      SelfOverlapInside(before, h, tail, k);
    }
  }

  /** A match that starts before the placeholder cannot reach into it. */
  lemma SelfOverlapInside(before: string, h: Hole, tail: string, k: nat)
    requires PlainName(h.name) && k < |before| < k + |Placeholder(h)|
    ensures !(Placeholder(h) <= (before + (Placeholder(h) + tail))[k..])
  {
    var p := Placeholder(h);
    var j := |before| - k;
    assert (before + (p + tail))[k..][j] == p[0];
    assert p[0] == '{' && (j < |p| - 1 ==> p[j] == Inner(h)[j - 1]);
    assert forall c | c in Inner(h) :: c in h.name || c == '.';
    if j < |p| - 1 { assert Inner(h)[j - 1] in Inner(h); }
  }

  lemma {:induction false} SplitAtHole(ts: seq<Token>, h: Hole)
    requires Var(h) in ts && Distinct(Holes(ts))
    ensures var a := BeforeHole(ts, h); var b := ts[|a| + 1..];
      ts == a + ([Var(h)] + b) && Var(h) !in a && Var(h) !in b
  {
    var a := BeforeHole(ts, h);
    var b := ts[|a| + 1..];
    CutAround(ts, |a|);
    HolesConcat(a, [Var(h)] + b);
    HolesAfter(h, b);
    DistinctEnd(Holes(a), [h] + Holes(b));
    DistinctTail(h, Holes(b));
  }

  lemma CutAround<T>(ts: seq<T>, i: nat)
    requires i < |ts|
    ensures ts == ts[..i] + ([ts[i]] + ts[i + 1..])
  {
  }

  lemma HolesAfter(h: Hole, b: seq<Token>)
    ensures Holes([Var(h)] + b) == [h] + Holes(b)
  {
    assert ([Var(h)] + b)[1..] == b;
  }

  lemma DistinctEnd<T>(a: seq<T>, b: seq<T>)
    requires Distinct(a + b)
    ensures Distinct(b)
  {
    assert forall i | 0 <= i < |b| :: b[i] == (a + b)[|a| + i];
  }

  lemma OtherKey(t: Token, m: map<Hole, string>, h: Hole, v: string)
    requires OctetToken(t) && OctetMap(m) && Octets(v) && t != Var(h)
    ensures OctetMap(m[h := v]) && RawToken(t, m[h := v]) == RawToken(t, m)
  {
  }

  lemma {:induction false} OtherKeys(ts: seq<Token>, m: map<Hole, string>, h: Hole, v: string)
    requires OctetTokens(ts) && OctetMap(m) && Octets(v) && Var(h) !in ts
    ensures OctetMap(m[h := v]) && RawShow(ts, m[h := v]) == RawShow(ts, m)
  {
    if ts != [] {
      assert ts[0] in ts && forall t | t in ts[1..] :: t in ts;
      OtherKey(ts[0], m, h, v);
      OtherKeys(ts[1..], m, h, v);
    }
  }

  lemma {:induction false} RawConcat(a: seq<Token>, b: seq<Token>, m: map<Hole, string>)
    requires OctetTokens(a) && OctetTokens(b) && OctetMap(m)
    ensures OctetTokens(a + b) && RawShow(a + b, m) == RawShow(a, m) + RawShow(b, m)
  {
    if a == [] {
      assert a + b == b;
    } else {
      assert a[0] in a && forall t | t in a[1..] :: t in a;
      RawConcat(a[1..], b, m);
      ConsConcat(a, b);
      Assoc(RawToken(a[0], m), RawShow(a[1..], m), RawShow(b, m));
    }
  }

  lemma {:induction false} RawAround(a: seq<Token>, h: Hole, b: seq<Token>, m: map<Hole, string>)
    requires OctetTokens(a) && OctetTokens(b) && SafeName(h.name) && OctetMap(m)
    ensures OctetTokens(a + ([Var(h)] + b))
    ensures RawShow(a + ([Var(h)] + b), m) == RawShow(a, m) + (RawToken(Var(h), m) + RawShow(b, m))
  {
    assert ([Var(h)] + b)[1..] == b;
    RawConcat(a, [Var(h)] + b, m);
  }

  lemma {:induction false} ReplaceAround(rawA: string, a: string, h: Hole, rawB: string, b: string, escaped: string)
    requires Encodes(rawA, a) && Encodes(rawB, b) && SafeName(h.name) && !Contains(a, Placeholder(h))
    ensures Rigid(Placeholder(h))
    ensures var e := Rigidly(Placeholder(h));
      ReplaceFirst(rawA + (e + rawB), e, escaped) == rawA + (escaped + rawB)
  {
    var p := Placeholder(h);
    PlaceholderIsRigid(h);
    CodecsAreFaithful();
    EscapingEncodes(GoCodec(), p);
    EncodingsJoin(Rigidly(p), p, rawB, b);
    FirstIsOwn(a, h, b);
    ReplaceIsAt(rawA, a, Rigidly(p) + rawB, p + b, p, escaped);
    ReplaceHits(rawB, Rigidly(p), escaped);
  }

  lemma PartsAreOctets(ts: seq<Token>, h: Hole)
    requires OctetTokens(ts) && Var(h) in ts
    ensures OctetTokens(BeforeHole(ts, h)) && SafeName(h.name)
    ensures OctetTokens(ts[|BeforeHole(ts, h)| + 1..])
  {
    assert OctetToken(Var(h));
  }

  /** One replacement fills the placeholder's own place. */
  lemma {:induction false} StepFills(ts: seq<Token>, m: map<Hole, string>, h: Hole, v: string)
    requires OctetTokens(ts) && OctetMap(m) && Octets(v) && Distinct(Holes(ts)) && StepSafe(ts, m, h)
    ensures OctetMap(m[h := v]) && Rigid(Placeholder(h))
    ensures ReplaceFirst(RawShow(ts, m), Rigidly(Placeholder(h)), EscapeVar(GoCodec(), v, h.rest))
      == RawShow(ts, m[h := v])
  {
    var a := BeforeHole(ts, h);
    var b := ts[|a| + 1..];
    SplitAtHole(ts, h);
    PartsAreOctets(ts, h);
    RawAround(a, h, b, m);
    OtherKeys(a, m, h, v);
    OtherKeys(b, m, h, v);
    RawAround(a, h, b, m[h := v]);
    RawShowEncodes(a, m);
    RawShowEncodes(b, m);
    ReplaceAround(RawShow(a, m), ShowFilled(a, m), h, RawShow(b, m), ShowFilled(b, m), EscapeVar(GoCodec(), v, h.rest));
  }

  /** When no step is misled, the raw path is the template with every yielded value escaped in its
      own place, every other placeholder still encoded, and the path is its decoding. */
  lemma {:induction false} EveryValueInItsPlace(ts: seq<Token>, m: map<Hole, string>, pairs: seq<Pair>)
    requires OctetTokens(ts) && OctetMap(m) && Distinct(Holes(ts)) && GoodPairs(pairs) && Untouched(ts, m, pairs)
    ensures OctetMap(Filled(m, pairs))
    ensures FillRaw(RawShow(ts, m), pairs) == RawShow(ts, Filled(m, pairs))
    ensures FillPairs(ShowFilled(ts, m), pairs) == ShowFilled(ts, Filled(m, pairs))
    decreases |pairs|
  {
    RawShowEncodes(ts, m);
    if pairs != [] {
      var y := pairs[0];
      assert y in pairs && forall p | p in pairs[1..] :: p in pairs;
      PlaceholderIsRigid(y.hole);
      StepFills(ts, m, y.hole, y.value);
      EveryValueInItsPlace(ts, m[y.hole := y.value], pairs[1..]);
    }
    EscapedSpaceIsDecodedSpace(RawShow(ts, m), ShowFilled(ts, m), pairs);
    RawShowEncodes(ts, Filled(m, pairs));
    EncodingDecodes(FillRaw(RawShow(ts, m), pairs), FillPairs(ShowFilled(ts, m), pairs));
    EncodingDecodes(RawShow(ts, Filled(m, pairs)), ShowFilled(ts, Filled(m, pairs)));
  }

  lemma {:induction false} RawEscape(s: string)
    requires Octets(s) && Rigid(s)
    ensures EscapeText(PathCodec(), s) == Rigidly(s)
  {
    CodecsAreFaithful();
    RigidEscape(PathCodec(), s);
  }

  /** EscapedPath of an unfilled template. */
  lemma {:induction false} TemplateIsRaw(ts: seq<Token>)
    requires OctetTokens(ts)
    ensures Octets(Show(ts)) && EscapeText(PathCodec(), Show(ts)) == RawShow(ts, map[])
    ensures ShowFilled(ts, map[]) == Show(ts)
  {
    SubstAbsent(ts, map[]);
    if ts != [] {
      assert ts[0] in ts && forall t | t in ts[1..] :: t in ts;
      TemplateIsRaw(ts[1..]);
      TokenIsRaw(ts[0]);
      EscapeConcat(PathCodec(), ShowToken(ts[0]), Show(ts[1..]));
    }
  }

  lemma TokenIsRaw(t: Token)
    requires OctetTokens([t])
    ensures Octets(ShowToken(t)) && EscapeText(PathCodec(), ShowToken(t)) == RawToken(t, map[])
  {
    assert t in [t];
    match t
    case Ch(c) => assert [c][1..] == "" && EscapeByte(PathCodec(), c) + "" == EscapeByte(PathCodec(), c);
    case Var(h) =>
      PlaceholderIsRigid(h);
      RawEscape(Placeholder(h));
  }

  // ---- and only then ----

  lemma {:induction false} ReplaceFirstAt(s: string, old_: string, new_: string)
    requires Contains(s, old_)
    ensures var i := IndexOf(s, old_);
      i + |old_| <= |s| && ReplaceFirst(s, old_, new_) == s[..i] + new_ + s[i + |old_|..]
  {
    if old_ <= s {
      assert s[..0] + new_ == new_;
    } else {
      ReplaceFirstAt(s[1..], old_, new_);
      var i := IndexOf(s[1..], old_);
      ShiftSlices(s, i, |old_|);
      Assoc([s[0]], s[1..][..i] + new_, s[1..][i + |old_|..]);
      Assoc([s[0]], s[1..][..i], new_);
    }
  }

  lemma ShiftSlices(s: string, i: nat, n: nat)
    requires s != "" && i + n <= |s| - 1
    ensures s[..i + 1] == [s[0]] + s[1..][..i] && s[1..][i + n..] == s[i + 1 + n..]
  {
  }

  /** A step that is misled goes wrong for some value. */
  lemma {:induction false} MisledStep(a: string, h: Hole, b: string)
    requires PlainName(h.name) && Contains(a, Placeholder(h))
    ensures ReplaceFirst(a + (Placeholder(h) + b), Placeholder(h), "x") != a + ("x" + b)
  {
    var p := Placeholder(h);
    var s := a + (p + b);
    var k := IndexOf(a, p);
    IndexOfOccurs(a, p);
    assert k + |p| <= |a| && s[k..] == a[k..] + (p + b);
    IndexOfIsFirst(s, p, k);
    ReplaceFirstAt(s, p, "x");
    var i := IndexOf(s, p);
    IndexOfOccurs(s, p);
    assert i < |a| && s[i..][0] == p[0] && (a + ("x" + b))[i] == s[i];
    assert (s[..i] + "x" + s[i + |p|..])[i] == 'x';
  }

  /** A step fills its own place, whatever the value, exactly when the text before it does not
      contain the placeholder. */
  lemma {:induction false} StepIsSafeExactly(ts: seq<Token>, m: map<Hole, string>, h: Hole)
    requires OctetTokens(ts) && OctetMap(m) && Distinct(Holes(ts)) && Var(h) in ts && h !in m
    ensures Rigid(Placeholder(h)) && forall v | Octets(v) :: OctetMap(m[h := v])
    ensures (forall v | Octets(v) ::
               ReplaceFirst(RawShow(ts, m), Rigidly(Placeholder(h)), EscapeVar(GoCodec(), v, h.rest))
                   == RawShow(ts, m[h := v]))
      <==> StepSafe(ts, m, h)
  {
    assert OctetToken(Var(h));
    PlaceholderIsRigid(h);
    if StepSafe(ts, m, h) {
      forall v | Octets(v)
        ensures ReplaceFirst(RawShow(ts, m), Rigidly(Placeholder(h)), EscapeVar(GoCodec(), v, h.rest))
          == RawShow(ts, m[h := v])
      {
        StepFills(ts, m, h, v);
      }
    } else {
      UnsafeStep(ts, m, h);
    }
  }

  lemma ShownHole(h: Hole, b: seq<Token>, m: map<Hole, string>)
    ensures ShowFilled([Var(h)] + b, m) == (if h in m then m[h] else Placeholder(h)) + ShowFilled(b, m)
  {
    FilledConcat([Var(h)], b, m);
    assert [Var(h)][1..] == [];
    OneToken(Var(h));
    if h in m {
      ShowChars(m[h]);
      assert Subst([Var(h)], m) == Chars(m[h]);
    } else {
      assert Subst([Var(h)], m) == [Var(h)];
    }
  }

  lemma {:induction false} OtherKeysShown(ts: seq<Token>, m: map<Hole, string>, h: Hole, v: string)
    requires Var(h) !in ts
    ensures ShowFilled(ts, m[h := v]) == ShowFilled(ts, m)
  {
    if ts != [] {
      assert ts == [ts[0]] + ts[1..] && ts[0] in ts && forall t | t in ts[1..] :: t in ts;
      OtherKeysShown(ts[1..], m, h, v);
      FilledConcat([ts[0]], ts[1..], m);
      FilledConcat([ts[0]], ts[1..], m[h := v]);
      assert [ts[0]][1..] == [] && Subst([ts[0]], m[h := v]) == Subst([ts[0]], m);
    }
  }

  /** The misled replacement, in decoded space. */
  lemma {:induction false} MisledTemplate(ts: seq<Token>, m: map<Hole, string>, h: Hole)
    requires OctetTokens(ts) && OctetMap(m) && Distinct(Holes(ts)) && Var(h) in ts && h !in m && !StepSafe(ts, m, h)
    ensures ReplaceFirst(ShowFilled(ts, m), Placeholder(h), "x") != ShowFilled(ts, m[h := "x"])
  {
    var a := BeforeHole(ts, h);
    var b := ts[|a| + 1..];
    SplitAtHole(ts, h);
    PartsAreOctets(ts, h);
    ShownAround(a, h, b, m, "x");
    MisledStep(ShowFilled(a, m), h, ShowFilled(b, m));
  }

  /** The template around one placeholder, before and after that one is filled. */
  lemma {:induction false} ShownAround(a: seq<Token>, h: Hole, b: seq<Token>, m: map<Hole, string>, v: string)
    requires Var(h) !in a && Var(h) !in b && h !in m
    ensures ShowFilled(a + ([Var(h)] + b), m) == ShowFilled(a, m) + (Placeholder(h) + ShowFilled(b, m))
    ensures ShowFilled(a + ([Var(h)] + b), m[h := v]) == ShowFilled(a, m) + (v + ShowFilled(b, m))
  {
    FilledConcat(a, [Var(h)] + b, m);
    FilledConcat(a, [Var(h)] + b, m[h := v]);
    ShownHole(h, b, m);
    ShownHole(h, b, m[h := v]);
    OtherKeysShown(a, m, h, v);
    OtherKeysShown(b, m, h, v);
  }

  lemma {:induction false} UnsafeStep(ts: seq<Token>, m: map<Hole, string>, h: Hole)
    requires OctetTokens(ts) && OctetMap(m) && Distinct(Holes(ts)) && Var(h) in ts && h !in m && !StepSafe(ts, m, h)
    ensures Rigid(Placeholder(h)) && Octets("x") && OctetMap(m[h := "x"])
    ensures ReplaceFirst(RawShow(ts, m), Rigidly(Placeholder(h)), EscapeVar(GoCodec(), "x", h.rest))
      != RawShow(ts, m[h := "x"])
  {
    PartsAreOctets(ts, h);
    PlaceholderIsRigid(h);
    XIsOctet(m, h);
    MisledTemplate(ts, m, h);
    RawShowEncodes(ts, m);
    RawShowEncodes(ts, m[h := "x"]);
    StepsDiffer(RawShow(ts, m), ShowFilled(ts, m), Placeholder(h), EscapeVar(GoCodec(), "x", h.rest), "x",
                RawShow(ts, m[h := "x"]), ShowFilled(ts, m[h := "x"]));
  }

  lemma XIsOctet(m: map<Hole, string>, h: Hole)
    requires OctetMap(m)
    ensures Octets("x") && OctetMap(m[h := "x"]) && Encodes(EscapeVar(GoCodec(), "x", h.rest), "x")
  {
    EscapeVarEncodes("x", h.rest);
  }

  /** A replacement that is wrong in decoded space is wrong in escaped space. */
  lemma StepsDiffer(raw: string, path: string, s: string, escaped: string, value: string, other: string, text: string)
    requires Encodes(raw, path) && Encodes(escaped, value) && Rigid(s) && s != "" && IsEscaped(s[0])
    requires Encodes(other, text) && ReplaceFirst(path, s, value) != text
    ensures ReplaceFirst(raw, Rigidly(s), escaped) != other
  {
    ReplaceEncoded(raw, path, s, escaped, value);
    EncodingDecodes(ReplaceFirst(raw, Rigidly(s), escaped), ReplaceFirst(path, s, value));
    EncodingDecodes(other, text);
  }

  // ---- templates whose placeholders are whole segments ----

  predicate Spaced(ts: seq<Token>) {
    forall i | 0 <= i < |ts| - 1 && ts[i].Var? :: ts[i + 1] == Ch('/')
  }

  /** Some value already filled in contains the placeholder. */
  predicate ValueContains(ts: seq<Token>, m: map<Hole, string>, p: string) {
    exists g | g in m :: Var(g) in ts && Contains(m[g], p)
  }

  lemma SpacedTail(ts: seq<Token>)
    requires ts != [] && Spaced(ts) && Plain(ts)
    ensures Spaced(ts[1..]) && Plain(ts[1..])
    ensures ts[0].Var? && |ts| > 1 ==> ts[1] == Ch('/')
  {
    var tail := ts[1..];
    forall i | 0 <= i < |tail| - 1 && tail[i].Var?
      ensures tail[i + 1] == Ch('/')
    {
      assert tail[i] == ts[i + 1];
    }
  }

  lemma {:induction false} ContainsPastText(text: string, s: string, p: string)
    requires p != "" && p[0] == '{' && '{' !in text
    ensures Contains(text + s, p) <==> Contains(s, p)
  {
    if text == "" {
      assert text + s == s;
    } else {
      assert text[0] in text && forall c | c in text[1..] :: c in text;
      ContainsPastText(text[1..], s, p);
      Unroll(text, s);
      ContainsCons(text[0], text[1..] + s, p);
      HeadDiffers(p, text[0], text[1..] + s);
    }
  }

  lemma {:induction false} ContainsPastHole(g: Hole, s: string, h: Hole)
    requires PlainName(g.name) && PlainName(h.name) && g != h
    ensures Contains(Placeholder(g) + s, Placeholder(h)) <==> Contains(s, Placeholder(h))
  {
    OtherPlaceholderDiffers(g, h, s);
    var tail := Inner(g) + "}";
    assert Placeholder(g) + s == ['{'] + (tail + s);
    ContainsCons('{', tail + s, Placeholder(h));
    assert forall c | c in tail :: c in g.name || c == '.' || c == '}';
    ContainsPastText(tail, s, Placeholder(h));
  }

  lemma ValueContainsCons(t: Token, ts: seq<Token>, m: map<Hole, string>, p: string)
    ensures ValueContains([t] + ts, m, p)
      <==> (t.Var? && t.hole in m && Contains(m[t.hole], p)) || ValueContains(ts, m, p)
  {
    assert ([t] + ts)[0] == t && forall x | x in ts :: x in [t] + ts;
  }

  /** In such a template, text can only contain the placeholder inside a value. */
  lemma {:induction false} OnlyValuesContain(ts: seq<Token>, m: map<Hole, string>, h: Hole)
    requires Plain(ts) && Spaced(ts) && PlainName(h.name) && Var(h) !in ts
    ensures Contains(ShowFilled(ts, m), Placeholder(h)) <==> ValueContains(ts, m, Placeholder(h))
    decreases |ts|
  {
    var p := Placeholder(h);
    if ts != [] {
      var t, rest := ts[0], ts[1..];
      assert ts == [t] + rest && t in ts && forall x | x in rest :: x in ts;
      assert PlainToken(t);
      SpacedTail(ts);
      OnlyValuesContain(rest, m, h);
      ValueContainsCons(t, rest, m, p);
      FilledConcat([t], rest, m);
      if t.Ch? {
        assert [t][1..] == [] && Subst([t], m) == [t];
        OneToken(t);
        ContainsPastText([t.c], ShowFilled(rest, m), p);
      } else {
        ShownHole(t.hole, rest, m);
        if t.hole in m {
          ValueThenSlash(m[t.hole], rest, m, h);
        } else {
          ContainsPastHole(t.hole, ShowFilled(rest, m), h);
        }
      }
    }
  }

  lemma {:induction false} AcrossSlash(v: string, tail: string, h: Hole)
    requires PlainName(h.name)
    ensures Contains(v + (['/'] + tail), Placeholder(h))
      <==> Contains(v, Placeholder(h)) || Contains(['/'] + tail, Placeholder(h))
  {
    var p := Placeholder(h);
    assert forall c | c in p :: c in h.name || c == '{' || c == '}' || c == '.';
    OccurrenceStaysOnOneSide(v, '/', tail, p);
    Assoc(v, ['/'], tail);
    ContainsPastText(['/'], tail, p);
  }

  lemma {:induction false} ValueThenSlash(v: string, rest: seq<Token>, m: map<Hole, string>, h: Hole)
    requires PlainName(h.name) && (rest != [] ==> rest[0] == Ch('/'))
    ensures Contains(v + ShowFilled(rest, m), Placeholder(h))
      <==> Contains(v, Placeholder(h)) || Contains(ShowFilled(rest, m), Placeholder(h))
  {
    if rest == [] {
      assert v + "" == v;
    } else {
      assert rest == [Ch('/')] + rest[1..] && [Ch('/')][1..] == [];
      FilledConcat([Ch('/')], rest[1..], m);
      OneToken(Ch('/'));
      assert Subst([Ch('/')], m) == [Ch('/')];
      AcrossSlash(v, ShowFilled(rest[1..], m), h);
    }
  }

  /** For the templates the plugin registers: no step is misled as long as no value contains the
      placeholder of a later pair. */
  lemma {:induction false} ValuesWithoutPlaceholders(ts: seq<Token>, m: map<Hole, string>, pairs: seq<Pair>)
    requires Plain(ts) && Spaced(ts)
    requires forall i | 0 <= i < |pairs| :: Var(pairs[i].hole) in ts && pairs[i].hole !in m
    requires forall i, k | 0 <= i < k < |pairs| :: pairs[i].hole != pairs[k].hole
    requires forall i, k | 0 <= i < k < |pairs| :: !Contains(pairs[i].value, Placeholder(pairs[k].hole))
    requires forall g, k | g in m && 0 <= k < |pairs| :: !Contains(m[g], Placeholder(pairs[k].hole))
    ensures Untouched(ts, m, pairs)
    decreases |pairs|
  {
    if pairs != [] {
      var h := pairs[0].hole;
      var a := BeforeHole(ts, h);
      assert Var(h) in ts && PlainToken(Var(h));
      assert Plain(a) && Spaced(a);
      OnlyValuesContain(a, m, h);
      var rest := pairs[1..];
      assert forall i | 0 <= i < |rest| :: rest[i] == pairs[i + 1];
      ValuesWithoutPlaceholders(ts, m[h := pairs[0].value], rest);
    }
  }
}
