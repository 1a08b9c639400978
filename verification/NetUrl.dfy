/** The part of net/url that a request's path goes through: percent-encodings of a path, the raw form
    a URL keeps beside its decoded path, and what EscapedPath makes of the two. */
module NetUrl {
  import opened Text
  import opened Escape
  import opened ServeMux
  import opened Routing

  /** What EscapedPath leaves alone. */
  function PathCodec(): Codec { Codec(GoCodec().safe + {',', '/', ';'}) }

  /** Bytes that no Go escaping mode touches. */
  predicate IsUnreserved(c: char) { IsAlphanumeric(c) || c == '_' || c == '.' || c == '-' || c == '~' }

  /** Bytes that every mode escapes. */
  predicate IsEscaped(c: char) { c == '%' || c == '{' || c == '}' }

  function Hex(c: char): (r: string)
    requires c < 256 as char
    ensures |r| == 3 && r[0] == '%' && r[1] != '%' && r[2] != '%'
  {
    ['%', HexDigit(c as int / 16), HexDigit(c as int % 16)]
  }

  /** `raw` is a percent-encoding of `path` that leaves literal bytes alone, escapes "%", "{" and
      "}", and may do either with other bytes. */
  predicate Encodes(raw: string, path: string) {
    if path == "" then raw == ""
    else
      var c := path[0];
      && c < 256 as char && raw != ""
      && if raw[0] == '%' then !IsUnreserved(c) && Hex(c) <= raw && Encodes(raw[3..], path[1..])
         else !IsEscaped(c) && raw[0] == c && Encodes(raw[1..], path[1..])
  }

  lemma {:induction false} EncodingDecodes(raw: string, path: string)
    requires Encodes(raw, path)
    ensures Unescape(raw) == Text(path) && BraceFree(raw)
  {
    if path != "" {
      var c := path[0];
      var n := if raw[0] == '%' then 3 else 1;
      EncodingDecodes(raw[n..], path[1..]);
      assert path == [c] + path[1..] && raw == raw[..n] + raw[n..];
      if n == 3 {
        HexDecodes(c, raw[3..]);
        assert raw[..3] == Hex(c);
        HexIsBraceFree(c);
      }
    }
  }

  lemma HexDecodes(c: char, rest: string)
    requires c < 256 as char && Unescape(rest).Text?
    ensures Unescape(Hex(c) + rest) == Text([c] + Unescape(rest).text)
  {
    EscapedByteDecodes(Codec({}), c, rest);
  }

  lemma HexIsBraceFree(c: char)
    requires c < 256 as char
    ensures BraceFree(Hex(c))
  {
  }

  lemma {:induction false} EncodingsJoin(a: string, p: string, b: string, q: string)
    requires Encodes(a, p) && Encodes(b, q)
    ensures Encodes(a + b, p + q)
  {
    if p == "" {
      assert a + b == b && p + q == q;
    } else {
      var n := if a[0] == '%' then 3 else 1;
      EncodingsJoin(a[n..], p[1..], b, q);
      assert (a + b)[n..] == a[n..] + b && (p + q)[1..] == p[1..] + q;
      assert n == 3 ==> (a + b)[..3] == a[..3];
    }
  }

  predicate Faithful(codec: Codec) {
    (forall c | IsUnreserved(c) :: c in codec.safe) && forall c | IsEscaped(c) :: c !in codec.safe
  }

  lemma CodecsAreFaithful()
    ensures Faithful(GoCodec()) && Faithful(GoCodec().WithSlash()) && Faithful(PathCodec())
  {
  }

  lemma {:induction false} EscapingEncodes(codec: Codec, path: string)
    requires Faithful(codec) && Octets(path)
    ensures Encodes(EscapeText(codec, path), path)
  {
    if path != "" {
      EscapingEncodes(codec, path[1..]);
      var c, rest := path[0], EscapeText(codec, path[1..]);
      if c in codec.safe {
        assert c != '%' by { assert IsEscaped('%'); }
        assert ([c] + rest)[1..] == rest;
      } else {
        assert EscapeByte(codec, c) == Hex(c);
        assert (Hex(c) + rest)[3..] == rest;
      }
    }
  }

  lemma EscapeVarEncodes(value: string, rest: bool)
    requires Octets(value)
    ensures Encodes(EscapeVar(GoCodec(), value, rest), value)
  {
    CodecsAreFaithful();
    CodecsAreValid();
    if rest { RestIsOnePass(GoCodec(), value); }
    EscapingEncodes(if rest then GoCodec().WithSlash() else GoCodec(), value);
  }

  lemma HexIsInjective(c: char, d: char)
    requires c < 256 as char && d < 256 as char
    ensures Hex(c) == Hex(d) ==> c == d
  {
    assert HexValue(Hex(c)[1]) * 16 + HexValue(Hex(c)[2]) == c as int;
    assert HexValue(Hex(d)[1]) * 16 + HexValue(Hex(d)[2]) == d as int;
  }

  lemma UnitEncodes(raw: string, path: string, n: nat)
    requires Encodes(raw, path) && path != "" && n == if raw[0] == '%' then 3 else 1
    ensures n <= |raw| && Encodes(raw[..n], [path[0]])
  {
    assert [path[0]][1..] == "" && raw[..n][n..] == "";
    if n == 3 { assert raw[..3][..3] == raw[..3]; }
  }

  // ---- the path of a URL ----

  datatype Url = Url(path: string, rawPath: string)

  /** The bytes that may stand in a raw path as they are. */
  function RawBytes(): set<char> { PathCodec().safe + {'!', '\'', '(', ')', '*', '[', ']', '%'} }

  /** URL.EscapedPath: the raw form that came with the URL, if it is a valid encoding of the path. */
  function EscapedPath(url: Url): string
    requires Octets(url.path)
  {
    if url.rawPath != "" && (forall c | c in url.rawPath :: c in RawBytes())
        && Unescape(url.rawPath) == Text(url.path) then
      url.rawPath
    else if url.path == "*" then "*"
    else EscapeText(PathCodec(), url.path)
  }

  /** A raw form that is empty, or that still shows a placeholder, does not count. */
  lemma {:induction false} PlaceholderHidesRawPath(url: Url)
    requires Octets(url.path) && (url.rawPath == "" || '{' in url.rawPath)
    ensures Encodes(EscapedPath(url), url.path)
    ensures url.path != "*" ==> EscapedPath(url) == EscapeText(PathCodec(), url.path)
  {
    CodecsAreFaithful();
    EscapingEncodes(PathCodec(), url.path);
    assert '{' !in RawBytes();
    if url.path == "*" { assert "*"[1..] == ""; }
  }

  lemma EscapedPathDecodes(url: Url)
    requires Octets(url.path)
    ensures Unescape(EscapedPath(url)) == Text(url.path)
  {
    CodecsAreFaithful();
    EscapingEncodes(PathCodec(), url.path);
    EncodingDecodes(EscapeText(PathCodec(), url.path), url.path);
    if url.path == "*" { PlainTextDecodes("*"); }
  }

  // ---- what goes out is a valid raw path ----

  predicate AllRaw(raw: string) { forall c | c in raw :: c in RawBytes() }

  lemma EscapedIsRaw(codec: Codec, s: string)
    requires Octets(s) && codec.safe <= RawBytes()
    ensures AllRaw(EscapeText(codec, s))
  {
    forall c | c in EscapeText(codec, s)
      ensures c in RawBytes()
    {
      EscapedBytes(codec, s, c);
      HexIsRaw();
    }
  }

  lemma HexIsRaw()
    ensures '%' in RawBytes() && forall d | 0 <= d < 16 :: HexDigit(d) in RawBytes()
  {
    forall d | 0 <= d < 16
      ensures HexDigit(d) in RawBytes()
    {
      assert IsAlphanumeric(HexDigit(d)) && HexDigit(d) in Alphanumerics();
    }
  }

  lemma VarIsRaw(value: string, rest: bool)
    requires Octets(value)
    ensures AllRaw(EscapeVar(GoCodec(), value, rest))
  {
    CodecsAreValid();
    if rest { RestIsOnePass(GoCodec(), value); }
    EscapedIsRaw(if rest then GoCodec().WithSlash() else GoCodec(), value);
  }

  lemma EscapedPathIsRaw(url: Url)
    requires Octets(url.path)
    ensures AllRaw(EscapedPath(url))
  {
    EscapedIsRaw(PathCodec(), url.path);
  }

  lemma RawBytesAreOctets(c: char)
    requires c in RawBytes()
    ensures c < 256 as char
  {
  }

  lemma RawIsOctets(s: string)
    requires AllRaw(s)
    ensures Octets(s)
  {
    forall i | 0 <= i < |s|
      ensures s[i] < 256 as char
    {
      assert s[i] in s;
      RawBytesAreOctets(s[i]);
    }
  }

  // ---- decoding unit by unit ----

  lemma {:induction false} UnescapedOctets(s: string)
    requires Octets(s) && Unescape(s).Text?
    ensures Octets(Unescape(s).text)
  {
    if s != "" {
      var n := if s[0] == '%' then 3 else 1;
      UnescapedOctets(s[n..]);
    }
  }

  lemma {:induction false} UnescapeSum(a: string, b: string)
    requires Unescape(a).Text?
    ensures Unescape(a + b).Text? <==> Unescape(b).Text?
    ensures Unescape(b).Text? ==> Unescape(a + b) == Text(Unescape(a).text + Unescape(b).text)
  {
    if a == "" {
      assert a + b == b;
      if Unescape(b).Text? { assert "" + Unescape(b).text == Unescape(b).text; }
    } else {
      var n := if a[0] == '%' then 3 else 1;
      UnescapeSum(a[n..], b);
      FirstUnit(a, b, n);
      if Unescape(b).Text? { ConsConcat(Unescape(a).text, Unescape(b).text); }
    }
  }

  lemma FirstUnit(a: string, b: string, n: nat)
    requires n <= |a|
    ensures (a + b)[n..] == a[n..] + b && (a + b)[..n] == a[..n] && a == a[..n] + a[n..]
  {
  }

  lemma FirstUnitDecodes(raw: string, n: nat)
    requires raw != "" && Unescape(raw).Text? && n == if raw[0] == '%' then 3 else 1
    ensures n <= |raw| && Unescape(raw[..n]).Text?
  {
    assert raw[..n][n..] == "";
  }

  // ---- parsing and sending ----

  /** The bytes that url.Parse takes for part of a path: no controls, and nothing that ends the path. */
  predicate IsPathByte(c: char) { ' ' <= c < 256 as char && c != '?' && c != '#' && c != 127 as char }

  predicate PathBytes(s: string) { forall c | c in s :: IsPathByte(c) }

  lemma PathBytesAreOctets(s: string)
    requires PathBytes(s)
    ensures Octets(s)
  {
    assert forall i | 0 <= i < |s| :: s[i] in s;
  }

  /** The path part of url.Parse: decoded, and kept in its raw form when the default encoding of the
      decoded path differs from it. */
  function ParsePath(text: string): (url: Url)
    requires PathBytes(text) && Unescape(text).Text?
    ensures Octets(url.path)
  {
    PathBytesAreOctets(text);
    UnescapedOctets(text);
    var path := Unescape(text).text;
    Url(path, if EscapeText(PathCodec(), path) == text then "" else text)
  }

  datatype Sent = NoRequest | Sent(path: string)

  /** What net/http writes on the request line for a URL with this path; a path that does not decode
      is no URL. */
  function Send(text: string): Sent
    requires PathBytes(text)
  {
    if Unescape(text).Text? then Sent(EscapedPath(ParsePath(text))) else NoRequest
  }

  /** The default encoding of what the text says. */
  function Reencoded(text: string): string
    requires PathBytes(text) && Unescape(text).Text?
  {
    EscapeText(PathCodec(), ParsePath(text).path)
  }

  /** A path goes out as it is exactly when each of its bytes may stand in a raw path, and otherwise
      encoded anew. */
  lemma {:induction false} SentExactly(text: string)
    requires PathBytes(text) && Unescape(text).Text? && "/" <= text
    ensures Send(text) == Sent(if AllRaw(text) then text else Reencoded(text))
    ensures Send(text) == Sent(text) <==> AllRaw(text)
  {
    var url := ParsePath(text);
    EscapedIsRaw(PathCodec(), url.path);
    assert text[0] == '/' && url.path[0] == '/';
  }

  lemma {:induction false} SafeEscapes(s: string)
    requires forall c | c in s :: c in PathCodec().safe
    ensures Octets(s) && EscapeText(PathCodec(), s) == s
  {
    if s != "" {
      assert s[0] in s && forall c | c in s[1..] :: c in s;
      assert s == [s[0]] + s[1..];
      SafeEscapes(s[1..]);
      SafeIsOctet(s[0]);
    }
  }

  lemma SafeIsOctet(c: char)
    requires c in PathCodec().safe
    ensures c < 256 as char
  {
  }

  // ---- which texts keep their encoding beside a brace ----

  predicate IsBrace(c: char) { c == '{' || c == '}' }

  /** The text with its braces encoded. */
  function BracesEncoded(text: string): string {
    if text == "" then "" else (if IsBrace(text[0]) then Hex(text[0]) else [text[0]]) + BracesEncoded(text[1..])
  }

  /** Every unit but the braces is as the default encoding would write it: a byte that it leaves alone,
      or an upper-case escape of one that it does not. */
  predicate DefaultForm(text: string) {
    if text == "" then true
    else if text[0] == '%' then
      && |text| >= 3 && HexValue(text[1]) >= 0 && HexValue(text[2]) >= 0
      && UnitIsDefault(text[..3], (HexValue(text[1]) * 16 + HexValue(text[2])) as char)
      && DefaultForm(text[3..])
    else (IsBrace(text[0]) || text[0] in PathCodec().safe) && DefaultForm(text[1..])
  }

  predicate UnitIsDefault(unit: string, c: char) {
    c < 256 as char && c !in PathCodec().safe && unit == Hex(c)
  }

  lemma BracesCons(c: char, rest: string)
    requires !IsBrace(c)
    ensures BracesEncoded([c] + rest) == [c] + BracesEncoded(rest)
  {
    assert ([c] + rest)[1..] == rest;
  }

  lemma BracesOfEscape(text: string)
    requires |text| >= 3 && text[0] == '%' && HexValue(text[1]) >= 0 && HexValue(text[2]) >= 0
    ensures BracesEncoded(text) == text[..3] + BracesEncoded(text[3..])
  {
    var more := text[3..];
    BracesCons(text[2], more);
    BracesCons(text[1], [text[2]] + more);
    BracesCons(text[0], [text[1]] + ([text[2]] + more));
    ThreeThen(text[0], text[1], text[2], more);
    ThreeThen(text[0], text[1], text[2], BracesEncoded(more));
    assert text[..3] == [text[0], text[1], text[2]] && text == text[..3] + more;
  }

  lemma ThreeThen(a: char, b: char, c: char, rest: string)
    ensures [a] + ([b] + ([c] + rest)) == [a, b, c] + rest
  {
  }

  /** The default encoding of what a text says is the text with its braces encoded exactly when every
      other unit is in default form. */
  lemma {:induction false} EncodedByUnits(text: string)
    requires Octets(text) && Unescape(text).Text?
    ensures Octets(Unescape(text).text)
    ensures EscapeText(PathCodec(), Unescape(text).text) == BracesEncoded(text) <==> DefaultForm(text)
  {
    UnescapedOctets(text);
    if text != "" {
      var n := if text[0] == '%' then 3 else 1;
      EncodedByUnits(text[n..]);
      var c, rest := Unescape(text).text[0], Unescape(text[n..]).text;
      assert Unescape(text).text == [c] + rest && ([c] + rest)[1..] == rest;
      var x, y := EscapeText(PathCodec(), rest), BracesEncoded(text[n..]);
      if n == 3 {
        BracesOfEscape(text);
        EscapeUnit(text[..3], c, x, y);
      } else {
        PlainUnit(c, x, y);
      }
    }
  }

  lemma EscapeUnit(unit: string, c: char, x: string, y: string)
    requires |unit| == 3 && unit[0] == '%' && c < 256 as char
    ensures EscapeByte(PathCodec(), c) + x == unit + y <==> UnitIsDefault(unit, c) && x == y
  {
    if c in PathCodec().safe {
      assert c != '%' && (EscapeByte(PathCodec(), c) + x)[0] == c && (unit + y)[0] == '%';
    } else {
      assert EscapeByte(PathCodec(), c) == Hex(c);
      SameHeads(Hex(c), unit, x, y);
    }
  }

  lemma SameHeads(a: string, b: string, x: string, y: string)
    requires |a| == |b|
    ensures a + x == b + y <==> a == b && x == y
  {
    assert (a + x)[..|a|] == a && (b + y)[..|b|] == b && (a + x)[|a|..] == x && (b + y)[|b|..] == y;
  }

  lemma PlainUnit(c: char, x: string, y: string)
    requires c < 256 as char && c != '%'
    ensures EscapeByte(PathCodec(), c) + x == (if IsBrace(c) then Hex(c) else [c]) + y
      <==> (IsBrace(c) || c in PathCodec().safe) && x == y
  {
    if IsBrace(c) {
      assert EscapeByte(PathCodec(), c) == Hex(c);
      SameHeads(Hex(c), Hex(c), x, y);
    } else if c in PathCodec().safe {
      SameHeads([c], [c], x, y);
    } else {
      assert (EscapeByte(PathCodec(), c) + x)[0] == '%' && ([c] + y)[0] == c;
    }
  }

  /** What goes out for a URL text that shows a placeholder is that text with only its braces encoded
      if and only if every other unit of it is in default form. */
  lemma {:induction false} TextIsKeptExactly(text: string)
    requires PathBytes(text) && Unescape(text).Text? && '{' in text
    ensures EscapedPath(ParsePath(text)) == BracesEncoded(text) <==> DefaultForm(text)
  {
    PathBytesAreOctets(text);
    EncodedByUnits(text);
    BraceHidesRawPath(text);
  }

  /** A text with a brace goes out in the default encoding of its path. */
  lemma {:induction false} BraceHidesRawPath(text: string)
    requires PathBytes(text) && Unescape(text).Text? && '{' in text
    ensures Octets(Unescape(text).text)
    ensures EscapedPath(ParsePath(text)) == EscapeText(PathCodec(), Unescape(text).text)
  {
    var url := ParsePath(text);
    BraceStays(text);
    BraceIsNoStar(url.path);
    PlaceholderHidesRawPath(url);
  }

  lemma BraceIsNoStar(path: string)
    requires '{' in path
    ensures path != "*"
  {
  }

  lemma {:induction false} BraceStays(text: string)
    requires Unescape(text).Text? && '{' in text
    ensures '{' in Unescape(text).text
  {
    var n := if text[0] == '%' then 3 else 1;
    assert text == text[..n] + text[n..];
    if text[0] != '{' {
      if n == 3 { assert text[..3] == [text[0], text[1], text[2]]; }
      BraceStays(text[n..]);
    }
  }

  lemma {:induction false} DefaultFormSum(a: string, b: string)
    requires Unescape(a).Text?
    ensures DefaultForm(a + b) <==> DefaultForm(a) && DefaultForm(b)
    ensures BracesEncoded(a + b) == BracesEncoded(a) + BracesEncoded(b)
  {
    BracesSum(a, b);
    if a == "" {
      assert a + b == b;
    } else {
      var n := if a[0] == '%' then 3 else 1;
      DefaultFormSum(a[n..], b);
      FirstUnit(a, b, n);
    }
  }

  lemma {:induction false} BracesSum(a: string, b: string)
    ensures BracesEncoded(a + b) == BracesEncoded(a) + BracesEncoded(b)
  {
    if a == "" {
      assert a + b == b && "" + BracesEncoded(b) == BracesEncoded(b);
    } else {
      BracesSum(a[1..], b);
      FirstUnit(a, b, 1);
      Assoc(if IsBrace(a[0]) then Hex(a[0]) else [a[0]], BracesEncoded(a[1..]), BracesEncoded(b));
    }
  }

  lemma {:induction false} NoBracesToEncode(text: string)
    requires BraceFree(text)
    ensures BracesEncoded(text) == text
  {
    if text != "" {
      assert text[0] in text && forall c | c in text[1..] :: c in text;
      NoBracesToEncode(text[1..]);
    }
  }

  /** So which base URLs keep their own encoding in front of a template is seen on the base alone. */
  lemma {:induction false} BaseIsKeptExactly(base: string, template: string)
    requires PathBytes(base + template) && Unescape(base).Text? && Unescape(template).Text?
    requires BraceFree(base) && '{' in template && DefaultForm(template)
    ensures Unescape(base + template).Text?
    ensures EscapedPath(ParsePath(base + template)) == base + BracesEncoded(template) <==> DefaultForm(base)
  {
    UnescapeSum(base, template);
    DefaultFormSum(base, template);
    NoBracesToEncode(base);
    TextIsKeptExactly(base + template);
  }

  // ---- an encoding that leaves slashes alone carries its text ----

  /** Every slash of the path is a slash of the encoding. */
  predicate KeepsSlashes(raw: string, path: string)
    requires Encodes(raw, path)
  {
    path == "" || (
      (path[0] == '/' ==> raw[0] == '/')
      && KeepsSlashes(raw[if raw[0] == '%' then 3 else 1..], path[1..]))
  }

  lemma {:induction false} KeptSlashesJoin(a: string, p: string, b: string, q: string)
    requires Encodes(a, p) && Encodes(b, q) && KeepsSlashes(a, p) && KeepsSlashes(b, q)
    ensures Encodes(a + b, p + q) && KeepsSlashes(a + b, p + q)
  {
    EncodingsJoin(a, p, b, q);
    if p == "" {
      assert a + b == b && p + q == q;
    } else {
      var n := if a[0] == '%' then 3 else 1;
      KeptSlashesJoin(a[n..], p[1..], b, q);
      assert (a + b)[n..] == a[n..] + b && (p + q)[1..] == p[1..] + q;
    }
  }

  lemma {:induction false} SlashFreeKeeps(raw: string, path: string)
    requires Encodes(raw, path) && '/' !in path
    ensures KeepsSlashes(raw, path) && '/' !in raw
  {
    if path != "" {
      var n := if raw[0] == '%' then 3 else 1;
      assert forall c | c in path[1..] :: c in path;
      assert path[0] in path;
      SlashFreeKeeps(raw[n..], path[1..]);
      assert raw == raw[..n] + raw[n..];
      if n == 3 { HexHasNoSlash(path[0]); assert raw[..3] == Hex(path[0]); }
    }
  }

  lemma HexHasNoSlash(c: char)
    requires c < 256 as char
    ensures '/' !in Hex(c)
  {
  }

  lemma {:induction false} EscapingKeepsSlashes(codec: Codec, path: string)
    requires Faithful(codec) && '/' in codec.safe && Octets(path)
    ensures Encodes(EscapeText(codec, path), path) && KeepsSlashes(EscapeText(codec, path), path)
  {
    EscapingEncodes(codec, path);
    if path != "" {
      EscapingKeepsSlashes(codec, path[1..]);
      var c, rest := path[0], EscapeText(codec, path[1..]);
      if c in codec.safe {
        assert c != '%' by { assert IsEscaped('%'); }
        assert ([c] + rest)[1..] == rest;
      } else {
        assert EscapeByte(codec, c) == Hex(c);
        assert (Hex(c) + rest)[3..] == rest;
      }
    }
  }

  lemma EncodedSpecial(raw: string, path: string)
    requires Encodes(raw, path)
    ensures (raw == "" <==> path == "") && (IsDots(raw) <==> IsDots(path))
  {
    if path != "" {
      var n := if raw[0] == '%' then 3 else 1;
      EncodedDot(raw[n..], path[1..]);
      assert raw == raw[..n] + raw[n..] && path == [path[0]] + path[1..];
      assert IsUnreserved('.');
    }
  }

  lemma EncodedDot(raw: string, path: string)
    requires Encodes(raw, path)
    ensures (raw == "" <==> path == "") && (raw == "." <==> path == ".")
  {
    assert IsUnreserved('.');
    if path != "" {
      var n := if raw[0] == '%' then 3 else 1;
      assert raw == raw[..n] + raw[n..] && path == [path[0]] + path[1..];
    }
  }

  ghost predicate EachEncodes(raws: seq<string>, paths: seq<string>) {
    |raws| == |paths| && forall i | 0 <= i < |raws| :: Encodes(raws[i], paths[i])
  }

  /** Cutting both at the slashes gives encodings of the parts. */
  lemma {:induction false} PartsEncode(raw: string, path: string)
    requires Encodes(raw, path) && KeepsSlashes(raw, path)
    ensures EachEncodes(Split(raw, '/'), Split(path, '/'))
  {
    if path != "" {
      var n := if raw[0] == '%' then 3 else 1;
      PartsEncode(raw[n..], path[1..]);
      var xs, ys := Split(raw[n..], '/'), Split(path[1..], '/');
      assert raw == raw[..n] + raw[n..];
      if path[0] == '/' {
        PartsPush(xs, ys);
      } else {
        UnitSplits(raw, path, n);
        UnitEncodes(raw, path, n);
        EncodingsJoin(raw[..n], [path[0]], xs[0], ys[0]);
        PartsPrepend(raw[..n], path[0], xs, ys);
      }
    }
  }

  lemma PartsPush(xs: seq<string>, ys: seq<string>)
    requires EachEncodes(xs, ys)
    ensures EachEncodes([""] + xs, [""] + ys)
  {
  }

  lemma PartsPrepend(unit: string, c: char, xs: seq<string>, ys: seq<string>)
    requires xs != [] && EachEncodes(xs, ys) && Encodes(unit + xs[0], [c] + ys[0])
    ensures EachEncodes([unit + xs[0]] + xs[1..], [[c] + ys[0]] + ys[1..])
  {
  }

  lemma UnitSplits(raw: string, path: string, n: nat)
    requires Encodes(raw, path) && path != "" && path[0] != '/' && n == if raw[0] == '%' then 3 else 1
    ensures Split(raw, '/') == [raw[..n] + Split(raw[n..], '/')[0]] + Split(raw[n..], '/')[1..]
  {
    assert raw == raw[..n] + raw[n..];
    if n == 3 {
      HexHasNoSlash(path[0]);
      assert raw[..3] == Hex(path[0]);
    }
    SlashFreeSplits(raw[..n], raw[n..]);
  }

  lemma {:induction false} SlashFreeSplits(unit: string, rest: string)
    requires '/' !in unit
    ensures Split(unit + rest, '/') == [unit + Split(rest, '/')[0]] + Split(rest, '/')[1..]
  {
    if unit == "" {
      assert unit + rest == rest && unit + Split(rest, '/')[0] == Split(rest, '/')[0];
    } else {
      assert unit[0] in unit && forall c | c in unit[1..] :: c in unit;
      SlashFreeSplits(unit[1..], rest);
      ConsConcat(unit, rest);
      SplitCons(unit[0], unit[1..] + rest, '/');
      ConsConcat(unit, Split(rest, '/')[0]);
    }
  }

  /** So the mux reads the same text from it, and cleans it when it would clean the text. */
  lemma {:induction false} EncodingCarries(raw: string, path: string, rest: bool)
    requires Encodes(raw, path) && (if rest then KeepsSlashes(raw, path) else '/' !in raw)
    ensures Carries(raw, path, rest)
  {
    EncodingDecodes(raw, path);
    EncodedSpecial(raw, path);
    if rest {
      PartsEncode(raw, path);
      var xs, ys := Split(raw, '/'), Split(path, '/');
      forall i | 0 <= i < |xs|
        ensures (xs[i] == "" <==> ys[i] == "") && (IsDots(xs[i]) <==> IsDots(ys[i]))
      {
        EncodedSpecial(xs[i], ys[i]);
      }
      SameSpecialSameClean(xs, ys);
    }
  }
}
