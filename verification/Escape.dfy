/** Percent-encoding of path segments: url.PathEscape, urllib.parse.quote and
    encodeURIComponent differ only in the bytes they leave alone. */
module Escape {
  import opened Text

  /** A Go string is a sequence of bytes; here a byte is a character below U+0100. */
  predicate Octets(s: string) { forall i | 0 <= i < |s| :: s[i] < 256 as char }

  datatype Codec = Codec(safe: set<char>) {
    /** '.' is safe in all three, so that "." and ".." are visible to the server's path cleaning. */
    predicate Valid() {
      && '/' !in safe && '%' !in safe && '{' !in safe && '}' !in safe
      && '.' in safe
    }

    /** The same codec with '/' left alone: quote(val, safe="/"). */
    function WithSlash(): Codec { Codec(safe + {'/'}) }
  }

  predicate IsAlphanumeric(c: char) { 'a' <= c <= 'z' || 'A' <= c <= 'Z' || '0' <= c <= '9' }

  function Alphanumerics(): set<char> { set c: char | IsAlphanumeric(c) }

  function GoCodec(): Codec { Codec(Alphanumerics() + {'-', '_', '.', '~', '$', '&', '+', ':', '=', '@'}) }
  function PyCodec(): Codec { Codec(Alphanumerics() + {'_', '.', '-', '~'}) }
  function TsCodec(): Codec { Codec(Alphanumerics() + {'-', '_', '.', '!', '~', '*', '\'', '(', ')'}) }

  lemma CodecsAreValid()
    ensures GoCodec().Valid() && PyCodec().Valid() && TsCodec().Valid()
    ensures '$' !in TsCodec().safe
  {
  }

  function HexDigit(d: nat): char
    requires d < 16
  {
    if d < 10 then ('0' as int + d) as char else ('A' as int + d - 10) as char
  }

  function HexValue(c: char): (d: int)
    ensures -1 <= d < 16
  {
    if '0' <= c <= '9' then c as int - '0' as int
    else if 'A' <= c <= 'F' then c as int - 'A' as int + 10
    else if 'a' <= c <= 'f' then c as int - 'a' as int + 10
    else -1
  }

  function EscapeByte(codec: Codec, c: char): (r: string)
    requires c < 256 as char
    ensures r != "" && (c in codec.safe ==> r == [c])
  {
    if c in codec.safe then [c] else ['%', HexDigit(c as int / 16), HexDigit(c as int % 16)]
  }

  function EscapeText(codec: Codec, s: string): string
    requires Octets(s)
  {
    if s == "" then "" else EscapeByte(codec, s[0]) + EscapeText(codec, s[1..])
  }

  datatype Unescaped = Invalid | Text(text: string)

  /** url.PathUnescape */
  function Unescape(s: string): Unescaped {
    if s == "" then Text("")
    else if s[0] != '%' then
      var r := Unescape(s[1..]);
      if r.Invalid? then Invalid else Text([s[0]] + r.text)
    else if |s| < 3 || HexValue(s[1]) < 0 || HexValue(s[2]) < 0 then Invalid
    else
      var r := Unescape(s[3..]);
      if r.Invalid? then Invalid else Text([(HexValue(s[1]) * 16 + HexValue(s[2])) as char] + r.text)
  }

  /** How ServeMux decodes one segment: an undecodable one is kept as it is. */
  function DecodeSegment(s: string): string {
    match Unescape(s)
    case Invalid => s
    case Text(t) => t
  }

  lemma {:induction false} EscapedByteDecodes(codec: Codec, c: char, rest: string)
    requires c < 256 as char && '%' !in codec.safe && Unescape(rest).Text?
    ensures Unescape(EscapeByte(codec, c) + rest) == Text([c] + Unescape(rest).text)
  {
    var e := EscapeByte(codec, c);
    if c in codec.safe {
      assert (e + rest)[1..] == rest;
    } else {
      assert (e + rest)[3..] == rest;
      var n := c as int;
      assert HexValue(HexDigit(n / 16)) == n / 16 && HexValue(HexDigit(n % 16)) == n % 16;
    }
  }

  /** Decoding inverts escaping, also when decodable text follows. */
  lemma {:induction false} EscapeThenText(codec: Codec, s: string, rest: string)
    requires Octets(s) && '%' !in codec.safe && Unescape(rest).Text?
    ensures Unescape(EscapeText(codec, s) + rest) == Text(s + Unescape(rest).text)
  {
    if s == "" {
      assert "" + rest == rest && "" + Unescape(rest).text == Unescape(rest).text;
    } else {
      EscapeThenText(codec, s[1..], rest);
      var tail := EscapeText(codec, s[1..]);
      Assoc(EscapeByte(codec, s[0]), tail, rest);
      EscapedByteDecodes(codec, s[0], tail + rest);
      ConsConcat(s, Unescape(rest).text);
    }
  }

  lemma {:induction false} PlainTextDecodes(s: string)
    requires '%' !in s
    ensures Unescape(s) == Text(s)
  {
    if s != "" {
      PlainTextDecodes(s[1..]);
      assert [s[0]] + s[1..] == s;
    }
  }

  lemma {:induction false} RoundTrip(codec: Codec, s: string)
    requires Octets(s) && codec.Valid()
    ensures Unescape(EscapeText(codec, s)) == Text(s)
  {
    EscapeThenText(codec, s, "");
    assert EscapeText(codec, s) + "" == EscapeText(codec, s) && s + "" == s;
  }

  lemma {:induction false} EscapeConcat(codec: Codec, a: string, b: string)
    requires Octets(a) && Octets(b)
    ensures EscapeText(codec, a + b) == EscapeText(codec, a) + EscapeText(codec, b)
  {
    if a == "" {
      assert a + b == b;
    } else {
      EscapeConcat(codec, a[1..], b);
      assert (a + b)[1..] == a[1..] + b;
      Assoc(EscapeByte(codec, a[0]), EscapeText(codec, a[1..]), EscapeText(codec, b));
    }
  }

  /** An unsafe byte never shows in escaped text. */
  lemma {:induction false} EscapedBytes(codec: Codec, s: string, c: char)
    requires Octets(s) && c in EscapeText(codec, s)
    ensures c in codec.safe || c == '%' || '0' <= c <= '9' || 'A' <= c <= 'F'
  {
    if c !in EscapeByte(codec, s[0]) { EscapedBytes(codec, s[1..], c); }
  }

  lemma EscapedTextIsClean(codec: Codec, s: string)
    requires Octets(s) && codec.Valid()
    ensures var e := EscapeText(codec, s); '/' !in e && '{' !in e && '}' !in e
  {
    forall c | c in EscapeText(codec, s)
      ensures c != '/' && c != '{' && c != '}'
    {
      EscapedBytes(codec, s, c);
    }
  }

  // ---- escapePathVar ----

  predicate EachOctets(parts: seq<string>) { forall p | p in parts :: Octets(p) }

  function EscapeAll(codec: Codec, parts: seq<string>): (r: seq<string>)
    requires EachOctets(parts)
    ensures |r| == |parts| && forall i | 0 <= i < |parts| :: r[i] == EscapeText(codec, parts[i])
  {
    if parts == [] then [] else [EscapeText(codec, parts[0])] + EscapeAll(codec, parts[1..])
  }

  lemma {:induction false} SplitOctets(s: string, c: char)
    requires Octets(s)
    ensures EachOctets(Split(s, c))
  {
    if s != "" {
      SplitOctets(s[1..], c);
      var rest := Split(s[1..], c);
      assert rest[0] in rest;
      assert forall p | p in rest[1..] :: p in rest;
    }
  }

  /** The value of one variable as it goes into the URL. */
  function EscapeVar(codec: Codec, value: string, rest: bool): string
    requires Octets(value)
  {
    if !rest then EscapeText(codec, value)
    else
      SplitOctets(value, '/');
      Join(EscapeAll(codec, Split(value, '/')), "/")
  }

  /** Segment-by-segment escaping is one pass that leaves '/' alone, as Python does it. */
  lemma {:induction false} RestIsOnePass(codec: Codec, value: string)
    requires Octets(value) && codec.Valid()
    ensures EscapeVar(codec, value, true) == EscapeText(codec.WithSlash(), value)
  {
    SplitOctets(value, '/');
    if value != "" {
      var tail := value[1..];
      SplitOctets(tail, '/');
      RestIsOnePass(codec, tail);
      var parts := Split(tail, '/');
      var texts := EscapeAll(codec, parts);
      if value[0] == '/' {
        assert ([""] + parts)[1..] == parts;
        assert EscapeAll(codec, [""] + parts) == [""] + texts;
        assert ([""] + texts)[1..] == texts;
      } else {
        var head := EscapeByte(codec, value[0]);
        assert ([value[0]] + parts[0])[1..] == parts[0];
        assert ([[value[0]] + parts[0]] + parts[1..])[1..] == parts[1..];
        assert EscapeAll(codec, [[value[0]] + parts[0]] + parts[1..]) == [head + texts[0]] + texts[1..];
        JoinHead(head, texts);
      }
    }
  }

  /** client.go's escapePathVar: the segments are rewritten in place. */
  method EscapePathVar(codec: Codec, value: string, placeholder: string) returns (r: string)
    requires Octets(value)
    ensures r == EscapeVar(codec, value, HasSuffix(placeholder, "...}"))
  {
    if !HasSuffix(placeholder, "...}") {
      return EscapeText(codec, value);
    }
    SplitOctets(value, '/');
    ghost var parts := Split(value, '/');
    var segments := Split(value, '/');
    var i := 0;
    while i < |segments|
      invariant 0 <= i <= |segments| == |parts|
      invariant forall k | 0 <= k < i :: segments[k] == EscapeText(codec, parts[k])
      invariant forall k | i <= k < |segments| :: segments[k] == parts[k]
    {
      segments := segments[i := EscapeText(codec, segments[i])];
      i := i + 1;
    }
    assert segments == EscapeAll(codec, parts);
    r := Join(segments, "/");
  }

  /** Both kinds of variable decode to the value; a rest-of-path value keeps its slashes literal. */
  lemma {:induction false} EscapedVarDecodes(codec: Codec, value: string, rest: bool, verb: string)
    requires Octets(value) && codec.Valid() && '%' !in verb
    ensures DecodeSegment(EscapeVar(codec, value, rest) + verb) == value + verb
    ensures BraceFree(EscapeVar(codec, value, rest))
    ensures !rest ==> '/' !in EscapeVar(codec, value, rest)
  {
    var c := if rest then codec.WithSlash() else codec;
    if rest { RestIsOnePass(codec, value); }
    PlainTextDecodes(verb);
    EscapeThenText(c, value, verb);
    forall b | b in EscapeText(c, value)
      ensures b != '{' && b != '}' && (b == '/' ==> rest)
    {
      EscapedBytes(c, value, b);
    }
  }
}
