/** The part of net/http's ServeMux the generated routes rely on: path cleaning, segment-wise
    matching on the escaped path, and decoding of each captured segment. */
module ServeMux {
  import opened Text
  import opened Escape

  datatype Segment = Literal(text: string) | Single(name: string) | Rest(name: string)

  /** "{name}", "{name...}", or a literal. */
  function ParseSegment(s: string): Segment {
    if |s| >= 2 && s[0] == '{' && s[|s| - 1] == '}' then
      var inner := s[1..|s| - 1];
      if HasSuffix(inner, "...") then Rest(inner[..|inner| - 3]) else Single(inner)
    else Literal(s)
  }

  function ParseSegments(texts: seq<string>): (segs: seq<Segment>)
    ensures |segs| == |texts|
  {
    if texts == [] then [] else [ParseSegment(texts[0])] + ParseSegments(texts[1..])
  }

  /** What a registered path looks like to the matcher; the leading "/" gives an empty first segment. */
  function Register(path: string): seq<Segment> { ParseSegments(Split(path, '/')) }

  /** Registering such a path panics: "{name...}" must be the last segment. */
  predicate RestNotLast(pattern: seq<Segment>) { exists i | 0 <= i < |pattern| - 1 :: pattern[i].Rest? }

  datatype Captured = NotServed | Captured(values: seq<string>)

  /** A single wildcard takes one segment that is neither empty nor decodes to a slash, which is how
      the matcher spells a trailing slash. */
  function Match(pattern: seq<Segment>, request: seq<string>): Captured {
    if pattern == [] then (if request == [] then Captured([]) else NotServed)
    else if request == [] then NotServed
    else
      match pattern[0]
      case Rest(_) => Captured([DecodeSegment(Join(request, "/"))])
      case Single(_) =>
        if request[0] == "" || DecodeSegment(request[0]) == "/" then NotServed
        else
          var r := Match(pattern[1..], request[1..]);
          if r.NotServed? then NotServed else Captured([DecodeSegment(request[0])] + r.values)
      case Literal(text) =>
        if DecodeSegment(request[0]) == DecodeSegment(text) then Match(pattern[1..], request[1..]) else NotServed
  }

  predicate IsDots(s: string) { s == "." || s == ".." }

  /** cleanPath leaves these segments alone: no ".", no "..", and an empty one only at the end. */
  predicate CleanSegments(segs: seq<string>) {
    forall i | 0 <= i < |segs| :: !IsDots(segs[i]) && (segs[i] == "" ==> i == |segs| - 1)
  }

  predicate IsCleanPath(path: string) {
    var segs := Split(path, '/');
    |segs| >= 2 && segs[0] == "" && CleanSegments(segs[1..])
  }

  /** A path that is not clean is redirected, not served. */
  function Serve(registered: string, path: string): Captured {
    if IsCleanPath(path) then Match(Register(registered), Split(path, '/')) else NotServed
  }

  /** req.PathValue: the value of the first wildcard with that name. */
  function PathValue(pattern: seq<Segment>, values: seq<string>, name: string): string {
    if pattern == [] || values == [] then ""
    else if pattern[0].Literal? then PathValue(pattern[1..], values, name)
    else if pattern[0].name == name then values[0]
    else PathValue(pattern[1..], values[1..], name)
  }

  function WildcardNames(pattern: seq<Segment>): seq<string> {
    if pattern == [] then []
    else (if pattern[0].Literal? then [] else [pattern[0].name]) + WildcardNames(pattern[1..])
  }

  /** With distinct names, PathValue of the i-th name is the i-th capture. */
  lemma {:induction false} PathValueAt(pattern: seq<Segment>, values: seq<string>, i: nat)
    requires |values| == |WildcardNames(pattern)| && i < |values|
    requires Distinct(WildcardNames(pattern))
    ensures PathValue(pattern, values, WildcardNames(pattern)[i]) == values[i]
  {
    var names, tail := WildcardNames(pattern), WildcardNames(pattern[1..]);
    if pattern[0].Literal? {
      assert names == tail;
      PathValueAt(pattern[1..], values, i);
    } else {
      DistinctTail(pattern[0].name, tail);
      if i > 0 {
        assert names[i] == tail[i - 1];
        PathValueAt(pattern[1..], values[1..], i - 1);
      }
    }
  }
}
