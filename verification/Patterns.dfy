/** The three plugins' translation of a google.api.http path pattern into a ServeMux path and
    its variables. `GoParse` and `SharedParse` say what the loops compute, as tokens; the
    methods are the loops, which write strings. */
module Patterns {
  import opened Text
  import opened Template
  import Decimal

  datatype Option<+T> = None | Some(value: T)

  /** What stands between braces: a field path and, after '=', the literals between the '*'s. */
  datatype VarSpec = VarSpec(fieldPath: string, parts: seq<string>) {
    predicate Valid() { |parts| >= 1 }
    function Stars(): int { |parts| - 1 }
    function Prefix(): string requires Valid() { parts[0] }
    predicate HasWildcard() { Stars() > 0 }
    predicate IsMulti() { Stars() > 1 }
    /** One '*' with a literal after it: the variable takes the rest of the path. */
    predicate IsRest() requires Valid() { Stars() == 1 && parts[1] != "" }
    function Name(): string { LastSegment(fieldPath) }
  }

  /** The part of a field path after its last '.'. */
  function LastSegment(fieldPath: string): (r: string)
    ensures '.' !in r
  {
    if '.' in fieldPath then LastSegment(fieldPath[1..]) else fieldPath
  }

  function ParsePlaceholder(placeholder: string): (v: VarSpec)
    ensures v.Valid()
  {
    var cut := CutAt(placeholder, "=");
    if cut.found then VarSpec(cut.before, Split(cut.after, '*')) else VarSpec(placeholder, [""])
  }

  function SubName(name: string, idx: nat): string { name + "_" + Decimal.Print(idx) }

  function SubNames(name: string, n: nat): (names: seq<string>)
    ensures |names| == n
  {
    if n == 0 then [] else SubNames(name, n - 1) + [SubName(name, n - 1)]
  }

  datatype Multi = Multi(idx: nat, fieldPath: string, prefix: string, seps: seq<string>, names: seq<string>,
                         lastVerb: string)

  datatype PathVar = PathVar(name: string, fieldPath: string, prefix: string, wildcard: bool, customVerb: string,
                             multi: Option<Multi>)

  /** What the three plugins agree on about a variable. */
  datatype SharedMulti = SharedMulti(fieldPath: string, prefix: string, seps: seq<string>, idx: nat)

  datatype SharedVar = SharedVar(name: string, fieldPath: string, prefix: string, wildcard: bool,
                                 multi: Option<SharedMulti>)

  function Separators(parts: seq<string>): (seps: seq<string>)
    requires |parts| >= 2
    ensures |seps| == |parts| - 2
  {
    parts[1..|parts| - 1]
  }

  predicate AtGroup(s: string) { s != "" && s[0] == '{' && '}' in s }

  /** "{...}" and what follows it. */
  datatype Group = Group(spec: VarSpec, after: string)

  function ReadGroup(s: string): (g: Group)
    requires AtGroup(s)
    ensures g.spec.Valid() && |g.after| < |s| && g.after == s[|s| - |g.after|..]
  {
    var inside := Before(s, '}');
    Group(ParsePlaceholder(inside[1..]), s[|inside| + 1..])
  }

  // ---- one variable ----

  /** {name_k}, sep, {name_k+1}, ... up to the last wildcard. */
  function MultiTokens(name: string, parts: seq<string>, k: nat): seq<Token>
    requires k < |parts| - 1
    decreases |parts| - k
  {
    [Var(Hole(SubName(name, k), false))] +
    if k + 1 < |parts| - 1 then Chars(parts[k + 1]) + MultiTokens(name, parts, k + 1) else []
  }

  /** The path one variable writes. A trailing literal that starts with the verb is dropped. */
  function VarTokens(v: VarSpec, toEnd: bool, verb: string): seq<Token>
    requires v.Valid()
  {
    if v.IsMulti() then
      var trailing := v.parts[|v.parts| - 1];
      Chars(v.Prefix()) + MultiTokens(v.Name(), v.parts, 0)
        + (if verb == "" || !(verb <= trailing) then Chars(trailing) else [])
    else
      Chars(v.Prefix()) + [Var(Hole(v.Name(), v.IsRest() && toEnd))]
  }

  function GoMultiVar(v: VarSpec, idx: nat, verb: string): PathVar
    requires v.IsMulti()
  {
    PathVar(SubName(v.Name(), idx), if idx == 0 then v.fieldPath else "", "", true, "",
            Some(Multi(idx, v.fieldPath, v.parts[0], Separators(v.parts), SubNames(v.Name(), v.Stars()), verb)))
  }

  function GoMultiVars(v: VarSpec, from_: nat, verb: string): (vars: seq<PathVar>)
    requires v.IsMulti() && from_ <= v.Stars()
    ensures |vars| == v.Stars() - from_
    decreases v.Stars() - from_
  {
    if from_ == v.Stars() then [] else [GoMultiVar(v, from_, verb)] + GoMultiVars(v, from_ + 1, verb)
  }

  function GoVars(v: VarSpec, verb: string): seq<PathVar>
    requires v.Valid()
  {
    if v.IsMulti() then GoMultiVars(v, 0, verb)
    else [PathVar(v.Name(), v.fieldPath, v.Prefix(), v.HasWildcard(), verb, None)]
  }

  function SharedMultiVar(v: VarSpec, idx: nat): SharedVar
    requires v.IsMulti()
  {
    SharedVar(SubName(v.Name(), idx), v.fieldPath, "", true,
              Some(SharedMulti(v.fieldPath, v.parts[0], Separators(v.parts), idx)))
  }

  function SharedMultiVars(v: VarSpec, from_: nat): (vars: seq<SharedVar>)
    requires v.IsMulti() && from_ <= v.Stars()
    ensures |vars| == v.Stars() - from_
    decreases v.Stars() - from_
  {
    if from_ == v.Stars() then [] else [SharedMultiVar(v, from_)] + SharedMultiVars(v, from_ + 1)
  }

  function SharedVars(v: VarSpec): seq<SharedVar>
    requires v.Valid()
  {
    if v.IsMulti() then SharedMultiVars(v, 0)
    else [SharedVar(v.Name(), v.fieldPath, v.Prefix(), v.HasWildcard(), None)]
  }

  // ---- the Go plugin ----

  datatype Parsed = Parsed(vars: seq<PathVar>, tokens: seq<Token>, verb: string)

  /** The verb known once the text after the closing brace is seen. */
  function VerbAfter(v: VarSpec, after: string, verb: string): string {
    if v.HasWildcard() && ":" <= after then Before(after, '/') else verb
  }

  predicate GoAtEnd(after: string, verb: string) {
    after == "" || after == "/" || (verb != "" && after == verb)
  }

  function SkipVerb(after: string, verb: string): (r: string)
    ensures |r| <= |after|
  {
    if verb != "" && verb <= after then after[|verb|..] else after
  }

  function GoFrom(s: string, verb: string): Parsed
    decreases |s|
  {
    if s == "" then Parsed([], [], verb)
    else if !AtGroup(s) then
      var r := GoFrom(s[1..], verb);
      r.(tokens := [Ch(s[0])] + r.tokens)
    else
      var g := ReadGroup(s);
      var newVerb := VerbAfter(g.spec, g.after, verb);
      var r := GoFrom(SkipVerb(g.after, newVerb), newVerb);
      Parsed(GoVars(g.spec, newVerb) + r.vars,
             VarTokens(g.spec, GoAtEnd(g.after, newVerb), newVerb) + r.tokens, r.verb)
  }

  function GoParse(pattern: string): Parsed { GoFrom(pattern, "") }

  // ---- the Python and TypeScript plugins, whose loops are the same ----

  datatype Shared = Shared(vars: seq<SharedVar>, tokens: seq<Token>)

  predicate SharedAtEnd(after: string) { after == "" || after == "/" }

  function SharedFrom(s: string): Shared
    decreases |s|
  {
    if s == "" then Shared([], [])
    else if !AtGroup(s) then
      var r := SharedFrom(s[1..]);
      r.(tokens := [Ch(s[0])] + r.tokens)
    else
      var g := ReadGroup(s);
      var r := SharedFrom(g.after);
      Shared(SharedVars(g.spec) + r.vars, VarTokens(g.spec, SharedAtEnd(g.after), "") + r.tokens)
  }

  // ---- the loops ----

  lemma LastDot(fieldPath: string, dot: int)
    requires -1 <= dot < |fieldPath|
    requires dot >= 0 ==> fieldPath[dot] == '.'
    requires forall k | dot < k < |fieldPath| :: fieldPath[k] != '.'
    ensures LastSegment(fieldPath) == fieldPath[dot + 1..]
  {
    if dot >= 0 {
      assert fieldPath[dot] in fieldPath;
      LastDot(fieldPath[1..], dot - 1);
    }
  }

  /** strings.LastIndex(fieldPath, ".") and the slice after it. */
  method Sanitize(fieldPath: string) returns (name: string)
    ensures name == LastSegment(fieldPath)
  {
    var dot := |fieldPath| - 1;
    while dot >= 0 && fieldPath[dot] != '.'
      invariant -1 <= dot < |fieldPath|
      invariant forall k | dot < k < |fieldPath| :: fieldPath[k] != '.'
    {
      dot := dot - 1;
    }
    LastDot(fieldPath, dot);
    name := fieldPath[dot + 1..];
  }

  /** Writes the wildcards of a multi-wildcard variable and the literals between them. */
  method WriteMulti(name: string, parts: seq<string>) returns (text: string)
    requires |parts| >= 2
    ensures text == Show(MultiTokens(name, parts, 0))
  {
    text := "";
    var n := |parts| - 1;
    var wi := 0;
    while wi < n
      invariant 0 <= wi <= n
      invariant wi < n ==> text + Show(MultiTokens(name, parts, wi)) == Show(MultiTokens(name, parts, 0))
      invariant wi == n ==> text == Show(MultiTokens(name, parts, 0))
    {
      ghost var before := text;
      var hole := Hole(SubName(name, wi), false);
      text := text + "{" + SubName(name, wi) + "}";
      if wi < n - 1 { text := text + parts[wi + 1]; }
      MultiStep(name, parts, wi, before);
      wi := wi + 1;
    }
  }

  lemma {:induction false} MultiStep(name: string, parts: seq<string>, k: nat, before: string)
    requires k < |parts| - 1
    ensures before + Show(MultiTokens(name, parts, k)) ==
      before + "{" + SubName(name, k) + "}" +
        if k + 1 < |parts| - 1 then parts[k + 1] + Show(MultiTokens(name, parts, k + 1)) else ""
  {
    var hole := Hole(SubName(name, k), false);
    var more := k + 1 < |parts| - 1;
    var tail := if more then Chars(parts[k + 1]) + MultiTokens(name, parts, k + 1) else [];
    ShowOne(hole);
    ShowConcat([Var(hole)], tail);
    if more {
      ShowChars(parts[k + 1]);
      ShowConcat(Chars(parts[k + 1]), MultiTokens(name, parts, k + 1));
    }
    FourParts(before, SubName(name, k), Show(tail));
  }

  lemma FourParts(before: string, name: string, tail: string)
    ensures before + ("{" + name + "" + "}" + tail) == before + "{" + name + "}" + tail
  {
  }

  lemma {:induction false} ShowMulti(v: VarSpec, toEnd: bool, verb: string)
    requires v.IsMulti()
    ensures var trailing := v.parts[|v.parts| - 1];
      Show(VarTokens(v, toEnd, verb)) == v.Prefix() + Show(MultiTokens(v.Name(), v.parts, 0))
        + if verb == "" || !(verb <= trailing) then trailing else ""
  {
    var prefix, wildcards := Chars(v.Prefix()), MultiTokens(v.Name(), v.parts, 0);
    var trailing := v.parts[|v.parts| - 1];
    ShowChars(v.Prefix());
    ShowChars(trailing);
    ShowConcat(prefix, wildcards);
    ShowConcat(prefix + wildcards, if verb == "" || !(verb <= trailing) then Chars(trailing) else []);
  }

  lemma {:induction false} ShowSingle(v: VarSpec, toEnd: bool, verb: string)
    requires v.Valid() && !v.IsMulti()
    ensures Show(VarTokens(v, toEnd, verb))
      == v.Prefix() + ("{" + v.Name() + (if v.IsRest() && toEnd then "..." else "") + "}")
  {
    var hole := Hole(v.Name(), v.IsRest() && toEnd);
    ShowOne(hole);
    ShowChars(v.Prefix());
    ShowConcat(Chars(v.Prefix()), [Var(hole)]);
  }

  lemma ShowOne(h: Hole)
    ensures Show([Var(h)]) == "{" + h.name + (if h.rest then "..." else "") + "}"
  {
    assert [Var(h)][1..] == [];
    assert Show([Var(h)]) == Placeholder(h) + "" == Placeholder(h);
    assert "{" + (h.name + (if h.rest then "..." else "")) + "}" == "{" + h.name + (if h.rest then "..." else "") + "}";
  }

  lemma {:induction false} ShowVar(v: VarSpec, toEnd: bool, verb: string)
    requires v.Valid()
    ensures v.IsMulti() ==>
      var trailing := v.parts[|v.parts| - 1];
      Show(VarTokens(v, toEnd, verb)) == v.Prefix() + Show(MultiTokens(v.Name(), v.parts, 0))
        + if verb == "" || !(verb <= trailing) then trailing else ""
    ensures !v.IsMulti() ==>
      Show(VarTokens(v, toEnd, verb))
          == v.Prefix() + ("{" + v.Name() + (if v.IsRest() && toEnd then "..." else "") + "}")
  {
    if v.IsMulti() { ShowMulti(v, toEnd, verb); } else { ShowSingle(v, toEnd, verb); }
  }

  /** The body of the loops for one "{...}": what it writes for the Go plugin, or, without a verb,
      for the other two. */
  method WriteVar(v: VarSpec, toEnd: bool, verb: string) returns (text: string)
    requires v.Valid()
    ensures text == Show(VarTokens(v, toEnd, verb))
  {
    text := v.Prefix();
    var name := Sanitize(v.fieldPath);
    if |v.parts| - 1 > 1 {
      var wildcards := WriteMulti(name, v.parts);
      text := text + wildcards;
      var trailing := v.parts[|v.parts| - 1];
      if trailing != "" && (verb == "" || !(verb <= trailing)) { text := text + trailing; }
    } else {
      text := text + ("{" + name + (if v.IsRest() && toEnd then "..." else "") + "}");
    }
    ShowVar(v, toEnd, verb);
  }

  /** The path variables of one "{...}": one per wildcard. */
  method CollectGoVars(v: VarSpec, verb: string) returns (vars: seq<PathVar>)
    requires v.Valid()
    ensures vars == GoVars(v, verb)
  {
    if |v.parts| - 1 <= 1 {
      return [PathVar(v.Name(), v.fieldPath, v.Prefix(), |v.parts| - 1 > 0, verb, None)];
    }
    vars := [];
    ghost var goal := GoMultiVars(v, 0, verb);
    assert [] + goal == goal;
    var wi := 0;
    while wi < |v.parts| - 1
      invariant 0 <= wi <= |v.parts| - 1
      invariant vars + GoMultiVars(v, wi, verb) == goal
    {
      GoMultiStep(vars, v, wi, verb);
      vars := vars + [GoMultiVar(v, wi, verb)];
      wi := wi + 1;
    }
    assert vars + [] == vars;
  }

  lemma GoMultiStep(vars: seq<PathVar>, v: VarSpec, k: nat, verb: string)
    requires v.IsMulti() && k < v.Stars()
    ensures vars + GoMultiVars(v, k, verb) == (vars + [GoMultiVar(v, k, verb)]) + GoMultiVars(v, k + 1, verb)
  {
    Assoc(vars, [GoMultiVar(v, k, verb)], GoMultiVars(v, k + 1, verb));
  }

  method CollectSharedVars(v: VarSpec) returns (vars: seq<SharedVar>)
    requires v.Valid()
    ensures vars == SharedVars(v)
  {
    if |v.parts| - 1 <= 1 {
      return [SharedVar(v.Name(), v.fieldPath, v.Prefix(), |v.parts| - 1 > 0, None)];
    }
    vars := [];
    ghost var goal := SharedMultiVars(v, 0);
    assert [] + goal == goal;
    var wi := 0;
    while wi < |v.parts| - 1
      invariant 0 <= wi <= |v.parts| - 1
      invariant vars + SharedMultiVars(v, wi) == goal
    {
      SharedMultiStep(vars, v, wi);
      vars := vars + [SharedMultiVar(v, wi)];
      wi := wi + 1;
    }
    assert vars + [] == vars;
  }

  lemma SharedMultiStep(vars: seq<SharedVar>, v: VarSpec, k: nat)
    requires v.IsMulti() && k < v.Stars()
    ensures vars + SharedMultiVars(v, k) == (vars + [SharedMultiVar(v, k)]) + SharedMultiVars(v, k + 1)
  {
    Assoc(vars, [SharedMultiVar(v, k)], SharedMultiVars(v, k + 1));
  }

  lemma {:induction false} ShowStep(head: seq<Token>, text: string, tail: seq<Token>)
    requires Show(head) == text
    ensures Show(head + tail) == text + Show(tail)
  {
    ShowConcat(head, tail);
  }

  lemma ShowChar(c: char)
    ensures Show([Ch(c)]) == [c]
  {
    assert [Ch(c)][1..] == [];
  }

  /** `vars` and `text` are what `r` adds to `t`. */
  predicate Adds(r: Parsed, t: Parsed, vars: seq<PathVar>, text: string) {
    r.vars == vars + t.vars && Show(r.tokens) == text + Show(t.tokens) && r.verb == t.verb
  }

  /** What the function does with one "{...}". */
  lemma GoFromGroup(s: string, verb: string)
    requires AtGroup(s)
    ensures var g := ReadGroup(s);
      var newVerb := VerbAfter(g.spec, g.after, verb);
      Adds(GoFrom(s, verb), GoFrom(SkipVerb(g.after, newVerb), newVerb), GoVars(g.spec, newVerb),
           Show(VarTokens(g.spec, GoAtEnd(g.after, newVerb), newVerb)))
  {
    var g := ReadGroup(s);
    var newVerb := VerbAfter(g.spec, g.after, verb);
    ShowConcat(VarTokens(g.spec, GoAtEnd(g.after, newVerb), newVerb),
               GoFrom(SkipVerb(g.after, newVerb), newVerb).tokens);
  }

  lemma SkippedText(s: string, after: string, verb: string)
    requires |after| < |s| && after == s[|s| - |after|..]
    ensures var used := |s| - |after| + if verb != "" && verb <= after then |verb| else 0;
      1 <= used <= |s| && s[used..] == SkipVerb(after, verb)
  {
  }

  /** The body of the loop for one "{...}": the verb is looked up, and skipped if it comes next. */
  method GoGroup(v: VarSpec, after: string, verb: string)
    returns (vars: seq<PathVar>, text: string, newVerb: string, skipped: nat)
    requires v.Valid()
    ensures newVerb == VerbAfter(v, after, verb) && vars == GoVars(v, newVerb)
    ensures text == Show(VarTokens(v, GoAtEnd(after, newVerb), newVerb))
    ensures skipped == if newVerb != "" && newVerb <= after then |newVerb| else 0
  {
    newVerb := verb;
    if |v.parts| - 1 > 0 && ":" <= after { newVerb := Before(after, '/'); }
    var isAtEnd := after == "" || after == "/" || (newVerb != "" && after == newVerb);
    text := WriteVar(v, isAtEnd, newVerb);
    vars := CollectGoVars(v, newVerb);
    skipped := if newVerb != "" && newVerb <= after then |newVerb| else 0;
  }

  lemma GoAfterGroup(s: string, verb: string, used: nat)
    requires AtGroup(s)
    requires var g := ReadGroup(s);
      var newVerb := VerbAfter(g.spec, g.after, verb);
      used == |s| - |g.after| + if newVerb != "" && newVerb <= g.after then |newVerb| else 0
    ensures var g := ReadGroup(s);
      var newVerb := VerbAfter(g.spec, g.after, verb);
      && 1 <= used <= |s|
      && Adds(GoFrom(s, verb), GoFrom(s[used..], newVerb), GoVars(g.spec, newVerb),
              Show(VarTokens(g.spec, GoAtEnd(g.after, newVerb), newVerb)))
  {
    var g := ReadGroup(s);
    var newVerb := VerbAfter(g.spec, g.after, verb);
    SkippedText(s, g.after, newVerb);
    GoFromGroup(s, verb);
    SameRest(GoFrom(s, verb), s[used..], SkipVerb(g.after, newVerb), newVerb, GoVars(g.spec, newVerb),
             Show(VarTokens(g.spec, GoAtEnd(g.after, newVerb), newVerb)));
  }

  lemma SameRest(r: Parsed, rest: string, other: string, verb: string, vars: seq<PathVar>, text: string)
    requires rest == other && Adds(r, GoFrom(other, verb), vars, text)
    ensures Adds(r, GoFrom(rest, verb), vars, text)
  {
  }

  lemma GoFromChar(s: string, verb: string)
    requires s != "" && !AtGroup(s)
    ensures Adds(GoFrom(s, verb), GoFrom(s[1..], verb), [], [s[0]])
  {
    ShowChar(s[0]);
    ShowStep([Ch(s[0])], [s[0]], GoFrom(s[1..], verb).tokens);
  }

  /** One round of the Go plugin's loop at the text `s`: `used` bytes are consumed. */
  method GoRound(s: string, verb: string) returns (vars: seq<PathVar>, text: string, newVerb: string, used: nat)
    requires s != ""
    ensures 1 <= used <= |s| && Adds(GoFrom(s, verb), GoFrom(s[used..], newVerb), vars, text)
  {
    if AtGroup(s) {
      var g := ReadGroup(s);
      var skipped;
      vars, text, newVerb, skipped := GoGroup(g.spec, g.after, verb);
      used := |s| - |g.after| + skipped;
      GoAfterGroup(s, verb, used);
    } else {
      vars, text, newVerb, used := [], [s[0]], verb, 1;
      GoFromChar(s, verb);
    }
  }

  lemma AddsMore(r: Parsed, t: Parsed, u: Parsed, vars: seq<PathVar>, text: string, moreVars: seq<PathVar>,
                 moreText: string)
    requires Adds(r, t, vars, text) && Adds(t, u, moreVars, moreText)
    ensures Adds(r, u, vars + moreVars, text + moreText)
  {
    Assoc(text, moreText, Show(u.tokens));
    Assoc(vars, moreVars, u.vars);
  }

  lemma AddsNothing(r: Parsed)
    ensures Adds(r, r, [], "")
  {
  }

  lemma AddsAll(r: Parsed, verb: string, vars: seq<PathVar>, text: string)
    requires Adds(r, Parsed([], [], verb), vars, text)
    ensures r.vars == vars && Show(r.tokens) == text && r.verb == verb
  {
  }

  method ParseURLPatternToServeMux(pattern: string) returns (vars: seq<PathVar>, path: string, verb: string)
    ensures var p := GoParse(pattern); vars == p.vars && path == Show(p.tokens) && verb == p.verb
  {
    vars, path, verb := [], "", "";
    var rest := pattern; // pattern[i:]
    ghost var goal := GoParse(pattern);
    AddsNothing(goal);
    while rest != ""
      invariant Adds(goal, GoFrom(rest, verb), vars, path)
      decreases |rest|
    {
      var moreVars, text, newVerb, used := GoRound(rest, verb);
      AddsMore(goal, GoFrom(rest, verb), GoFrom(rest[used..], newVerb), vars, path, moreVars, text);
      vars, path, verb, rest := vars + moreVars, path + text, newVerb, rest[used..];
    }
    AddsAll(goal, verb, vars, path);
  }

  predicate SharedAdds(r: Shared, t: Shared, vars: seq<SharedVar>, text: string) {
    r.vars == vars + t.vars && Show(r.tokens) == text + Show(t.tokens)
  }

  lemma SharedGroup(s: string)
    requires AtGroup(s)
    ensures var g := ReadGroup(s);
      SharedAdds(SharedFrom(s), SharedFrom(g.after), SharedVars(g.spec),
                 Show(VarTokens(g.spec, SharedAtEnd(g.after), "")))
  {
    var g := ReadGroup(s);
    ShowConcat(VarTokens(g.spec, SharedAtEnd(g.after), ""), SharedFrom(g.after).tokens);
  }

  lemma SharedChar(s: string)
    requires s != "" && !AtGroup(s)
    ensures SharedAdds(SharedFrom(s), SharedFrom(s[1..]), [], [s[0]])
  {
    ShowChar(s[0]);
    ShowStep([Ch(s[0])], [s[0]], SharedFrom(s[1..]).tokens);
  }

  lemma SharedAddsMore(r: Shared, t: Shared, u: Shared, vars: seq<SharedVar>, text: string, moreVars: seq<SharedVar>,
                       moreText: string)
    requires SharedAdds(r, t, vars, text) && SharedAdds(t, u, moreVars, moreText)
    ensures SharedAdds(r, u, vars + moreVars, text + moreText)
  {
    Assoc(text, moreText, Show(u.tokens));
    Assoc(vars, moreVars, u.vars);
  }

  lemma SharedAddsNothing(r: Shared)
    ensures SharedAdds(r, r, [], "")
  {
  }

  lemma SharedAddsAll(r: Shared, vars: seq<SharedVar>, text: string)
    requires SharedAdds(r, Shared([], []), vars, text)
    ensures r.vars == vars && Show(r.tokens) == text
  {
  }

  method SharedRound(s: string) returns (vars: seq<SharedVar>, text: string, used: nat)
    requires s != ""
    ensures 1 <= used <= |s| && SharedAdds(SharedFrom(s), SharedFrom(s[used..]), vars, text)
  {
    if !AtGroup(s) {
      vars, text, used := [], [s[0]], 1;
      SharedChar(s);
      return;
    }
    var g := ReadGroup(s);
    SharedGroup(s);
    var isAtEnd := g.after == "" || g.after == "/";
    text := WriteVar(g.spec, isAtEnd, "");
    vars := CollectSharedVars(g.spec);
    used := |s| - |g.after|;
  }

  /** The loop of the Python plugin, and of the TypeScript plugin. */
  method ParsePathPattern(pattern: string) returns (vars: seq<SharedVar>, path: string)
    ensures var p := SharedFrom(pattern); vars == p.vars && path == Show(p.tokens)
  {
    vars, path := [], "";
    var rest := pattern; // pattern[i:]
    ghost var goal := SharedFrom(pattern);
    SharedAddsNothing(goal);
    while rest != ""
      invariant SharedAdds(goal, SharedFrom(rest), vars, path)
      decreases |rest|
    {
      var moreVars, text, used := SharedRound(rest);
      SharedAddsMore(goal, SharedFrom(rest), SharedFrom(rest[used..]), vars, path, moreVars, text);
      vars, path, rest := vars + moreVars, path + text, rest[used..];
    }
    SharedAddsAll(goal, vars, path);
  }
}
