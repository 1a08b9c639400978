/** The Go plugin registers the routes, so the paths the Python and TypeScript plugins build must
    be the Go path followed by the Go verb. */
module Agreement {
  import opened Text
  import opened Template
  import opened Patterns

  /** A Go variable as the other plugins describe it. */
  function Forget(v: PathVar): SharedVar {
    match v.multi
    case None => SharedVar(v.name, v.fieldPath, v.prefix, v.wildcard, None)
    case Some(m) => SharedVar(v.name, m.fieldPath, v.prefix, v.wildcard,
                        Some(SharedMulti(m.fieldPath, m.prefix, m.seps, m.idx)))
  }

  function ForgetAll(vars: seq<PathVar>): (r: seq<SharedVar>)
    ensures |r| == |vars| && forall i | 0 <= i < |vars| :: r[i] == Forget(vars[i])
  {
    if vars == [] then [] else [Forget(vars[0])] + ForgetAll(vars[1..])
  }

  lemma {:induction false} ForgetConcat(a: seq<PathVar>, b: seq<PathVar>)
    ensures ForgetAll(a + b) == ForgetAll(a) + ForgetAll(b)
  {
  }

  /** Text after "}:" is the rest of the pattern and opens no further variable. */
  predicate VerbOnlyAtEnd(s: string) {
    forall i | 0 <= i && i + 1 < |s| && s[i] == '}' && s[i + 1] == ':' :: '/' !in s[i + 1..] && '{' !in s[i + 1..]
  }

  predicate NoColonInBraces(s: string) {
    forall i | 0 <= i < |s| && AtGroup(s[i..]) :: ':' !in Before(s[i..], '}')
  }

  /** A rest-of-path variable that is followed by a verb. */
  predicate RestWithVerb(s: string)
    decreases |s|
  {
    if s == "" then false
    else if !AtGroup(s) then RestWithVerb(s[1..])
    else
      var g := ReadGroup(s);
      (g.spec.IsRest() && ":" <= g.after) || RestWithVerb(g.after)
  }

  lemma {:induction false} SuffixKeepsConditions(s: string, k: nat)
    requires k <= |s| && VerbOnlyAtEnd(s) && NoColonInBraces(s)
    ensures VerbOnlyAtEnd(s[k..]) && NoColonInBraces(s[k..])
  {
    var t := s[k..];
    forall i | 0 <= i && i + 1 < |t| && t[i] == '}' && t[i + 1] == ':'
      ensures '/' !in t[i + 1..] && '{' !in t[i + 1..]
    {
      assert s[k + i] == '}' && s[k + i + 1] == ':';
      assert t[i + 1..] == s[k + i + 1..];
    }
    forall i | 0 <= i < |t| && AtGroup(t[i..])
      ensures ':' !in Before(t[i..], '}')
    {
      assert t[i..] == s[k + i..];
    }
  }

  lemma {:induction false} SplitCharsComeFrom(s: string, c: char, part: string, x: char)
    requires part in Split(s, c) && x in part
    ensures x in s
  {
    if s != "" {
      var rest := Split(s[1..], c);
      if part in rest { SplitCharsComeFrom(s[1..], c, part, x); }
      else if x in rest[0] { SplitCharsComeFrom(s[1..], c, rest[0], x); }
    }
  }

  lemma CutCharsComeFrom(s: string, sep: string, x: char)
    ensures x in CutAt(s, sep).after ==> x in s
  {
    var cut := CutAt(s, sep);
    CutSplits(s, sep);
    if cut.found { assert s == cut.before + sep + cut.after; }
  }

  /** A colon-free variable has a colon-free trailing literal. */
  lemma {:induction false} TrailingHasNoColon(placeholder: string)
    requires ':' !in placeholder
    ensures var v := ParsePlaceholder(placeholder); ':' !in v.parts[|v.parts| - 1]
  {
    var cut := CutAt(placeholder, "=");
    var v := ParsePlaceholder(placeholder);
    var trailing := v.parts[|v.parts| - 1];
    CutCharsComeFrom(placeholder, "=", ':');
    if cut.found && ':' in trailing {
      SplitCharsComeFrom(cut.after, '*', trailing, ':');
    }
  }

  lemma {:induction false} SharedText(s: string)
    requires '{' !in s
    ensures SharedFrom(s) == Shared([], Chars(s))
  {
    if s != "" {
      SharedText(s[1..]);
      assert Chars(s) == [Ch(s[0])] + Chars(s[1..]);
    }
  }

  lemma {:induction false} VarsAgree(v: VarSpec, verb: string)
    requires v.Valid()
    ensures ForgetAll(GoVars(v, verb)) == SharedVars(v)
  {
    if v.IsMulti() { MultiVarsAgree(v, 0, verb); }
  }

  lemma {:induction false} MultiVarsAgree(v: VarSpec, k: nat, verb: string)
    requires v.IsMulti() && k <= v.Stars()
    ensures ForgetAll(GoMultiVars(v, k, verb)) == SharedMultiVars(v, k)
    decreases v.Stars() - k
  {
    if k < v.Stars() {
      MultiVarsAgree(v, k + 1, verb);
      assert ([GoMultiVar(v, k, verb)] + GoMultiVars(v, k + 1, verb))[1..] == GoMultiVars(v, k + 1, verb);
    }
  }

  /** What a verb changes in the text of one variable. */
  lemma {:induction false} VarTextAgrees(v: VarSpec, verb: string)
    requires v.Valid() && verb != "" && verb[0] == ':' && ':' !in v.parts[|v.parts| - 1]
    ensures !v.IsRest() ==> VarTokens(v, true, verb) == VarTokens(v, false, "")
    ensures v.IsRest() ==> |Show(VarTokens(v, true, verb))| == |Show(VarTokens(v, false, ""))| + 3
  {
    var trailing := v.parts[|v.parts| - 1];
    if trailing != "" { assert trailing[0] in trailing; }
    ShowVar(v, true, verb);
    ShowVar(v, false, "");
  }

  /** The simulation of the two loops, up to the three bytes "..." of a rest-of-path variable. */
  lemma {:induction false} LoopsAgree(s: string)
    requires VerbOnlyAtEnd(s) && NoColonInBraces(s)
    ensures var g, p := GoFrom(s, ""), SharedFrom(s);
      && ForgetAll(g.vars) == p.vars
      && (!RestWithVerb(s) ==> g.tokens + Chars(g.verb) == p.tokens)
      && |Show(g.tokens)| + |g.verb| == |Show(p.tokens)| + (if RestWithVerb(s) then 3 else 0)
    decreases |s|
  {
    if s == "" {
    } else if !AtGroup(s) {
      SuffixKeepsConditions(s, 1);
      LoopsAgree(s[1..]);
      var g, p := GoFrom(s[1..], ""), SharedFrom(s[1..]);
      Assoc([Ch(s[0])], g.tokens, Chars(g.verb));
      ShowConcat([Ch(s[0])], g.tokens);
      ShowConcat([Ch(s[0])], p.tokens);
    } else {
      GroupsAgree(s);
    }
  }

  lemma {:induction false} GroupsAgree(s: string)
    requires VerbOnlyAtEnd(s) && NoColonInBraces(s) && AtGroup(s)
    ensures var g, p := GoFrom(s, ""), SharedFrom(s);
      && ForgetAll(g.vars) == p.vars
      && (!RestWithVerb(s) ==> g.tokens + Chars(g.verb) == p.tokens)
      && |Show(g.tokens)| + |g.verb| == |Show(p.tokens)| + (if RestWithVerb(s) then 3 else 0)
    decreases |s|, 0
  {
    var g := ReadGroup(s);
    var v, after := g.spec, g.after;
    if v.HasWildcard() && ":" <= after {
      VerbGroupAgrees(s);
    } else {
      SuffixKeepsConditions(s, |s| - |after|);
      LoopsAgree(after);
      PlainGroupAgrees(s, GoFrom(after, ""), SharedFrom(after));
    }
  }

  /** A variable without a verb is written alike by both loops. */
  lemma {:induction false} PlainGroupAgrees(s: string, rg: Parsed, rp: Shared)
    requires AtGroup(s) && !AtVerbGroup(s) && rg == GoFrom(ReadGroup(s).after, "")
      && rp == SharedFrom(ReadGroup(s).after)
    requires ForgetAll(rg.vars) == rp.vars
    ensures var g, p := GoFrom(s, ""), SharedFrom(s);
      && ForgetAll(g.vars) == p.vars && g.verb == rg.verb
      && (rg.tokens + Chars(rg.verb) == rp.tokens ==> g.tokens + Chars(g.verb) == p.tokens)
      && |Show(g.tokens)| - |Show(rg.tokens)| == |Show(p.tokens)| - |Show(rp.tokens)|
  {
    var g := ReadGroup(s);
    var tokens := VarTokens(g.spec, SharedAtEnd(g.after), "");
    VarsAgree(g.spec, "");
    ForgetConcat(GoVars(g.spec, ""), rg.vars);
    Assoc(tokens, rg.tokens, Chars(rg.verb));
    ShowConcat(tokens, rg.tokens);
    ShowConcat(tokens, rp.tokens);
  }

  predicate AtVerbGroup(s: string) {
    AtGroup(s) && ReadGroup(s).spec.HasWildcard() && ":" <= ReadGroup(s).after
  }

  lemma {:induction false} VerbTextIsLast(s: string)
    requires VerbOnlyAtEnd(s) && NoColonInBraces(s) && AtVerbGroup(s)
    ensures var g := ReadGroup(s);
      && '/' !in g.after && '{' !in g.after && g.after[0] == ':'
      && ':' !in g.spec.parts[|g.spec.parts| - 1]
  {
    var inside := Before(s, '}');
    assert s[0..] == s;
    assert s[|inside|] == '}' && s[|inside| + 1] == ':' && ReadGroup(s).after == s[|inside| + 1..];
    TrailingHasNoColon(inside[1..]);
  }

  lemma {:induction false} GoVerbGroup(s: string)
    requires AtVerbGroup(s) && '/' !in ReadGroup(s).after
    ensures var g := ReadGroup(s);
      GoFrom(s, "") == Parsed(GoVars(g.spec, g.after), VarTokens(g.spec, true, g.after), g.after)
  {
    var g := ReadGroup(s);
    VerbIsRest(g.after);
    assert VerbAfter(g.spec, g.after, "") == g.after;
    assert SkipVerb(g.after, g.after) == "";
  }

  lemma {:induction false} SharedVerbGroup(s: string)
    requires AtVerbGroup(s) && '{' !in ReadGroup(s).after
    ensures var g := ReadGroup(s);
      && SharedFrom(s) == Shared(SharedVars(g.spec), VarTokens(g.spec, false, "") + Chars(g.after))
      && (RestWithVerb(s) <==> g.spec.IsRest())
  {
    SharedText(ReadGroup(s).after);
    NoRestInText(ReadGroup(s).after);
  }

  lemma {:induction false} VerbGroupAgrees(s: string)
    requires VerbOnlyAtEnd(s) && NoColonInBraces(s) && AtVerbGroup(s)
    ensures var g, p := GoFrom(s, ""), SharedFrom(s);
      && ForgetAll(g.vars) == p.vars
      && (!RestWithVerb(s) ==> g.tokens + Chars(g.verb) == p.tokens)
      && |Show(g.tokens)| + |g.verb| == |Show(p.tokens)| + (if RestWithVerb(s) then 3 else 0)
  {
    var g := ReadGroup(s);
    VerbTextIsLast(s);
    GoVerbGroup(s);
    SharedVerbGroup(s);
    VarsAgree(g.spec, g.after);
    VarTextAgrees(g.spec, g.after);
    ShowChars(g.after);
    ShowConcat(VarTokens(g.spec, false, ""), Chars(g.after));
  }

  lemma {:induction false} VerbIsRest(after: string)
    requires '/' !in after
    ensures Before(after, '/') == after
  {
  }

  lemma {:induction false} NoRestInText(s: string)
    requires '{' !in s
    ensures !RestWithVerb(s)
  {
    if s != "" { NoRestInText(s[1..]); }
  }

  /** Cross-plugin agreement: names, prefixes, separators and indices always agree, and the paths
      agree exactly when no rest-of-path variable carries a verb. */
  lemma {:induction false} PluginsAgree(pattern: string)
    requires VerbOnlyAtEnd(pattern) && NoColonInBraces(pattern)
    ensures ForgetAll(GoParse(pattern).vars) == SharedFrom(pattern).vars
    ensures Show(GoParse(pattern).tokens) + GoParse(pattern).verb == Show(SharedFrom(pattern).tokens)
      <==> !RestWithVerb(pattern)
  {
    var g := GoParse(pattern);
    LoopsAgree(pattern);
    ShowChars(g.verb);
    ShowConcat(g.tokens, Chars(g.verb));
  }
}
