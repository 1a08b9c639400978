/** The message fields behind the variables of a pattern: which variables belong to which field,
    how the generated literal reads them back, and what reading back yields. */
module Fields {
  import opened Text
  import opened Template
  import opened ServeMux
  import opened Routing
  import opened Patterns
  import opened Wildcards
  import Agreement

  /** One assignment of the generated message literal: prefix + PathValue(names[0]) + seps[0] + ...,
      the verb trimmed from the last value. A single wildcard has no separators. */
  datatype Field = Field(fieldPath: string, prefix: string, seps: seq<string>, names: seq<string>, verb: string)

  function FieldOf(v: VarSpec, verb: string): (f: Field)
    requires v.Valid()
    ensures |f.names| == |f.seps| + 1
  {
    if v.IsMulti() then Field(v.fieldPath, v.parts[0], Separators(v.parts), SubNames(v.Name(), v.Stars()), verb)
    else Field(v.fieldPath, v.parts[0], [], [v.Name()], verb)
  }

  /** The assignment a variable gives rise to; only the first wildcard of a field has one. */
  function Assigned(v: PathVar): seq<Field> {
    if v.fieldPath == "" then []
    else match v.multi {
      case None => [Field(v.fieldPath, v.prefix, [], [v.name], v.customVerb)]
      case Some(m) => [Field(v.fieldPath, m.prefix, m.seps, m.names, m.lastVerb)]
    }
  }

  /** generateProtoLiteral: one assignment per variable that carries a field path. */
  function Assignments(vars: seq<PathVar>): seq<Field> {
    if vars == [] then [] else Assigned(vars[0]) + Assignments(vars[1..])
  }

  /** The fields of a pattern, group by group. */
  function FieldsFrom(s: string, verb: string): seq<Field>
    decreases |s|
  {
    if s == "" then []
    else if !AtGroup(s) then FieldsFrom(s[1..], verb)
    else
      var g := ReadGroup(s);
      var newVerb := VerbAfter(g.spec, g.after, verb);
      [FieldOf(g.spec, newVerb)] + FieldsFrom(SkipVerb(g.after, newVerb), newVerb)
  }

  predicate IsVarOf(v: PathVar, f: Field, k: nat) {
    && k < |f.names| && v.name == f.names[k]
    && v.fieldPath == (if k == 0 then f.fieldPath else "")
    && if f.seps == [] then v.multi.None? && v.prefix == f.prefix && v.customVerb == f.verb
       else v.multi == Some(Multi(k, f.fieldPath, f.prefix, f.seps, f.names, f.verb)) && v.prefix == ""
  }

  predicate WellFormed(fields: seq<Field>) {
    forall i | 0 <= i < |fields| :: |fields[i].names| == |fields[i].seps| + 1 && fields[i].fieldPath != ""
  }

  /** The variables are the wildcards of the fields, in order. */
  predicate Aligned(vars: seq<PathVar>, fields: seq<Field>)
    decreases |fields|
  {
    if fields == [] then vars == []
    else
      var n := |fields[0].names|;
      && n >= 1 && n <= |vars|
      && (forall k | 0 <= k < n :: IsVarOf(vars[k], fields[0], k))
      && Aligned(vars[n..], fields[1..])
  }

  lemma {:induction false} MultiVarAt(v: VarSpec, from_: nat, verb: string, k: nat)
    requires v.IsMulti() && from_ + k < v.Stars()
    ensures GoMultiVars(v, from_, verb)[k] == GoMultiVar(v, from_ + k, verb)
    decreases k
  {
    if k > 0 { MultiVarAt(v, from_ + 1, verb, k - 1); }
  }

  lemma {:induction false} SubNameAt(name: string, n: nat, k: nat)
    requires k < n
    ensures SubNames(name, n)[k] == SubName(name, k)
  {
    if k < n - 1 { SubNameAt(name, n - 1, k); }
  }

  lemma {:induction false} VarsOfField(v: VarSpec, verb: string)
    requires v.Valid()
    ensures var vars, f := GoVars(v, verb), FieldOf(v, verb);
      |vars| == |f.names| && forall k | 0 <= k < |vars| :: IsVarOf(vars[k], f, k)
  {
    var vars, f := GoVars(v, verb), FieldOf(v, verb);
    if v.IsMulti() {
      assert f.seps != [];
      forall k | 0 <= k < |vars|
        ensures IsVarOf(vars[k], f, k)
      {
        SubNameAt(v.Name(), v.Stars(), k);
        MultiVarAt(v, 0, verb, k);
      }
    }
  }

  lemma {:induction false} ParseIsAligned(s: string, verb: string)
    ensures Aligned(GoFrom(s, verb).vars, FieldsFrom(s, verb))
    decreases |s|
  {
    if s == "" {
    } else if !AtGroup(s) {
      ParseIsAligned(s[1..], verb);
    } else {
      var g := ReadGroup(s);
      var newVerb := VerbAfter(g.spec, g.after, verb);
      var after := SkipVerb(g.after, newVerb);
      ParseIsAligned(after, newVerb);
      VarsOfField(g.spec, newVerb);
      AlignedCons(GoVars(g.spec, newVerb), FieldOf(g.spec, newVerb), GoFrom(after, newVerb).vars,
                  FieldsFrom(after, newVerb));
    }
  }

  lemma AlignedHead(vars: seq<PathVar>, fields: seq<Field>)
    requires Aligned(vars, fields) && fields != []
    ensures var n := |fields[0].names|;
      && 1 <= n <= |vars| && vars == vars[..n] + vars[n..] && Aligned(vars[n..], fields[1..])
      && forall k | 0 <= k < n :: IsVarOf(vars[..n][k], fields[0], k)
  {
    var n := |fields[0].names|;
    forall k | 0 <= k < n
      ensures IsVarOf(vars[..n][k], fields[0], k)
    {
      assert vars[..n][k] == vars[k];
    }
  }

  lemma {:induction false} AlignedCons(head: seq<PathVar>, f: Field, vars: seq<PathVar>, fields: seq<Field>)
    requires |head| == |f.names| >= 1 && (forall k | 0 <= k < |head| :: IsVarOf(head[k], f, k))
    requires Aligned(vars, fields)
    ensures Aligned(head + vars, [f] + fields)
  {
    assert ([f] + fields)[1..] == fields && (head + vars)[|head|..] == vars;
  }

  lemma AssignmentsCons(v: PathVar, vars: seq<PathVar>)
    ensures Assignments([v] + vars) == Assigned(v) + Assignments(vars)
  {
    assert ([v] + vars)[1..] == vars;
  }

  lemma {:induction false} AssignmentsConcat(a: seq<PathVar>, b: seq<PathVar>)
    ensures Assignments(a + b) == Assignments(a) + Assignments(b)
  {
    if a == [] {
      assert a + b == b;
    } else {
      AssignmentsConcat(a[1..], b);
      ConsConcat(a, b);
      AssignmentsCons(a[0], a[1..] + b);
      Assoc(Assigned(a[0]), Assignments(a[1..]), Assignments(b));
    }
  }

  lemma {:induction false} NoAssignments(vars: seq<PathVar>)
    requires forall k | 0 <= k < |vars| :: vars[k].fieldPath == ""
    ensures Assignments(vars) == []
  {
    if vars != [] { NoAssignments(vars[1..]); }
  }

  lemma {:induction false} BlockAssigns(block: seq<PathVar>, f: Field)
    requires |block| == |f.names| == |f.seps| + 1 && f.fieldPath != ""
    requires forall k | 0 <= k < |block| :: IsVarOf(block[k], f, k)
    ensures Assignments(block) == [f]
  {
    var tail := block[1..];
    forall k | 0 <= k < |tail|
      ensures tail[k].fieldPath == ""
    {
      assert IsVarOf(block[k + 1], f, k + 1);
    }
    NoAssignments(tail);
    assert IsVarOf(block[0], f, 0);
    if f.seps == [] { assert f.names == [block[0].name]; }
  }

  /** The generated literal assigns exactly the fields of the pattern. */
  lemma {:induction false} AssignmentsAreFields(vars: seq<PathVar>, fields: seq<Field>)
    requires Aligned(vars, fields) && WellFormed(fields)
    ensures Assignments(vars) == fields
    decreases |fields|
  {
    if fields != [] {
      var n := |fields[0].names|;
      TailIsWellFormed(fields);
      AlignedHead(vars, fields);
      AssignmentsAreFields(vars[n..], fields[1..]);
      BlockAssigns(vars[..n], fields[0]);
      AssignmentsConcat(vars[..n], vars[n..]);
    }
  }

  // ---- the verb belongs to the last field ----

  predicate VerbOnLast(fields: seq<Field>, verb: string) {
    (forall i | 0 <= i < |fields| - 1 :: fields[i].verb == "")
    && if fields == [] then verb == "" else fields[|fields| - 1].verb == verb
  }

  lemma {:induction false} ParsePutsVerbOnLast(s: string)
    requires Agreement.VerbOnlyAtEnd(s)
    ensures VerbOnLast(FieldsFrom(s, ""), GoFrom(s, "").verb)
    decreases |s|
  {
    if s == "" {
    } else if !AtGroup(s) {
      VerbAtEndOfSuffix(s, 1);
      ParsePutsVerbOnLast(s[1..]);
    } else if Agreement.AtVerbGroup(s) {
      VerbGroupIsLastField(s);
    } else {
      VerbAtEndOfSuffix(s, |s| - |ReadGroup(s).after|);
      ParsePutsVerbOnLast(ReadGroup(s).after);
      PlainGroupKeepsVerb(s);
    }
  }

  lemma {:induction false} PlainGroupKeepsVerb(s: string)
    requires AtGroup(s) && !Agreement.AtVerbGroup(s)
    requires VerbOnLast(FieldsFrom(ReadGroup(s).after, ""), GoFrom(ReadGroup(s).after, "").verb)
    ensures VerbOnLast(FieldsFrom(s, ""), GoFrom(s, "").verb)
  {
    var g := ReadGroup(s);
    PlainGroupAddsField(s);
    VerbOnLastCons(FieldOf(g.spec, ""), FieldsFrom(g.after, ""), GoFrom(g.after, "").verb);
  }

  lemma {:induction false} VerbGroupIsLastField(s: string)
    requires Agreement.VerbOnlyAtEnd(s) && Agreement.AtVerbGroup(s)
    ensures var g := ReadGroup(s);
      FieldsFrom(s, "") == [FieldOf(g.spec, g.after)] && GoFrom(s, "").verb == g.after
    ensures VerbOnLast(FieldsFrom(s, ""), GoFrom(s, "").verb)
  {
    var g := ReadGroup(s);
    GroupVerbIsLast(s);
    Agreement.GoVerbGroup(s);
    Agreement.VerbIsRest(g.after);
    assert VerbAfter(g.spec, g.after, "") == g.after && SkipVerb(g.after, g.after) == "";
    assert FieldsFrom("", g.after) == [];
  }

  lemma {:induction false} PlainGroupAddsField(s: string)
    requires AtGroup(s) && !Agreement.AtVerbGroup(s)
    ensures var g := ReadGroup(s);
      FieldsFrom(s, "") == [FieldOf(g.spec, "")] + FieldsFrom(g.after, "")
          && GoFrom(s, "").verb == GoFrom(g.after, "").verb
  {
  }

  lemma {:induction false} VerbOnLastCons(f: Field, rest: seq<Field>, verb: string)
    requires f.verb == "" && VerbOnLast(rest, verb)
    ensures VerbOnLast([f] + rest, verb)
  {
    var all := [f] + rest;
    forall i | 0 <= i < |all| - 1
      ensures all[i].verb == ""
    {
      if i > 0 { assert all[i] == rest[i - 1]; }
    }
  }

  lemma {:induction false} VerbAtEndOfSuffix(s: string, k: nat)
    requires k <= |s| && Agreement.VerbOnlyAtEnd(s)
    ensures Agreement.VerbOnlyAtEnd(s[k..])
  {
    var t := s[k..];
    forall i | 0 <= i && i + 1 < |t| && t[i] == '}' && t[i + 1] == ':'
      ensures '/' !in t[i + 1..] && '{' !in t[i + 1..]
    {
      assert s[k + i] == '}' && s[k + i + 1] == ':';
      assert t[i + 1..] == s[k + i + 1..];
    }
  }

  lemma {:induction false} GroupVerbIsLast(s: string)
    requires Agreement.VerbOnlyAtEnd(s) && Agreement.AtVerbGroup(s)
    ensures '/' !in ReadGroup(s).after
  {
    var inside := Before(s, '}');
    assert s[|inside|] == '}' && s[|inside| + 1] == ':' && ReadGroup(s).after == s[|inside| + 1..];
  }

  // ---- placeholders ----

  function HoleNames(holes: seq<Hole>): (names: seq<string>)
    ensures |names| == |holes| && forall i | 0 <= i < |holes| :: names[i] == holes[i].name
  {
    if holes == [] then [] else [holes[0].name] + HoleNames(holes[1..])
  }

  function VarNames(vars: seq<PathVar>): (names: seq<string>)
    ensures |names| == |vars| && forall i | 0 <= i < |vars| :: names[i] == vars[i].name
  {
    if vars == [] then [] else [vars[0].name] + VarNames(vars[1..])
  }

  lemma {:induction false} NamesConcat(a: seq<Hole>, b: seq<Hole>, u: seq<PathVar>, v: seq<PathVar>)
    requires HoleNames(a) == VarNames(u) && HoleNames(b) == VarNames(v)
    ensures HoleNames(a + b) == VarNames(u + v)
  {
    forall i | 0 <= i < |a + b|
      ensures HoleNames(a + b)[i] == VarNames(u + v)[i]
    {
      if i < |a| {
        assert HoleNames(a)[i] == VarNames(u)[i];
      } else {
        assert HoleNames(b)[i - |a|] == VarNames(v)[i - |a|];
      }
    }
  }

  lemma OneHole(h: Hole)
    ensures Holes([Var(h)]) == [h]
  {
    assert [Var(h)][1..] == [];
  }

  lemma {:induction false} HoleThenText(h: Hole, text: string, rest: seq<Token>)
    ensures Holes([Var(h)] + (Chars(text) + rest)) == [h] + Holes(rest)
  {
    OneHole(h);
    HolesOfChars(text);
    HolesConcat(Chars(text), rest);
    HolesConcat([Var(h)], Chars(text) + rest);
    assert [] + Holes(rest) == Holes(rest);
  }

  lemma {:induction false} MultiTokensHoles(v: VarSpec, k: nat, verb: string)
    requires v.IsMulti() && k < v.Stars()
    ensures HoleNames(Holes(MultiTokens(v.Name(), v.parts, k))) == VarNames(GoMultiVars(v, k, verb))
    decreases v.Stars() - k
  {
    var h := Hole(SubName(v.Name(), k), false);
    if k + 1 < v.Stars() {
      MultiTokensHoles(v, k + 1, verb);
      HoleThenText(h, v.parts[k + 1], MultiTokens(v.Name(), v.parts, k + 1));
    } else {
      OneHole(h);
      assert [Var(h)] + [] == [Var(h)] && GoMultiVars(v, k + 1, verb) == [];
    }
  }

  lemma {:induction false} VarTokensHoles(v: VarSpec, toEnd: bool, verb: string)
    requires v.Valid()
    ensures HoleNames(Holes(VarTokens(v, toEnd, verb))) == VarNames(GoVars(v, verb))
  {
    HolesOfChars(v.Prefix());
    if v.IsMulti() {
      var trailing := v.parts[|v.parts| - 1];
      MultiTokensHoles(v, 0, verb);
      HolesBetweenText(v.Prefix(), MultiTokens(v.Name(), v.parts, 0),
                       if verb == "" || !(verb <= trailing) then trailing else "");
      assert Chars("") == [];
    } else {
      var hole := Hole(v.Name(), v.IsRest() && toEnd);
      OneHole(hole);
      HolesConcat(Chars(v.Prefix()), [Var(hole)]);
      assert [] + [hole] == [hole];
    }
  }

  lemma {:induction false} HolesBetweenText(before: string, ts: seq<Token>, after: string)
    ensures Holes(Chars(before) + ts + Chars(after)) == Holes(ts)
  {
    HolesOfChars(before);
    HolesOfChars(after);
    HolesConcat(Chars(before), ts);
    HolesConcat(Chars(before) + ts, Chars(after));
    assert [] + Holes(ts) + [] == Holes(ts);
  }

  /** The placeholders of the registered path are the variables' names, in order. */
  lemma {:induction false} PlaceholdersAreVariables(s: string, verb: string)
    ensures HoleNames(Holes(GoFrom(s, verb).tokens)) == VarNames(GoFrom(s, verb).vars)
    decreases |s|
  {
    if s == "" {
    } else if !AtGroup(s) {
      PlaceholdersAreVariables(s[1..], verb);
      var r := GoFrom(s[1..], verb);
      HolesConcat([Ch(s[0])], r.tokens);
      assert [] + Holes(r.tokens) == Holes(r.tokens);
    } else {
      var g := ReadGroup(s);
      var newVerb := VerbAfter(g.spec, g.after, verb);
      var after := SkipVerb(g.after, newVerb);
      PlaceholdersAreVariables(after, newVerb);
      var r := GoFrom(after, newVerb);
      var tokens := VarTokens(g.spec, GoAtEnd(g.after, newVerb), newVerb);
      VarTokensHoles(g.spec, GoAtEnd(g.after, newVerb), newVerb);
      HolesConcat(tokens, r.tokens);
      NamesConcat(Holes(tokens), Holes(r.tokens), GoVars(g.spec, newVerb), r.vars);
    }
  }

  /** Only a variable with one wildcard takes the rest of the path. */
  predicate RestIsWild(holes: seq<Hole>, vars: seq<PathVar>) {
    |holes| == |vars| && forall i | 0 <= i < |holes| && holes[i].rest :: vars[i].wildcard && vars[i].multi.None?
  }

  lemma RestIsWildConcat(a: seq<Hole>, u: seq<PathVar>, b: seq<Hole>, v: seq<PathVar>)
    requires RestIsWild(a, u) && RestIsWild(b, v)
    ensures RestIsWild(a + b, u + v)
  {
  }

  lemma {:induction false} NoRestInMulti(v: VarSpec, k: nat)
    requires v.IsMulti() && k < v.Stars()
    ensures forall h | h in Holes(MultiTokens(v.Name(), v.parts, k)) :: !h.rest
    decreases v.Stars() - k
  {
    var h := Hole(SubName(v.Name(), k), false);
    if k + 1 < v.Stars() {
      NoRestInMulti(v, k + 1);
      HoleThenText(h, v.parts[k + 1], MultiTokens(v.Name(), v.parts, k + 1));
    } else {
      OneHole(h);
      assert [Var(h)] + [] == [Var(h)];
    }
  }

  /** A variable with several wildcards is written as one placeholder per wildcard, wherever it
      stands, and never as the rest of the path. */
  lemma {:induction false} MultiIsExpanded(v: VarSpec, toEnd: bool, verb: string)
    requires v.IsMulti()
    ensures var holes := Holes(VarTokens(v, toEnd, verb));
      |holes| == v.Stars() && forall h | h in holes :: !h.rest
  {
    var trailing := v.parts[|v.parts| - 1];
    var tail := if verb == "" || !(verb <= trailing) then trailing else "";
    VarTokensHoles(v, toEnd, verb);
    assert |HoleNames(Holes(VarTokens(v, toEnd, verb)))| == |VarNames(GoMultiVars(v, 0, verb))|;
    NoRestInMulti(v, 0);
    HolesBetweenText(v.Prefix(), MultiTokens(v.Name(), v.parts, 0), tail);
    assert Chars("") == [];
  }

  lemma {:induction false} VarRestIsWild(v: VarSpec, toEnd: bool, verb: string)
    requires v.Valid()
    ensures RestIsWild(Holes(VarTokens(v, toEnd, verb)), GoVars(v, verb))
  {
    VarTokensHoles(v, toEnd, verb);
    var holes := Holes(VarTokens(v, toEnd, verb));
    assert |HoleNames(holes)| == |VarNames(GoVars(v, verb))|;
    if v.IsMulti() {
      MultiIsExpanded(v, toEnd, verb);
      assert forall i | 0 <= i < |holes| :: holes[i] in holes;
    } else {
      var hole := Hole(v.Name(), v.IsRest() && toEnd);
      OneHole(hole);
      HolesOfChars(v.Prefix());
      HolesConcat(Chars(v.Prefix()), [Var(hole)]);
      assert [] + [hole] == [hole];
    }
  }

  lemma {:induction false} ParsedRestIsWild(s: string, verb: string)
    ensures RestIsWild(Holes(GoFrom(s, verb).tokens), GoFrom(s, verb).vars)
    decreases |s|
  {
    if s == "" {
    } else if !AtGroup(s) {
      ParsedRestIsWild(s[1..], verb);
      var r := GoFrom(s[1..], verb);
      HolesConcat([Ch(s[0])], r.tokens);
      assert [] + Holes(r.tokens) == Holes(r.tokens);
    } else {
      var g := ReadGroup(s);
      var newVerb := VerbAfter(g.spec, g.after, verb);
      var after := SkipVerb(g.after, newVerb);
      ParsedRestIsWild(after, newVerb);
      var r := GoFrom(after, newVerb);
      var tokens := VarTokens(g.spec, GoAtEnd(g.after, newVerb), newVerb);
      VarRestIsWild(g.spec, GoAtEnd(g.after, newVerb), newVerb);
      HolesConcat(tokens, r.tokens);
      RestIsWildConcat(Holes(tokens), GoVars(g.spec, newVerb), Holes(r.tokens), r.vars);
    }
  }

  // ---- the client's values ----

  /** Unset fields read as the empty string. */
  type Message = map<string, string>

  function Get(msg: Message, fieldPath: string): string { if fieldPath in msg then msg[fieldPath] else "" }

  function RawValue(v: PathVar, msg: Message): string {
    match v.multi
    case None => TrimPrefix(Get(msg, v.fieldPath), v.prefix)
    case Some(m) => SplitN(Get(msg, m.fieldPath), m.prefix, m.seps, m.idx)
  }

  function RawValues(vars: seq<PathVar>, msg: Message): (r: seq<string>)
    ensures |r| == |vars| && forall i | 0 <= i < |vars| :: r[i] == RawValue(vars[i], msg)
  {
    seq(|vars|, i requires 0 <= i < |vars| => RawValue(vars[i], msg))
  }

  function FieldValues(f: Field, msg: Message): (r: seq<string>)
    ensures |r| == |f.seps| + 1
  {
    Pieces(TrimPrefix(Get(msg, f.fieldPath), f.prefix), f.seps)
  }

  function AllValues(fields: seq<Field>, msg: Message): seq<string> {
    if fields == [] then [] else FieldValues(fields[0], msg) + AllValues(fields[1..], msg)
  }

  function AllNames(fields: seq<Field>): seq<string> {
    if fields == [] then [] else fields[0].names + AllNames(fields[1..])
  }

  lemma OneValue(v: PathVar, f: Field, k: nat, msg: Message)
    requires |f.names| == |f.seps| + 1 && IsVarOf(v, f, k)
    ensures RawValue(v, msg) == FieldValues(f, msg)[k]
  {
  }

  lemma SameItems<T>(a: seq<T>, b: seq<T>)
    requires |a| == |b| && forall k | 0 <= k < |a| :: a[k] == b[k]
    ensures a == b
  {
  }

  lemma {:induction false} BlockValues(block: seq<PathVar>, f: Field, msg: Message)
    requires |block| == |f.names| == |f.seps| + 1
    requires forall k | 0 <= k < |block| :: IsVarOf(block[k], f, k)
    ensures RawValues(block, msg) == FieldValues(f, msg)
  {
    forall k | 0 <= k < |block|
      ensures RawValues(block, msg)[k] == FieldValues(f, msg)[k]
    {
      OneValue(block[k], f, k, msg);
    }
    SameItems(RawValues(block, msg), FieldValues(f, msg));
  }

  lemma {:induction false} RawValuesConcat(a: seq<PathVar>, b: seq<PathVar>, msg: Message)
    ensures RawValues(a + b, msg) == RawValues(a, msg) + RawValues(b, msg)
  {
  }

  lemma {:induction false} ValuesAndNames(vars: seq<PathVar>, fields: seq<Field>, msg: Message)
    requires Aligned(vars, fields) && WellFormed(fields)
    ensures RawValues(vars, msg) == AllValues(fields, msg)
    ensures VarNames(vars) == AllNames(fields)
    decreases |fields|
  {
    if fields != [] {
      var n := |fields[0].names|;
      TailIsWellFormed(fields);
      AlignedHead(vars, fields);
      ValuesAndNames(vars[n..], fields[1..], msg);
      BlockValues(vars[..n], fields[0], msg);
      RawValuesConcat(vars[..n], vars[n..], msg);
      BlockNames(vars, fields[0]);
    }
  }

  lemma {:induction false} BlockNames(vars: seq<PathVar>, f: Field)
    requires |f.names| <= |vars| && forall k | 0 <= k < |f.names| :: IsVarOf(vars[k], f, k)
    ensures VarNames(vars) == f.names + VarNames(vars[|f.names|..])
  {
    var n := |f.names|;
    var all, later := VarNames(vars), VarNames(vars[n..]);
    forall k | 0 <= k < n
      ensures all[k] == f.names[k]
    {
      assert IsVarOf(vars[k], f, k);
    }
    forall k | 0 <= k < |later|
      ensures all[n + k] == later[k]
    {
      assert vars[n..][k] == vars[n + k];
    }
    SameSum(all, f.names, later);
  }

  lemma SameSum<T>(all: seq<T>, a: seq<T>, b: seq<T>)
    requires |all| == |a| + |b| && forall k | 0 <= k < |a| :: all[k] == a[k]
    requires forall k | 0 <= k < |b| :: all[|a| + k] == b[k]
    ensures all == a + b
  {
    forall k | 0 <= k < |all|
      ensures all[k] == (a + b)[k]
    {
      if k >= |a| { assert all[|a| + (k - |a|)] == b[k - |a|]; }
    }
  }

  // ---- the server's fields ----

  function JoinValues(names: seq<string>, seps: seq<string>, verb: string, pattern: seq<Segment>,
                      captured: seq<string>): string
    requires |names| == |seps| + 1
  {
    if seps == [] then TrimSuffix(PathValue(pattern, captured, names[0]), verb)
    else PathValue(pattern, captured, names[0]) + seps[0] + JoinValues(names[1..], seps[1..], verb, pattern, captured)
  }

  function FieldText(f: Field, pattern: seq<Segment>, captured: seq<string>): string
    requires |f.names| == |f.seps| + 1
  {
    f.prefix + JoinValues(f.names, f.seps, f.verb, pattern, captured)
  }

  function FieldTexts(fields: seq<Field>, pattern: seq<Segment>, captured: seq<string>): (r: seq<string>)
    requires WellFormed(fields)
    ensures |r| == |fields|
  {
    if fields == [] then []
    else
      assert forall i | 0 <= i < |fields[1..]| :: fields[1..][i] == fields[i + 1];
      [FieldText(fields[0], pattern, captured)] + FieldTexts(fields[1..], pattern, captured)
  }

  /** The same fields read through the names of another registered path. */
  function Renamed(fields: seq<Field>, names: seq<string>): (r: seq<Field>)
    requires |names| == |AllNames(fields)|
    ensures |r| == |fields|
  {
    if fields == [] then []
    else
      var n := |fields[0].names|;
      [fields[0].(names := names[..n])] + Renamed(fields[1..], names[n..])
  }

  lemma {:induction false} RenamedStaysWellFormed(fields: seq<Field>, names: seq<string>)
    requires |names| == |AllNames(fields)| && WellFormed(fields)
    ensures WellFormed(Renamed(fields, names))
    ensures forall i | 0 <= i < |fields| :: Renamed(fields, names)[i].(names := fields[i].names) == fields[i]
  {
    if fields != [] {
      var n := |fields[0].names|;
      assert forall i | 0 <= i < |fields[1..]| :: fields[1..][i] == fields[i + 1];
      RenamedStaysWellFormed(fields[1..], names[n..]);
    }
  }

  lemma {:induction false} RenamedToItself(fields: seq<Field>)
    ensures Renamed(fields, AllNames(fields)) == fields
  {
    if fields != [] {
      RenamedToItself(fields[1..]);
      var n := |fields[0].names|;
      assert AllNames(fields)[..n] == fields[0].names && AllNames(fields)[n..] == AllNames(fields[1..]);
    }
  }

  /** What JoinValues computes, by position. */
  function JoinTrim(values: seq<string>, seps: seq<string>, verb: string): string
    requires |values| == |seps| + 1
  {
    if seps == [] then TrimSuffix(values[0], verb) else values[0] + seps[0] + JoinTrim(values[1..], seps[1..], verb)
  }

  /** The names read the values. */
  predicate ReadsAs(pattern: seq<Segment>, captured: seq<string>, names: seq<string>, values: seq<string>) {
    |names| == |values| && forall i | 0 <= i < |names| :: PathValue(pattern, captured, names[i]) == values[i]
  }

  lemma {:induction false} CapturesReadThemselves(pattern: seq<Segment>, captured: seq<string>)
    requires |captured| == |WildcardNames(pattern)| && Distinct(WildcardNames(pattern))
    ensures ReadsAs(pattern, captured, WildcardNames(pattern), captured)
  {
    forall i | 0 <= i < |captured|
      ensures PathValue(pattern, captured, WildcardNames(pattern)[i]) == captured[i]
    {
      PathValueAt(pattern, captured, i);
    }
  }

  lemma {:induction false} JoinReads(names: seq<string>, seps: seq<string>, verb: string, pattern: seq<Segment>,
                                     captured: seq<string>, values: seq<string>)
    requires |names| == |seps| + 1 && ReadsAs(pattern, captured, names, values)
    ensures JoinValues(names, seps, verb, pattern, captured) == JoinTrim(values, seps, verb)
  {
    if seps != [] {
      assert forall i | 0 <= i < |names[1..]| :: names[1..][i] == names[i + 1] && values[1..][i] == values[i + 1];
      JoinReads(names[1..], seps[1..], verb, pattern, captured, values[1..]);
    }
  }

  /** The verb rides on the last value and is trimmed off again. */
  function AppendLast(values: seq<string>, verb: string): (r: seq<string>)
    ensures |r| == |values|
  {
    if values == [] then [] else values[..|values| - 1] + [values[|values| - 1] + verb]
  }

  lemma {:induction false} TrimUndoesAppend(values: seq<string>, seps: seq<string>, verb: string)
    requires |values| == |seps| + 1
    ensures JoinTrim(AppendLast(values, verb), seps, verb) == Interleave(values, seps)
  {
    var all := AppendLast(values, verb);
    if seps == [] {
      TrimSuffixUndoesAppend(values[0], verb);
    } else {
      TrimUndoesAppend(values[1..], seps[1..], verb);
      assert all[0] == values[0] && all[1..] == AppendLast(values[1..], verb);
    }
  }

  lemma {:induction false} AppendNothing(values: seq<string>)
    ensures AppendLast(values, "") == values
  {
    if values != [] { assert values[|values| - 1] + "" == values[|values| - 1]; }
  }

  /** What the server puts together for each field out of the client's values. */
  function Joined(fields: seq<Field>, raws: seq<string>): (r: seq<string>)
    requires WellFormed(fields) && |raws| == |AllNames(fields)|
    ensures |r| == |fields|
  {
    if fields == [] then []
    else
      var n := |fields[0].names|;
      TailIsWellFormed(fields);
      [fields[0].prefix + Interleave(raws[..n], fields[0].seps)] + Joined(fields[1..], raws[n..])
  }

  lemma TailIsWellFormed(fields: seq<Field>)
    requires fields != [] && WellFormed(fields)
    ensures WellFormed(fields[1..]) && |fields[0].names| == |fields[0].seps| + 1
    ensures |AllNames(fields)| == |fields[0].names| + |AllNames(fields[1..])|
  {
    assert forall i | 0 <= i < |fields[1..]| :: fields[1..][i] == fields[i + 1];
  }

  lemma {:induction false} NamesPerField(fields: seq<Field>)
    requires WellFormed(fields)
    ensures |AllNames(fields)| >= |fields|
  {
    if fields != [] {
      TailIsWellFormed(fields);
      NamesPerField(fields[1..]);
    }
  }

  function TailVerb(fields: seq<Field>, verb: string): string { if |fields| == 1 then "" else verb }

  lemma VerbOnTail(fields: seq<Field>, verb: string)
    requires fields != [] && VerbOnLast(fields, verb)
    ensures VerbOnLast(fields[1..], TailVerb(fields, verb))
    ensures fields[0].verb == if |fields| == 1 then verb else ""
  {
    assert forall i | 0 <= i < |fields[1..]| :: fields[1..][i] == fields[i + 1];
  }

  lemma {:induction false} AppendSplit(a: seq<string>, b: seq<string>, verb: string)
    requires a != []
    ensures b == [] ==> AppendLast(a + b, verb) == AppendLast(a, verb)
    ensures b != [] ==> AppendLast(a + b, verb) == a + AppendLast(b, verb)
  {
    if b == [] {
      assert a + b == a;
    } else {
      assert (a + b)[..|a + b| - 1] == a + b[..|b| - 1];
    }
  }

  /** The captures of the first field and of the others. */
  lemma {:induction false} CapturesSplit(fields: seq<Field>, verb: string, raws: seq<string>)
    requires fields != [] && WellFormed(fields) && VerbOnLast(fields, verb) && |raws| == |AllNames(fields)|
    ensures var n := |fields[0].names|;
      && n <= |raws|
      && AppendLast(raws, verb)[..n] == AppendLast(raws[..n], fields[0].verb)
      && AppendLast(raws, verb)[n..] == AppendLast(raws[n..], TailVerb(fields, verb))
  {
    var n := |fields[0].names|;
    TailIsWellFormed(fields);
    VerbOnTail(fields, verb);
    NamesPerField(fields[1..]);
    assert raws == raws[..n] + raws[n..];
    AppendSplit(raws[..n], raws[n..], verb);
    AppendNothing(raws[..n]);
  }

  lemma {:induction false} OneFieldJoins(f: Field, raws: seq<string>, pattern: seq<Segment>, captured: seq<string>,
                                         names: seq<string>)
    requires |f.names| == |f.seps| + 1 == |raws| && ReadsAs(pattern, captured, names, AppendLast(raws, f.verb))
    ensures FieldText(f.(names := names), pattern, captured) == f.prefix + Interleave(raws, f.seps)
  {
    JoinReads(names, f.seps, f.verb, pattern, captured, AppendLast(raws, f.verb));
    TrimUndoesAppend(raws, f.seps, f.verb);
  }

  lemma FieldTextsCons(f: Field, rest: seq<Field>, pattern: seq<Segment>, captured: seq<string>)
    requires |f.names| == |f.seps| + 1 && f.fieldPath != "" && WellFormed(rest)
    ensures WellFormed([f] + rest)
    ensures FieldTexts([f] + rest, pattern, captured)
      == [FieldText(f, pattern, captured)] + FieldTexts(rest, pattern, captured)
  {
    assert ([f] + rest)[1..] == rest;
  }

  lemma ReadsSplit(pattern: seq<Segment>, captured: seq<string>, names: seq<string>, values: seq<string>, n: nat)
    requires ReadsAs(pattern, captured, names, values) && n <= |names|
    ensures ReadsAs(pattern, captured, names[..n], values[..n])
    ensures ReadsAs(pattern, captured, names[n..], values[n..])
  {
  }

  /** Reading the captured values back through the (possibly renamed) variables joins the
      client's values. */
  lemma {:induction false} ServerJoins(fields: seq<Field>, verb: string, raws: seq<string>, pattern: seq<Segment>,
                                       captured: seq<string>, names: seq<string>)
    requires WellFormed(fields) && VerbOnLast(fields, verb) && |raws| == |AllNames(fields)| == |names|
    requires ReadsAs(pattern, captured, names, AppendLast(raws, verb))
    ensures WellFormed(Renamed(fields, names))
      && FieldTexts(Renamed(fields, names), pattern, captured) == Joined(fields, raws)
    decreases |fields|
  {
    if fields != [] {
      var n := |fields[0].names|;
      TailIsWellFormed(fields);
      VerbOnTail(fields, verb);
      CapturesSplit(fields, verb, raws);
      ReadsSplit(pattern, captured, names, AppendLast(raws, verb), n);
      OneFieldJoins(fields[0], raws[..n], pattern, captured, names[..n]);
      ServerJoins(fields[1..], TailVerb(fields, verb), raws[n..], pattern, captured, names[n..]);
      FieldTextsCons(fields[0].(names := names[..n]), Renamed(fields[1..], names[n..]), pattern, captured);
    }
  }

  /** The last variable, if it has one wildcard, is the last field. */
  lemma {:induction false} LastAligned(vars: seq<PathVar>, fields: seq<Field>)
    requires Aligned(vars, fields) && WellFormed(fields) && vars != [] && vars[|vars| - 1].multi.None?
    ensures fields != [] && fields[|fields| - 1].seps == [] && IsVarOf(vars[|vars| - 1], fields[|fields| - 1], 0)
    decreases |fields|
  {
    var n := |fields[0].names|;
    TailIsWellFormed(fields);
    AlignedHead(vars, fields);
    if n == |vars| {
      assert vars[n..] == [] && IsVarOf(vars[..n][n - 1], fields[0], n - 1);
      NoVarsNoFields(vars[n..], fields[1..]);
    } else {
      LastAligned(vars[n..], fields[1..]);
    }
  }

  lemma NoVarsNoFields(vars: seq<PathVar>, fields: seq<Field>)
    requires Aligned(vars, fields) && vars == []
    ensures fields == []
  {
  }

  /** What the handler reads for a last field with one wildcard. */
  lemma {:induction false} LastText(fields: seq<Field>, names: seq<string>, pattern: seq<Segment>,
                                    captured: seq<string>)
    requires WellFormed(fields) && |names| == |AllNames(fields)| > 0 && WellFormed(Renamed(fields, names))
    requires fields != [] && fields[|fields| - 1].seps == []
    ensures var last := fields[|fields| - 1];
      FieldTexts(Renamed(fields, names), pattern, captured)[|fields| - 1]
        == last.prefix + TrimSuffix(PathValue(pattern, captured, names[|names| - 1]), last.verb)
  {
    var n := |fields[0].names|;
    TailIsWellFormed(fields);
    RenamedStaysWellFormed(fields[1..], names[n..]);
    FieldTextsCons(fields[0].(names := names[..n]), Renamed(fields[1..], names[n..]), pattern, captured);
    if |fields| > 1 {
      NamesPerField(fields[1..]);
      LastText(fields[1..], names[n..], pattern, captured);
    } else {
      assert fields[1..] == [] && AllNames(fields[1..]) == [];
    }
  }

  // ---- holes, segments and values ----

  function ConcatHoles(segs: seq<seq<Token>>): seq<Hole> {
    if segs == [] then [] else Holes(segs[0]) + ConcatHoles(segs[1..])
  }

  lemma {:induction false} HolesBySegment(ts: seq<Token>)
    ensures Holes(ts) == ConcatHoles(SplitTokens(ts))
  {
    if ts != [] {
      HolesBySegment(ts[1..]);
      var rest := SplitTokens(ts[1..]);
      if ts[0] == Ch('/') {
        assert ([[]] + rest)[1..] == rest;
        assert [] + ConcatHoles(rest) == ConcatHoles(rest);
      } else {
        var segs := [[ts[0]] + rest[0]] + rest[1..];
        assert segs[1..] == rest[1..];
        HolesConcat([ts[0]], rest[0]);
        assert Holes([ts[0]]) == if ts[0].Var? then [ts[0].hole] else [] by { assert [ts[0]][1..] == []; }
        Assoc(Holes([ts[0]]), Holes(rest[0]), ConcatHoles(rest[1..]));
      }
    }
  }

  lemma {:induction false} GoodSegmentHoles(segs: seq<seq<Token>>)
    requires GoodSegments(segs)
    ensures ConcatHoles(segs) == SegHoles(segs)
  {
    if segs != [] {
      GoodSegmentHoles(segs[1..]);
      if IsHole(segs[0]) {
        assert segs[0][1..] == [] && Holes(segs[0]) == [segs[0][0].hole];
      } else {
        TextHasNoHoles(segs[0]);
        assert segs[0][0] in segs[0];
      }
    }
  }

  lemma {:induction false} TextHasNoHoles(seg: seq<Token>)
    requires forall t | t in seg :: t.Ch?
    ensures Holes(seg) == []
  {
    if seg != [] {
      assert seg[0] in seg && forall t | t in seg[1..] :: t in seg;
      TextHasNoHoles(seg[1..]);
    }
  }

  lemma {:induction false} RoutableHoles(ts: seq<Token>)
    requires Routable(ts)
    ensures Holes(ts) == SegHoles(SplitTokens(ts)[1..])
  {
    var segs := SplitTokens(ts);
    HolesBySegment(ts);
    GoodSegmentHoles(segs[1..]);
    assert Holes(segs[0]) == [];
  }

  lemma {:induction false} WildcardsOfSegments(segs: seq<seq<Token>>)
    requires GoodSegments(segs)
    ensures WildcardNames(ParseSegments(ShowAll(segs))) == HoleNames(SegHoles(segs))
  {
    if segs != [] {
      WildcardsOfSegments(segs[1..]);
      var texts := ShowAll(segs);
      assert texts[1..] == ShowAll(segs[1..]);
      var pattern := ParseSegments(texts);
      assert pattern[1..] == ParseSegments(texts[1..]);
      if IsHole(segs[0]) {
        ShowHole(segs[0]);
        HoleParses(segs[0][0].hole);
      } else {
        LiteralParses(segs[0]);
        assert segs[0][0] in segs[0];
      }
    }
  }

  /** The names the mux captures under are the placeholders of the registered path. */
  lemma {:induction false} RegisteredNames(ts: seq<Token>)
    requires Routable(ts)
    ensures WildcardNames(Register(Show(ts))) == HoleNames(Holes(ts))
  {
    RegisteredSegments(ts);
    RoutableHoles(ts);
    var rest := ParseSegments(ShowAll(SplitTokens(ts)[1..]));
    WildcardsOfSegments(SplitTokens(ts)[1..]);
    assert ([Literal("")] + rest)[1..] == rest;
    assert [] + WildcardNames(rest) == WildcardNames(rest);
  }

  function ValueMap(holes: seq<Hole>, raws: seq<string>): (m: map<Hole, string>)
    requires |holes| == |raws|
    ensures forall h | h in m :: h in holes && m[h] in raws
    ensures forall h | h in holes :: h in m
  {
    if holes == [] then map[] else ValueMap(holes[1..], raws[1..])[holes[0] := raws[0]]
  }

  function Lookup(holes: seq<Hole>, values: map<Hole, string>): (r: seq<string>)
    requires forall h | h in holes :: h in values
    ensures |r| == |holes| && forall i | 0 <= i < |holes| :: r[i] == values[holes[i]]
  {
    if holes == [] then [] else [values[holes[0]]] + Lookup(holes[1..], values)
  }

  lemma {:induction false} LookupValueMap(holes: seq<Hole>, raws: seq<string>)
    requires |holes| == |raws| && Distinct(holes)
    ensures Lookup(holes, ValueMap(holes, raws)) == raws
  {
    forall i | 0 <= i < |holes|
      ensures ValueMap(holes, raws)[holes[i]] == raws[i]
    {
      ValueAt(holes, raws, i);
    }
  }

  lemma {:induction false} ValueAt(holes: seq<Hole>, raws: seq<string>, i: nat)
    requires |holes| == |raws| && Distinct(holes) && i < |holes|
    ensures ValueMap(holes, raws)[holes[i]] == raws[i]
  {
    assert holes == [holes[0]] + holes[1..];
    DistinctTail(holes[0], holes[1..]);
    if i > 0 {
      assert holes[i] == holes[1..][i - 1];
      ValueAt(holes[1..], raws[1..], i - 1);
    }
  }

  lemma {:induction false} ExpectedOfOne(seg: seq<Token>, values: map<Hole, string>, verb: string)
    requires Covers(values, [seg]) && (verb != "" ==> IsHole(seg))
    ensures Expected([seg], values, verb) == AppendLast(Lookup(SegHoles([seg]), values), verb)
  {
    CoversHead(values, [seg]);
    assert [seg][1..] == [] && Expected([], values, verb) == [];
    AppendNothing(Lookup(SegHoles([seg]), values));
  }

  lemma {:induction false} ExpectedCons(cs: seq<seq<Token>>, values: map<Hole, string>, verb: string)
    requires |cs| > 1 && Covers(values, cs)
    ensures Covers(values, cs[1..]) && (IsHole(cs[0]) ==> cs[0][0].hole in values)
    ensures var head := if IsHole(cs[0]) then [values[cs[0][0].hole]] else [];
      && Expected(cs, values, verb) == head + Expected(cs[1..], values, verb)
      && Lookup(SegHoles(cs), values) == head + Lookup(SegHoles(cs[1..]), values)
  {
    CoversHead(values, cs);
    if IsHole(cs[0]) {
      var v := values[cs[0][0].hole];
      assert v + "" == v;
      assert ([cs[0][0].hole] + SegHoles(cs[1..]))[1..] == SegHoles(cs[1..]);
    } else {
      assert [] + SegHoles(cs[1..]) == SegHoles(cs[1..]);
    }
  }

  lemma {:induction false} AppendCons(head: seq<string>, tail: seq<string>, verb: string)
    requires verb == "" || tail != []
    ensures AppendLast(head + tail, verb) == head + AppendLast(tail, verb)
  {
    if verb == "" {
      AppendNothing(head + tail);
      AppendNothing(tail);
    } else if head == [] {
      assert head + tail == tail && [] + AppendLast(tail, verb) == AppendLast(tail, verb);
    } else {
      AppendSplit(head, tail, verb);
    }
  }

  lemma {:induction false} ExpectedIsLookup(cs: seq<seq<Token>>, values: map<Hole, string>, verb: string)
    requires Covers(values, cs) && (verb != "" ==> LastIsHole(cs))
    ensures Expected(cs, values, verb) == AppendLast(Lookup(SegHoles(cs), values), verb)
  {
    if |cs| == 1 {
      assert cs == [cs[0]];
      ExpectedOfOne(cs[0], values, verb);
    } else if cs != [] {
      ExpectedCons(cs, values, verb);
      ExpectedIsLookup(cs[1..], values, verb);
      if verb != "" { LastHoleCounts(cs[1..]); }
      var head := if IsHole(cs[0]) then [values[cs[0][0].hole]] else [];
      AppendCons(head, Lookup(SegHoles(cs[1..]), values), verb);
    }
  }

  lemma {:induction false} LastHoleCounts(cs: seq<seq<Token>>)
    requires LastIsHole(cs)
    ensures SegHoles(cs) != []
  {
    if |cs| > 1 { LastHoleCounts(cs[1..]); }
  }

  lemma {:induction false} SameShapeSameCount(a: seq<seq<Token>>, b: seq<seq<Token>>)
    requires SameShape(a, b)
    ensures |SegHoles(a)| == |SegHoles(b)|
  {
    if a != [] { SameShapeSameCount(a[1..], b[1..]); }
  }
}
