/** pyTypeResolver: imports of the generated Python file. Aliases are computed when first needed and
    cached until another source is registered. */
module PyResolver {
  import opened Text
  import opened Sorting
  import Decimal

  predicate IsWellKnown(path: string) {
    "google/protobuf/" <= path && '/' !in path[16..]
  }

  /** source[LastIndex("/")+1:], without ".proto". */
  function FileName(path: string): string { if '/' in path then FileName(path[1..]) else path }

  function BaseName(source: string): string { TrimSuffix(FileName(source), ".proto") }

  // ---- picking an alias ----

  function Candidate(base: string, n: nat): string {
    if n == 0 then base + "_pb2" else base + "_pb2_" + Decimal.Print(n)
  }

  lemma CandidatesDiffer(base: string, m: nat, n: nat)
    requires m != n
    ensures Candidate(base, m) != Candidate(base, n)
  {
    var k := |base| + 5;
    if m > 0 { assert Candidate(base, m)[k..] == Decimal.Print(m); }
    if n > 0 { assert Candidate(base, n)[k..] == Decimal.Print(n); }
    if m > 0 && n > 0 && Decimal.Print(m) == Decimal.Print(n) { Decimal.PrintIsInjective(m, n); }
  }

  function FirstCandidates(base: string, n: nat): (r: set<string>)
    ensures forall i | 0 <= i < n :: Candidate(base, i) in r
    ensures forall c | c in r :: exists i :: 0 <= i < n && Candidate(base, i) == c
  {
    if n == 0 then {} else FirstCandidates(base, n - 1) + {Candidate(base, n - 1)}
  }

  lemma {:induction false} CandidatesAreMany(base: string, n: nat)
    ensures |FirstCandidates(base, n)| == n
  {
    if n > 0 {
      CandidatesAreMany(base, n - 1);
      forall i | 0 <= i < n - 1
        ensures Candidate(base, i) != Candidate(base, n - 1)
      {
        CandidatesDiffer(base, i, n - 1);
      }
    }
  }

  lemma SubsetIsSmaller<T>(a: set<T>, b: set<T>)
    requires a <= b
    ensures |a| <= |b|
  {
    assert b == a + (b - a);
  }

  /** Pigeonhole: the taken candidates are no more than the names in use. */
  lemma {:induction false} TakenAreFew(base: string, used: set<string>, n: nat)
    requires forall i | 0 <= i < n :: Candidate(base, i) in used
    ensures n <= |used|
  {
    CandidatesAreMany(base, n);
    SubsetIsSmaller(FirstCandidates(base, n), used);
  }

  /** The first candidate not in use, from the n-th on. */
  function Pick(base: string, used: set<string>, n: nat): (alias: string)
    requires forall i | 0 <= i < n :: Candidate(base, i) in used
    ensures alias !in used
    decreases |used| - n
  {
    if Candidate(base, n) !in used then Candidate(base, n)
    else
      TakenAreFew(base, used, n + 1);
      Pick(base, used, n + 1)
  }

  method PickAlias(base: string, used: set<string>) returns (alias: string)
    ensures alias == Pick(base, used, 0)
  {
    alias := base + "_pb2";
    var n := 0;
    while alias in used
      invariant alias == Candidate(base, n) && forall i | 0 <= i < n :: Candidate(base, i) in used
      invariant Pick(base, used, n) == Pick(base, used, 0)
      decreases |used| - n
    {
      TakenAreFew(base, used, n + 1);
      n := n + 1;
      alias := base + "_pb2_" + Decimal.Print(n);
    }
  }

  // ---- the table ----

  function Assign(sources: seq<string>, used: set<string>): (aliases: map<string, string>)
    ensures forall s :: s in aliases <==> s in sources
    decreases |sources|
  {
    if sources == [] then map[]
    else
      var n := |sources| - 1;
      var rest := Assign(sources[..n], used);
      assert sources == sources[..n] + [sources[n]];
      rest[sources[n] := Pick(BaseName(sources[n]), used + rest.Values, 0)]
  }

  function Reserved(wkts: set<string>): set<string> { {"pb2"} + set b | b in wkts :: b + "_pb2" }

  /** A fresh computation of the table. */
  function FreshAliases(wkts: set<string>, sources: seq<string>): map<string, string> {
    Assign(Sort(sources), Reserved(wkts))
  }

  /** It depends only on the set of registered sources. */
  lemma {:induction false} OrderIsForgotten(wkts: set<string>, a: seq<string>, b: seq<string>)
    requires Distinct(a) && Distinct(b) && SameElements(a, b)
    ensures FreshAliases(wkts, a) == FreshAliases(wkts, b)
  {
    SortForgetsOrder(a, b);
  }

  /** No two sources share an alias, and no alias is reserved. */
  predicate DistinctAliases(aliases: map<string, string>, used: set<string>) {
    && (forall s | s in aliases :: aliases[s] !in used)
    && forall s, t | s in aliases && t in aliases && s != t :: aliases[s] != aliases[t]
  }

  lemma AddAlias(aliases: map<string, string>, used: set<string>, source: string, alias: string)
    requires DistinctAliases(aliases, used) && source !in aliases && alias !in used + aliases.Values
    ensures DistinctAliases(aliases[source := alias], used)
  {
    forall s | s in aliases
      ensures aliases[s] != alias
    {
      assert aliases[s] in aliases.Values;
    }
  }

  lemma DistinctInit(s: seq<string>)
    requires s != [] && Distinct(s)
    ensures Distinct(s[..|s| - 1]) && s[|s| - 1] !in s[..|s| - 1]
  {
  }

  lemma {:induction false} AssignedAreDistinct(sources: seq<string>, used: set<string>)
    requires Distinct(sources)
    ensures DistinctAliases(Assign(sources, used), used)
    decreases |sources|
  {
    if sources != [] {
      var n := |sources| - 1;
      DistinctInit(sources);
      AssignedAreDistinct(sources[..n], used);
      var rest := Assign(sources[..n], used);
      AddAlias(rest, used, sources[n], Pick(BaseName(sources[n]), used + rest.Values, 0));
    }
  }

  // ---- names of modules ----

  /** The module a type of `source` is referred to through, once everything needed is registered. */
  function ModuleOf(currentFile: string, aliases: map<string, string>, source: string): string {
    if source == currentFile then "pb2"
    else if IsWellKnown(source) then BaseName(source) + "_pb2"
    else if source in aliases then aliases[source] else ""
  }

  /** What has been registered: the well-known base names and the other sources. */
  function Wkts(currentFile: string, registered: set<string>): set<string> {
    set s | s in registered && s != currentFile && IsWellKnown(s) :: BaseName(s)
  }

  function Others(currentFile: string, registered: set<string>): set<string> {
    set s | s in registered && s != currentFile && !IsWellKnown(s)
  }

  lemma {:induction false} FileNameAfterSlash(dir: string, file: string)
    requires '/' !in file
    ensures FileName(dir + ['/'] + file) == file
    decreases |dir|
  {
    var path := dir + ['/'] + file;
    assert path[|dir|] == '/' && '/' in path;
    if dir == "" {
      assert path[1..] == file;
    } else {
      assert path[1..] == dir[1..] + ['/'] + file;
      FileNameAfterSlash(dir[1..], file);
    }
  }

  lemma {:induction false} WellKnownName(source: string)
    requires IsWellKnown(source)
    ensures FileName(source) == source[16..]
  {
    assert source == "google/protobuf" + ['/'] + source[16..];
    FileNameAfterSlash("google/protobuf", source[16..]);
  }

  lemma ShortPath(s: string)
    requires "google/protobuf/" <= s && |s| < 22
    ensures !HasSuffix(s, ".proto")
  {
    var k := |s| - 6;
    assert s[k] == "google/protobuf/"[k] && s[k] != '.';
    assert s[k..][0] == s[k];
  }

  lemma ProtoFile(s: string)
    requires IsWellKnown(s) && HasSuffix(s, ".proto")
    ensures s == "google/protobuf/" + BaseName(s) + ".proto"
  {
    WellKnownName(s);
    if |s| < 22 { ShortPath(s); }
    var file := s[16..];
    assert file[|file| - 6..] == s[|s| - 6..];
    assert file == BaseName(s) + ".proto";
    assert s == "google/protobuf/" + file;
  }

  lemma {:induction false} WellKnownDiffer(s: string, t: string)
    requires IsWellKnown(s) && IsWellKnown(t) && HasSuffix(s, ".proto") && HasSuffix(t, ".proto")
    ensures s != t ==> BaseName(s) != BaseName(t)
  {
    ProtoFile(s);
    ProtoFile(t);
  }

  lemma SuffixNames(a: string, b: string)
    ensures a + "_pb2" == b + "_pb2" ==> a == b
    ensures a + "_pb2" != "pb2"
  {
    assert (a + "_pb2")[..|a + "_pb2"| - 4] == a && (b + "_pb2")[..|b + "_pb2"| - 4] == b;
  }

  /** Local, well-known and other sources are referred to through pairwise distinct modules. */
  lemma {:induction false} ModulesAreDistinct(currentFile: string, registered: set<string>, sources: seq<string>,
                                              s: string, t: string)
    requires Distinct(sources) && forall x :: x in sources <==> x in Others(currentFile, registered)
    requires s in registered + {currentFile} && t in registered + {currentFile} && s != t
    requires forall x | x in registered && IsWellKnown(x) :: HasSuffix(x, ".proto")
    ensures var aliases := FreshAliases(Wkts(currentFile, registered), sources);
      ModuleOf(currentFile, aliases, s) != ModuleOf(currentFile, aliases, t)
  {
    var wkts := Wkts(currentFile, registered);
    var aliases := FreshAliases(wkts, sources);
    SortIsSorted(sources);
    AssignedAreDistinct(Sort(sources), Reserved(wkts));
    ModuleIs(currentFile, registered, sources, s);
    ModuleIs(currentFile, registered, sources, t);
    SuffixNames(BaseName(s), BaseName(t));
    SuffixNames(BaseName(t), BaseName(s));
    if s != currentFile && t != currentFile && IsWellKnown(s) && IsWellKnown(t) { WellKnownDiffer(s, t); }
  }

  lemma ModuleIs(currentFile: string, registered: set<string>, sources: seq<string>, s: string)
    requires Distinct(sources) && forall x :: x in sources <==> x in Others(currentFile, registered)
    requires s in registered + {currentFile}
    ensures var wkts := Wkts(currentFile, registered);
      var aliases := FreshAliases(wkts, sources);
      && (s == currentFile ==> ModuleOf(currentFile, aliases, s) == "pb2" && "pb2" in Reserved(wkts))
      && (s != currentFile && IsWellKnown(s) ==> ModuleOf(currentFile, aliases, s) in Reserved(wkts))
      && (s != currentFile && !IsWellKnown(s) ==> s in aliases && ModuleOf(currentFile, aliases, s) == aliases[s])
  {
    if s != currentFile && IsWellKnown(s) { assert BaseName(s) in Wkts(currentFile, registered); }
  }

  // ---- the resolver ----

  function WktLines(bases: seq<string>): (lines: seq<string>)
    ensures |lines| == |bases|
      && forall i | 0 <= i < |bases| :: lines[i] == "from google.protobuf import " + bases[i] + "_pb2"
  {
    if bases == [] then [] else ["from google.protobuf import " + bases[0] + "_pb2"] + WktLines(bases[1..])
  }

  function SourceLine(source: string, aliases: map<string, string>): string
    requires source in aliases
  {
    "import " + ReplaceAll(TrimSuffix(source, ".proto"), "/", ".") + "_pb2 as " + aliases[source]
  }

  function SourceLines(sources: seq<string>, aliases: map<string, string>): (lines: seq<string>)
    requires forall s | s in sources :: s in aliases
    ensures |lines| == |sources| && forall i | 0 <= i < |sources| :: lines[i] == SourceLine(sources[i], aliases)
  {
    if sources == [] then []
    else
      assert forall s | s in sources[1..] :: s in sources;
      [SourceLine(sources[0], aliases)] + SourceLines(sources[1..], aliases)
  }

  /** The listing of a set in byte order. */
  ghost predicate ListsInOrder(list: seq<string>, elements: set<string>) {
    Sorted(list) && Distinct(list) && forall x :: x in list <==> x in elements
  }

  /** There is one such listing, so what is printed does not depend on map order. */
  lemma ListingIsUnique(a: seq<string>, b: seq<string>, elements: set<string>)
    requires ListsInOrder(a, elements) && ListsInOrder(b, elements)
    ensures a == b
  {
    SortedListIsUnique(a, b);
  }

  class Resolver {
    const currentFile: string
    var wktBaseNames: set<string>
    var nonLocalSources: seq<string>
    var nonLocalSet: set<string>
    /** nil, or the cached table. */
    var hasAliases: bool
    var aliases: map<string, string>
    /** Everything ever registered. */
    ghost var registered: set<string>

    constructor (currentFile: string)
      ensures Valid() && this.currentFile == currentFile && registered == {}
    {
      this.currentFile := currentFile;
      wktBaseNames, nonLocalSources, nonLocalSet := {}, [], {};
      hasAliases, aliases, registered := false, map[], {};
    }

    /** The tables are those of the set of registered sources, and a cached alias table is what a
        fresh computation gives. */
    ghost predicate Valid()
      reads this
    {
      && wktBaseNames == Wkts(currentFile, registered)
      && nonLocalSet == Others(currentFile, registered)
      && Distinct(nonLocalSources) && (forall s :: s in nonLocalSources <==> s in nonLocalSet)
      && (hasAliases ==> aliases == FreshAliases(wktBaseNames, nonLocalSources))
    }

    method RegisterSource(source: string)
      requires Valid()
      modifies this
      ensures Valid() && registered == old(registered) + {source}
    {
      registered := registered + {source};
      if source == currentFile { return; }
      if IsWellKnown(source) {
        var base := BaseName(source);
        if base in wktBaseNames {
          assert wktBaseNames == Wkts(currentFile, registered);
          return;
        }
        wktBaseNames := wktBaseNames + {base};
        hasAliases := false;
        return;
      }
      if source in nonLocalSet { return; }
      nonLocalSet := nonLocalSet + {source};
      nonLocalSources := nonLocalSources + [source];
      hasAliases := false;
    }

    /** The names in use before any alias is picked; the bases come in map order. */
    method ReservedNames() returns (used: set<string>)
      ensures used == Reserved(wktBaseNames)
    {
      used := {"pb2"};
      var left := wktBaseNames;
      while left != {}
        invariant left <= wktBaseNames && used == Reserved(wktBaseNames - left)
        decreases |left|
      {
        var base :| base in left;
        left := left - {base};
        used := used + {base + "_pb2"};
        assert wktBaseNames - left == (wktBaseNames - left - {base}) + {base};
      }
      assert wktBaseNames - left == wktBaseNames;
    }

    method EnsureAliases()
      requires Valid()
      modifies this`hasAliases, this`aliases
      ensures Valid() && hasAliases
    {
      if hasAliases { return; }
      var used := ReservedNames();
      var sorted := Sort(nonLocalSources);
      var table: map<string, string> := map[];
      assert sorted[..0] == [];
      var i := 0;
      while i < |sorted|
        invariant 0 <= i <= |sorted| && unchanged(this)
        invariant table == Assign(sorted[..i], Reserved(wktBaseNames))
        invariant used == Reserved(wktBaseNames) + table.Values
      {
        var source := sorted[i];
        var alias := PickAlias(BaseName(source), used);
        SortIsSorted(nonLocalSources);
        AssignNext(sorted, i, Reserved(wktBaseNames));
        AddedValue(table, source, alias);
        table := table[source := alias];
        used := used + {alias};
        i := i + 1;
      }
      assert sorted[..i] == sorted;
      hasAliases, aliases := true, table;
    }

    /** The Python expression for a type: whatever was asked or registered before, in whatever
        order, it is determined by the set of registered sources. */
    method ResolveSource(source: string, name: string) returns (expr: string)
      requires Valid()
      modifies this`hasAliases, this`aliases
      ensures Valid()
      ensures expr == ModuleOf(currentFile, FreshAliases(wktBaseNames, nonLocalSources), source) + "." + name
    {
      if source == currentFile { return "pb2." + name; }
      if IsWellKnown(source) { return BaseName(source) + "_pb2." + name; }
      EnsureAliases();
      expr := (if source in aliases then aliases[source] else "") + "." + name;
    }

    method SortedBases() returns (bases: seq<string>)
      ensures ListsInOrder(bases, wktBaseNames)
    {
      var list: seq<string> := [];
      var left := wktBaseNames;
      while left != {}
        invariant left <= wktBaseNames && Distinct(list) && forall x :: x in list <==> x in wktBaseNames - left
        decreases |left|
      {
        var base :| base in left;
        AppendListed(list, wktBaseNames - left, base);
        left := left - {base};
        list := list + [base];
        assert wktBaseNames - left == (wktBaseNames - left - {base}) + {base};
      }
      SortIsSorted(list);
      bases := Sort(list);
    }

    /** importLines: one line per well-known base and one per other source, in byte order, under the
        names that ResolveSource uses. */
    method ImportLines() returns (lines: seq<string>, ghost bases: seq<string>)
      requires Valid()
      modifies this`hasAliases, this`aliases
      ensures Valid() && ListsInOrder(bases, wktBaseNames)
      ensures ListsInOrder(Sort(nonLocalSources), nonLocalSet)
      ensures lines == WktLines(bases) + SourceLines(Sort(nonLocalSources), FreshAliases(wktBaseNames, nonLocalSources))
    {
      EnsureAliases();
      var wktBases := SortedBases();
      bases := wktBases;
      var head := PrintBases(wktBases);
      SortIsSorted(nonLocalSources);
      var tail := PrintSources(Sort(nonLocalSources), aliases);
      lines := head + tail;
    }
  }

  method PrintBases(bases: seq<string>) returns (lines: seq<string>)
    ensures lines == WktLines(bases)
  {
    lines := [];
    var i := 0;
    while i < |bases|
      invariant 0 <= i <= |bases| && lines == WktLines(bases)[..i]
    {
      lines := lines + ["from google.protobuf import " + bases[i] + "_pb2"];
      i := i + 1;
    }
  }

  method PrintSources(sources: seq<string>, aliases: map<string, string>) returns (lines: seq<string>)
    requires forall s | s in sources :: s in aliases
    ensures lines == SourceLines(sources, aliases)
  {
    lines := [];
    var i := 0;
    while i < |sources|
      invariant 0 <= i <= |sources| && |lines| == i
      invariant forall j | 0 <= j < i :: lines[j] == SourceLines(sources, aliases)[j]
    {
      assert sources[i] in sources;
      lines := lines + [SourceLine(sources[i], aliases)];
      i := i + 1;
    }
  }

  lemma AppendListed(list: seq<string>, elements: set<string>, x: string)
    requires Distinct(list) && x !in elements && forall y :: y in list <==> y in elements
    ensures Distinct(list + [x]) && forall y :: y in list + [x] <==> y in elements + {x}
  {
    forall i, j | 0 <= i < j < |list + [x]|
      ensures (list + [x])[i] != (list + [x])[j]
    {
      assert list[i] in list;
    }
  }

  /** Two resolvers that were shown the same set of sources, in whatever order and however they were
      queried in between, refer to every type in the same way. */
  lemma SameSourcesSameNames(a: Resolver, b: Resolver)
    requires a.Valid() && b.Valid() && a.currentFile == b.currentFile && a.registered == b.registered
    ensures FreshAliases(a.wktBaseNames, a.nonLocalSources) == FreshAliases(b.wktBaseNames, b.nonLocalSources)
  {
    OrderIsForgotten(a.wktBaseNames, a.nonLocalSources, b.nonLocalSources);
  }

  lemma AssignNext(sources: seq<string>, i: nat, used: set<string>)
    requires i < |sources| && Distinct(sources)
    ensures var rest := Assign(sources[..i], used);
      sources[i] !in rest
          && Assign(sources[..i + 1], used) == rest[sources[i] := Pick(BaseName(sources[i]), used + rest.Values, 0)]
  {
    assert sources[..i + 1][..i] == sources[..i] && sources[..i + 1][i] == sources[i];
  }

  lemma AddedValue(m: map<string, string>, k: string, v: string)
    requires k !in m
    ensures m[k := v].Values == m.Values + {v}
  {
    assert m[k := v][k] == v;
    forall x | x in m.Values
      ensures x in m[k := v].Values
    {
      var j :| j in m && m[j] == x;
      assert m[k := v][j] == x;
    }
  }
}
