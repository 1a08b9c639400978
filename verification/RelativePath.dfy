/** posixRel: the relative import paths of the generated TypeScript. */
module RelativePath {
  import opened Text

  /** A path is normalised when every segment is a proper name. */
  predicate IsName(s: string) { s != "" && s != "." && s != ".." }

  predicate Normal(parts: seq<string>) { forall p | p in parts :: IsName(p) && '/' !in p }

  /** The empty directory is the current one. */
  function DirParts(dir: string): seq<string> { if dir == "" then [] else Split(dir, '/') }

  // ---- following a relative path ----

  datatype Place = Outside | At(parts: seq<string>)

  function Walk(dir: seq<string>, path: seq<string>): Place
    decreases |path|
  {
    if path == [] then At(dir)
    else if path[0] == ".." then (if dir == [] then Outside else Walk(dir[..|dir| - 1], path[1..]))
    else if path[0] == "." || path[0] == "" then Walk(dir, path[1..])
    else Walk(dir + [path[0]], path[1..])
  }

  function CountUps(path: seq<string>): nat {
    if path == [] then 0 else (if path[0] == ".." then 1 else 0) + CountUps(path[1..])
  }

  /** Length of the longest common prefix. */
  function Common(a: seq<string>, b: seq<string>): (n: nat)
    ensures n <= |a| && n <= |b| && a[..n] == b[..n]
    ensures n < |a| && n < |b| ==> a[n] != b[n]
  {
    if a == [] || b == [] || a[0] != b[0] then 0
    else
      var n := Common(a[1..], b[1..]) + 1;
      assert a[..n] == [a[0]] + a[1..][..n - 1] && b[..n] == [b[0]] + b[1..][..n - 1];
      n
  }

  function Ups(n: nat): (r: seq<string>)
    ensures |r| == n
  {
    if n == 0 then [] else [".."] + Ups(n - 1)
  }

  function RelParts(from_: seq<string>, to: seq<string>): seq<string> {
    var n := Common(from_, to);
    Ups(|from_| - n) + to[n..]
  }

  function Rel(from_: string, to: string): string {
    if from_ == "" then to
    else
      var rel := RelParts(Split(from_, '/'), Split(to, '/'));
      if rel == [] then "." else Join(rel, "/")
  }

  lemma {:induction false} CommonIs(a: seq<string>, b: seq<string>, n: nat)
    requires n <= |a| && n <= |b| && a[..n] == b[..n]
    requires n == |a| || n == |b| || a[n] != b[n]
    ensures Common(a, b) == n
  {
    if n > 0 {
      assert a[..n][0] == b[..n][0];
      assert a[1..][..n - 1] == a[..n][1..] && b[1..][..n - 1] == b[..n][1..];
      CommonIs(a[1..], b[1..], n - 1);
    }
  }

  lemma {:induction false} UpsSnoc(n: nat)
    ensures Ups(n) + [".."] == Ups(n + 1)
  {
    if n > 0 {
      UpsSnoc(n - 1);
      Assoc([".."], Ups(n - 1), [".."]);
    }
  }

  method PosixRel(from_: string, to: string) returns (rel: string)
    ensures rel == Rel(from_, to)
  {
    if from_ == "" { return to; }
    var fromParts, toParts := Split(from_, '/'), Split(to, '/');
    var i := 0;
    while i < |fromParts| && i < |toParts| && fromParts[i] == toParts[i]
      invariant 0 <= i <= |fromParts| && i <= |toParts| && fromParts[..i] == toParts[..i]
    {
      i := i + 1;
    }
    CommonIs(fromParts, toParts, i);
    var parts: seq<string> := [];
    var j := i;
    while j < |fromParts|
      invariant i <= j <= |fromParts| && parts == Ups(j - i)
    {
      UpsSnoc(j - i);
      parts := parts + [".."];
      j := j + 1;
    }
    parts := parts + toParts[i..];
    if |parts| == 0 { return "."; }
    rel := Join(parts, "/");
  }

  // ---- it leads there ----

  lemma {:induction false} WalkUps(dir: seq<string>, n: nat, rest: seq<string>)
    requires n <= |dir|
    ensures Walk(dir, Ups(n) + rest) == Walk(dir[..|dir| - n], rest)
  {
    if n == 0 {
      assert Ups(0) + rest == rest && dir[..|dir|] == dir;
    } else {
      var up := dir[..|dir| - 1];
      WalkUps(up, n - 1, rest);
      assert Ups(n) + rest == [".."] + (Ups(n - 1) + rest);
      assert ([".."] + (Ups(n - 1) + rest))[1..] == Ups(n - 1) + rest;
      assert up[..|up| - (n - 1)] == dir[..|dir| - n];
    }
  }

  lemma {:induction false} WalkNames(dir: seq<string>, names: seq<string>)
    requires Normal(names)
    ensures Walk(dir, names) == At(dir + names)
    decreases |names|
  {
    if names == [] {
      assert dir + [] == dir;
    } else {
      assert names[0] in names && forall p | p in names[1..] :: p in names;
      WalkNames(dir + [names[0]], names[1..]);
      assert dir + [names[0]] + names[1..] == dir + names;
    }
  }

  lemma {:induction false} RelPartsLead(from_: seq<string>, to: seq<string>)
    requires Normal(to)
    ensures Walk(from_, RelParts(from_, to)) == At(to)
  {
    var n := Common(from_, to);
    WalkUps(from_, |from_| - n, to[n..]);
    assert forall p | p in to[n..] :: p in to;
    WalkNames(from_[..n], to[n..]);
    assert from_[..n] + to[n..] == to;
  }

  lemma {:induction false} RelIsSplit(from_: string, to: string)
    requires Normal(DirParts(from_)) && Normal(Split(to, '/'))
    ensures Walk(DirParts(from_), Split(Rel(from_, to), '/'))
      == Walk(DirParts(from_), RelParts(DirParts(from_), Split(to, '/')))
    ensures CountUps(Split(Rel(from_, to), '/')) == CountUps(RelParts(DirParts(from_), Split(to, '/')))
  {
    var f, t := DirParts(from_), Split(to, '/');
    var parts := RelParts(f, t);
    if from_ == "" {
      assert parts == [] + t && [] + t == t;
    } else if parts == [] {
      SplitWhole(".", '/');
      assert ["."][1..] == [];
    } else {
      UpsHaveNoSlash(|f| - Common(f, t));
      forall p | p in parts
        ensures '/' !in p
      {
        if p !in Ups(|f| - Common(f, t)) { assert p in t; }
      }
      SplitAfterJoin(parts, '/');
    }
  }

  lemma {:induction false} UpsHaveNoSlash(n: nat)
    ensures forall p | p in Ups(n) :: p == ".." && '/' !in p
  {
    if n > 0 { UpsHaveNoSlash(n - 1); }
  }

  /** Following the relative path from the directory leads to the target. */
  lemma {:induction false} RelLeadsThere(from_: string, to: string)
    requires Normal(DirParts(from_)) && Normal(Split(to, '/'))
    ensures Walk(DirParts(from_), Split(Rel(from_, to), '/')) == At(Split(to, '/'))
  {
    RelIsSplit(from_, to);
    RelPartsLead(DirParts(from_), Split(to, '/'));
  }

  /** importLines puts "./" in front of a path that does not start with a dot segment. */
  function Import(rel: string): string { if "./" <= rel || "../" <= rel then rel else "./" + rel }

  lemma {:induction false} ImportLeadsThere(from_: string, to: string)
    requires Normal(DirParts(from_)) && Normal(Split(to, '/'))
    ensures Walk(DirParts(from_), Split(Import(Rel(from_, to)), '/')) == At(Split(to, '/'))
    ensures "./" <= Import(Rel(from_, to)) || "../" <= Import(Rel(from_, to))
  {
    var rel := Rel(from_, to);
    RelLeadsThere(from_, to);
    if Import(rel) != rel { DotChangesNothing(DirParts(from_), rel); }
  }

  lemma DotChangesNothing(dir: seq<string>, rel: string)
    ensures Walk(dir, Split("./" + rel, '/')) == Walk(dir, Split(rel, '/'))
    ensures "./" <= "./" + rel
  {
    DotFirst(rel);
    assert (["."] + Split(rel, '/'))[1..] == Split(rel, '/');
  }

  lemma DotFirst(rel: string)
    ensures Split("./" + rel, '/') == ["."] + Split(rel, '/')
  {
    assert "./" + rel == "." + ['/'] + rel;
    SplitSum(".", '/', rel);
    SplitWhole(".", '/');
  }

  // ---- and with the fewest steps up ----

  lemma {:induction false} CommonShrinks(d: seq<string>, t: seq<string>)
    requires d != []
    ensures Common(d[..|d| - 1], t) <= Common(d, t) <= Common(d[..|d| - 1], t) + 1
  {
    var up := d[..|d| - 1];
    var k := Common(d, t);
    if k < |d| {
      assert up[..k] == d[..k];
      CommonIs(up, t, k);
    } else {
      assert up == t[..k - 1];
      CommonIs(up, t, k - 1);
    }
  }

  /** Every path that leads from `d` to `t` leaves all of `d` below the common prefix. */
  lemma {:induction false} UpsNeeded(d: seq<string>, path: seq<string>, t: seq<string>)
    requires Walk(d, path) == At(t)
    ensures CountUps(path) >= |d| - Common(d, t)
    decreases |path|
  {
    if path == [] {
      CommonIs(d, d, |d|);
    } else if path[0] == ".." {
      UpsNeeded(d[..|d| - 1], path[1..], t);
      CommonShrinks(d, t);
    } else if path[0] == "." || path[0] == "" {
      UpsNeeded(d, path[1..], t);
    } else {
      var down := d + [path[0]];
      UpsNeeded(down, path[1..], t);
      CommonShrinks(down, t);
      assert down[..|down| - 1] == d;
    }
  }

  lemma {:induction false} CountUpsConcat(n: nat, names: seq<string>)
    requires Normal(names)
    ensures CountUps(Ups(n) + names) == n
  {
    if n > 0 {
      CountUpsConcat(n - 1, names);
      assert (Ups(n) + names)[1..] == Ups(n - 1) + names;
    } else if names != [] {
      assert names[0] in names && forall p | p in names[1..] :: p in names;
      CountUpsConcat(0, names[1..]);
      assert Ups(0) + names == names && Ups(0) + names[1..] == names[1..];
    }
  }

  /** No relative path to the target has fewer ".." segments. */
  lemma {:induction false} RelIsShortest(from_: string, to: string, other: seq<string>)
    requires Normal(DirParts(from_)) && Normal(Split(to, '/'))
    requires Walk(DirParts(from_), other) == At(Split(to, '/'))
    ensures CountUps(Split(Rel(from_, to), '/')) <= CountUps(other)
  {
    var f, t := DirParts(from_), Split(to, '/');
    RelIsSplit(from_, to);
    UpsNeeded(f, other, t);
    assert forall p | p in t[Common(f, t)..] :: p in t;
    CountUpsConcat(|f| - Common(f, t), t[Common(f, t)..]);
  }
}
