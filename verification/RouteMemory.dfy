/** How the parser lays a route out in memory: one slot per variable, and for every field with
    several wildcards one slice of names that the records of its wildcards share. */
module RouteMemory {
  import opened Text
  import opened Template
  import opened Patterns
  import opened Fields
  import opened Grouping

  // ---- runs that follow one another ----

  /** `more` is a run of its own, or a single slot without a record. */
  predicate IsBlock(more: seq<MultiGroup?>) {
    || more == [null]
    || (more != [] && more[0] != null && more[0].names.Length == |more| && IsRun(more, 0, more[0].names))
  }

  predicate Avoids(records: seq<MultiGroup?>, names: array<string>) {
    forall j | 0 <= j < |records| && records[j] != null :: records[j].names != names
  }

  lemma MemberBefore(a: seq<MultiGroup?>, b: seq<MultiGroup?>, start: int, names: array<string>, k: nat)
    requires IsMember(a, start, names, k)
    ensures IsMember(a + b, start, names, k)
  {
  }

  lemma MemberAfter(a: seq<MultiGroup?>, b: seq<MultiGroup?>, names: array<string>, k: nat)
    requires IsMember(b, 0, names, k)
    ensures IsMember(a + b, |a|, names, k)
  {
  }

  lemma RunBefore(a: seq<MultiGroup?>, b: seq<MultiGroup?>, start: int, names: array<string>)
    requires IsRun(a, start, names)
    ensures IsRun(a + b, start, names)
  {
    forall k | 0 <= k < names.Length
      ensures IsMember(a + b, start, names, k)
    {
      MemberBefore(a, b, start, names, k);
    }
  }

  lemma RunAfter(a: seq<MultiGroup?>, b: seq<MultiGroup?>, names: array<string>)
    requires IsRun(b, 0, names)
    ensures IsRun(a + b, |a|, names)
  {
    forall k | 0 <= k < names.Length
      ensures IsMember(a + b, |a|, names, k)
    {
      MemberAfter(a, b, names, k);
    }
  }

  lemma RecordInBlock(b: seq<MultiGroup?>, j: nat)
    requires IsBlock(b) && j < |b|
    ensures b[j] == null || (b[0] != null && b[j].names == b[0].names && b[j].idx == j)
  {
    if b[0] != null { assert IsMember(b, 0, b[0].names, j); }
  }

  lemma RunInSum(a: seq<MultiGroup?>, b: seq<MultiGroup?>, j: nat)
    requires Wired(a) && IsBlock(b) && j < |a| + |b|
    ensures InRun(a + b, j)
  {
    if j < |a| {
      assert InRun(a, j) && (a + b)[j] == a[j];
      if a[j] != null { RunBefore(a, b, j - a[j].idx, a[j].names); }
    } else {
      var i := j - |a|;
      assert (a + b)[j] == b[i];
      RecordInBlock(b, i);
      if b[i] != null { RunAfter(a, b, b[0].names); }
    }
  }

  lemma SameRunInSum(a: seq<MultiGroup?>, b: seq<MultiGroup?>, i: nat, j: nat)
    requires Wired(a) && IsBlock(b) && (b[0] != null ==> Avoids(a, b[0].names)) && i < |a| + |b| && j < |a| + |b|
    ensures SameRun(a + b, i, j)
  {
    if i < |a| && j < |a| { assert SameRun(a, i, j); }
    if i >= |a| { RecordInBlock(b, i - |a|); }
    if j >= |a| { RecordInBlock(b, j - |a|); }
  }

  /** Adding a block keeps a route well wired. */
  lemma WiredSum(a: seq<MultiGroup?>, b: seq<MultiGroup?>)
    requires Wired(a) && IsBlock(b) && (b[0] != null ==> Avoids(a, b[0].names))
    ensures Wired(a + b)
  {
    forall j | 0 <= j < |a + b|
      ensures InRun(a + b, j)
    {
      RunInSum(a, b, j);
    }
    forall i, j | 0 <= i < |a + b| && 0 <= j < |a + b|
      ensures SameRun(a + b, i, j)
    {
      SameRunInSum(a, b, i, j);
    }
  }

  lemma WiredBlock(b: seq<MultiGroup?>)
    requires IsBlock(b)
    ensures Wired(b)
  {
    assert Wired([]);
    WiredSum([], b);
    assert [] + b == b;
  }

  // ---- what the slots describe ----

  lemma RecordsSum(a: seq<Slot>, b: seq<Slot>)
    ensures Records(a + b) == Records(a) + Records(b)
    ensures SlotNames(a + b) == SlotNames(a) + SlotNames(b)
  {
  }

  lemma RunOfSum(a: seq<string>, b: seq<string>, start: nat, n: nat)
    ensures start + n <= |a| ==> Run(a + b, start, n) == Run(a, start, n)
    ensures start + n <= |b| ==> Run(a + b, |a| + start, n) == Run(b, start, n)
  {
  }

  lemma RunOfFirstSlots(a: seq<Slot>, b: seq<Slot>, start: nat, n: nat)
    requires start + n <= |a|
    ensures Run(SlotNames(a + b), start, n) == Run(SlotNames(a), start, n)
  {
    RecordsSum(a, b);
    RunOfSum(SlotNames(a), SlotNames(b), start, n);
  }

  lemma RunOfLastSlots(a: seq<Slot>, b: seq<Slot>, start: nat, at: nat, n: nat)
    requires start + n <= |b| && at == |a| + start
    ensures Run(SlotNames(a + b), at, n) == Run(SlotNames(b), start, n)
  {
    RecordsSum(a, b);
    RunOfSum(SlotNames(a), SlotNames(b), start, n);
  }

  lemma DescribedBefore(a: seq<Slot>, b: seq<Slot>, j: nat)
    requires Wired(Records(a)) && Wired(Records(a + b)) && j < |a|
    ensures Described(a + b, j) == Described(a, j)
  {
    DescribedWithNames(a, j);
    DescribedWithNames(a + b, j);
    var m := a[j].multi;
    if m != null { RunOfFirstSlots(a, b, j - m.idx, m.names.Length); }
  }

  lemma DescribedIs(slots: seq<Slot>, j: nat, s: Slot, start: nat, names: seq<string>)
    requires Wired(Records(slots)) && j < |slots| && slots[j] == s
    requires s.multi != null ==> start + s.multi.idx == j && start + s.multi.names.Length <= |slots|
                                 && names == Run(SlotNames(slots), start, s.multi.names.Length)
    ensures Described(slots, j) == WithNames(s, if s.multi == null then [] else names)
  {
    DescribedWithNames(slots, j);
  }

  lemma DescribedAfter(a: seq<Slot>, b: seq<Slot>, j: nat, at: nat)
    requires Wired(Records(b)) && Wired(Records(a + b)) && j < |b| && at == |a| + j
    ensures Described(a + b, at) == Described(b, j)
  {
    var s := b[j];
    if s.multi == null {
      DescribedIs(b, j, s, 0, []);
      DescribedIs(a + b, at, s, 0, []);
    } else {
      RunBounds(Records(b), j);
      var start, n := j - s.multi.idx, s.multi.names.Length;
      RunOfLastSlots(a, b, start, |a| + start, n);
      DescribedIs(b, j, s, start, Run(SlotNames(b), start, n));
      DescribedIs(a + b, at, s, |a| + start, Run(SlotNames(b), start, n));
    }
  }

  lemma DescribedSum(a: seq<Slot>, b: seq<Slot>)
    requires Wired(Records(a)) && Wired(Records(b)) && Wired(Records(a + b))
    ensures DescribedAll(a + b) == DescribedAll(a) + DescribedAll(b)
  {
    forall j | 0 <= j < |a + b|
      ensures DescribedAll(a + b)[j] == (DescribedAll(a) + DescribedAll(b))[j]
    {
      if j < |a| { DescribedBefore(a, b, j); } else { DescribedAfter(a, b, j - |a|, j); }
    }
  }

  // ---- allocation ----

  /** The slots of one field: `names` is the slice its records share. */
  ghost predicate HoldsBlock(slots: seq<Slot>, names: array<string>, block: seq<PathVar>, f: Field)
    reads names
  {
    && |slots| == |block| == |f.names| == |f.seps| + 1 && names[..] == f.names
    && forall k | 0 <= k < |slots| ::
         && (f.seps == [] ==> slots[k].multi == null)
         && (f.seps != [] ==> slots[k].multi != null && slots[k].multi.names == names && slots[k].multi.idx == k)
         && slots[k].name == f.names[k] && block[k] == WithNames(slots[k], f.names)
  }

  /** Writes the slots of one field, as the parser does at each variable of the pattern. */
  method AllocateBlock(block: seq<PathVar>, ghost f: Field) returns (slots: seq<Slot>, names: array<string>)
    requires |block| == |f.names| == |f.seps| + 1 && forall k | 0 <= k < |block| :: IsVarOf(block[k], f, k)
    ensures fresh(names) && HoldsBlock(slots, names, block, f)
  {
    var v := block[0];
    assert IsVarOf(v, f, 0);
    if v.multi.None? {
      names := new string[1](_ => v.name);
      assert names[..] == f.names;
      return [Slot(v.name, v.fieldPath, v.prefix, v.wildcard, v.customVerb, null)], names;
    }
    var m := v.multi.value;
    names := new string[|m.names|](i requires 0 <= i < |m.names| => m.names[i]);
    assert names[..] == m.names;
    slots := [];
    var k := 0;
    while k < |block|
      invariant 0 <= k <= |block| && |slots| == k && names[..] == m.names
      invariant forall i | 0 <= i < k ::
        && slots[i].multi != null && slots[i].multi.names == names && slots[i].multi.idx == i
        && slots[i].name == f.names[i] && block[i] == WithNames(slots[i], f.names)
    {
      var w := block[k];
      assert IsVarOf(w, f, k);
      var g := w.multi.value;
      var mg := new MultiGroup(g.idx, g.fieldPath, g.prefix, g.seps, names, g.lastVerb);
      slots := slots + [Slot(w.name, w.fieldPath, w.prefix, w.wildcard, w.customVerb, mg)];
      k := k + 1;
    }
  }

  lemma BlockIsWired(slots: seq<Slot>, names: array<string>, block: seq<PathVar>, f: Field)
    requires HoldsBlock(slots, names, block, f)
    ensures IsBlock(Records(slots)) && Wired(Records(slots)) && DescribedAll(slots) == block
    ensures Records(slots)[0] != null ==> Records(slots)[0].names == names
  {
    var records := Records(slots);
    assert names.Length == |f.names|;
    if f.seps == [] {
      assert records == [null];
    } else {
      forall k | 0 <= k < names.Length
        ensures IsMember(records, 0, names, k)
      {
      }
      assert IsRun(records, 0, names);
    }
    WiredBlock(records);
    assert SlotNames(slots) == f.names;
    forall k | 0 <= k < |slots|
      ensures Described(slots, k) == block[k]
    {
      DescribedWithNames(slots, k);
      WholeRun(f.names);
    }
  }

  lemma WholeRun(names: seq<string>)
    ensures Run(names, 0, |names|) == names
  {
  }

  // ---- a whole route ----

  /** The slots written so far: well wired, describing `vars`, their names in `cells`. */
  ghost predicate Written(slots: seq<Slot>, vars: seq<PathVar>, cells: set<array<string>>)
    reads cells
  {
    && Wired(Records(slots)) && DescribedAll(slots) == vars
    && forall j | 0 <= j < |slots| && slots[j].multi != null ::
         var m := slots[j].multi;
         m.names in cells && m.idx < m.names.Length && m.names[m.idx] == slots[j].name
  }

  lemma WriteBlock(slots: seq<Slot>, vars: seq<PathVar>, cells: set<array<string>>, more: seq<Slot>,
                   names: array<string>, block: seq<PathVar>, f: Field)
    requires Written(slots, vars, cells) && HoldsBlock(more, names, block, f) && names !in cells
    ensures Written(slots + more, vars + block, cells + {names})
  {
    BlockIsWired(more, names, block, f);
    RecordsSum(slots, more);
    assert Avoids(Records(slots), names);
    WiredSum(Records(slots), Records(more));
    DescribedSum(slots, more);
    NamesInPlace(slots, vars, cells, more, names, block, f);
  }

  lemma NamesInPlace(slots: seq<Slot>, vars: seq<PathVar>, cells: set<array<string>>, more: seq<Slot>,
                     names: array<string>, block: seq<PathVar>, f: Field)
    requires Written(slots, vars, cells) && HoldsBlock(more, names, block, f)
    ensures forall j | 0 <= j < |slots + more| && (slots + more)[j].multi != null ::
      var m := (slots + more)[j].multi;
      m.names in cells + {names} && m.idx < m.names.Length && m.names[m.idx] == (slots + more)[j].name
  {
    assert names.Length == |f.names| && forall k | 0 <= k < |f.names| :: names[k] == names[..][k];
  }

  method AllocateSlots(vars: seq<PathVar>, fields: seq<Field>)
    returns (slots: seq<Slot>, ghost cells: set<array<string>>)
    requires Aligned(vars, fields) && WellFormed(fields)
    ensures fresh(cells) && Written(slots, vars, cells)
  {
    slots, cells := [], {};
    var left, more := vars, fields;
    ghost var done := [];
    while more != []
      invariant vars == done + left && Aligned(left, more) && WellFormed(more)
      invariant fresh(cells) && Written(slots, done, cells)
      decreases |more|
    {
      var n := |more[0].names|;
      AlignedHead(left, more);
      TailIsWellFormed(more);
      var block, names := AllocateBlock(left[..n], more[0]);
      WriteBlock(slots, done, cells, block, names, left[..n], more[0]);
      Assoc(done, left[..n], left[n..]);
      slots, cells := slots + block, cells + {names};
      done, left, more := done + left[..n], left[n..], more[1..];
    }
    assert done == vars;
  }

  method SlotArray(slots: seq<Slot>) returns (a: array<Slot>)
    ensures fresh(a) && a[..] == slots
  {
    a := new Slot[|slots|](i requires 0 <= i < |slots| => slots[i]);
    assert a[..] == slots;
  }

  /** parseHTTPRule: the route of a pattern, in fresh memory of its own. Every variable names a field. */
  method NewRoute(httpMethod: string, pattern: string) returns (r: RouteInfo)
    requires WellFormed(FieldsFrom(pattern, ""))
    ensures fresh(r) && fresh(r.cells) && r.Valid() && r.httpMethod == httpMethod
    ensures r.serveMuxPath == Show(GoParse(pattern).tokens) && r.customVerb == GoParse(pattern).verb
    ensures DescribedAll(r.pathVars[..]) == GoParse(pattern).vars
  {
    var vars, path, verb := ParseURLPatternToServeMux(pattern);
    ParseIsAligned(pattern, "");
    var slots, cells := AllocateSlots(vars, FieldsFrom(pattern, ""));
    var pathVars := SlotArray(slots);
    r := new RouteInfo(httpMethod, path, verb, pathVars, (set a | a in cells :: a as object) + {pathVars});
  }
}
