/** The Go plugin's route table on the heap. Each wildcard of a multi-wildcard variable holds its
    own copy of the group record, but the copies share one slice of names; regrouping renames
    path variables in place, through the route's own slice and through the shared one. */
module Grouping {
  import opened Text
  import opened Normalize
  import Patterns

  /** multiVarGroup: a copy per wildcard, `names` shared between the copies. */
  class MultiGroup {
    const idx: nat
    const fieldPath: string
    const prefix: string
    const seps: seq<string>
    const names: array<string>
    const lastVerb: string

    constructor (idx: nat, fieldPath: string, prefix: string, seps: seq<string>, names: array<string>, lastVerb: string)
      ensures this.idx == idx && this.fieldPath == fieldPath && this.prefix == prefix
      ensures this.seps == seps && this.names == names && this.lastVerb == lastVerb
    {
      this.idx, this.fieldPath, this.prefix := idx, fieldPath, prefix;
      this.seps, this.names, this.lastVerb := seps, names, lastVerb;
    }
  }

  /** pathVar: one element of a route's slice. */
  datatype Slot = Slot(name: string, fieldPath: string, prefix: string, wildcard: bool, customVerb: string,
                       multi: MultiGroup?)

  function SlotNames(slots: seq<Slot>): (names: seq<string>)
    ensures |names| == |slots| && forall i | 0 <= i < |slots| :: names[i] == slots[i].name
  {
    seq(|slots|, i requires 0 <= i < |slots| => slots[i].name)
  }

  function Records(slots: seq<Slot>): (records: seq<MultiGroup?>)
    ensures |records| == |slots| && forall i | 0 <= i < |slots| :: records[i] == slots[i].multi
  {
    seq(|slots|, i requires 0 <= i < |slots| => slots[i].multi)
  }

  /** The `k`-th slot of the run that starts at `start`. */
  predicate IsMember(records: seq<MultiGroup?>, start: int, names: array<string>, k: nat) {
    && 0 <= start && start + k < |records| && records[start + k] != null
    && records[start + k].names == names && records[start + k].idx == k
  }

  predicate IsRun(records: seq<MultiGroup?>, start: int, names: array<string>) {
    forall k | 0 <= k < names.Length :: IsMember(records, start, names, k)
  }

  /** The record of slot `j` belongs to a run of slots that share its names, in index order. */
  predicate InRun(records: seq<MultiGroup?>, j: nat)
    requires j < |records|
  {
    var m := records[j];
    m != null ==>
      && m.idx < m.names.Length
      && IsRun(records, j - m.idx, m.names)
  }

  predicate SameRun(records: seq<MultiGroup?>, i: nat, j: nat)
    requires i < |records| && j < |records|
  {
    records[i] != null && records[j] != null && records[i].names == records[j].names ==>
      i - records[i].idx == j - records[j].idx
  }

  /** How the parser wires records: in runs, and different runs share nothing. */
  predicate Wired(records: seq<MultiGroup?>) {
    && (forall j | 0 <= j < |records| :: InRun(records, j))
    && forall i, j | 0 <= i < |records| && 0 <= j < |records| :: SameRun(records, i, j)
  }

  class RouteInfo {
    const httpMethod: string
    const serveMuxPath: string
    const customVerb: string
    const pathVars: array<Slot>
    ghost const cells: set<object>

    constructor (httpMethod: string, serveMuxPath: string, customVerb: string, pathVars: array<Slot>,
                 ghost cells: set<object>)
      ensures this.httpMethod == httpMethod && this.serveMuxPath == serveMuxPath && this.customVerb == customVerb
      ensures this.pathVars == pathVars && this.cells == cells
    {
      this.httpMethod, this.serveMuxPath, this.customVerb := httpMethod, serveMuxPath, customVerb;
      this.pathVars, this.cells := pathVars, cells;
    }

    /** The route's memory is its own: its slice, and the shared name slices behind it. Every
        wildcard is called the same in both places. */
    ghost predicate Valid()
      reads pathVars, cells
    {
      && pathVars in cells
      && Wired(Records(pathVars[..]))
      && (forall j | 0 <= j < pathVars.Length && pathVars[j].multi != null ::
            var names := pathVars[j].multi.names; names in cells && (names as object) != pathVars)
      && (forall j | 0 <= j < pathVars.Length && pathVars[j].multi != null ::
            var m := pathVars[j].multi; m.idx < m.names.Length && m.names[m.idx] == pathVars[j].name)
    }
  }

  function RenamedSlots(slots: seq<Slot>, names: seq<string>): (r: seq<Slot>)
    ensures |r| == |slots|
    ensures forall j | 0 <= j < |slots| :: r[j] == if j < |names| then slots[j].(name := names[j]) else slots[j]
  {
    seq(|slots|, j requires 0 <= j < |slots| => if j < |names| then slots[j].(name := names[j]) else slots[j])
  }

  /** Renaming one variable, in the slot and in the slice its run shares. */
  method Rename(r: RouteInfo, j: nat, newName: string)
    requires r.Valid() && j < r.pathVars.Length
    modifies r.cells
    ensures r.Valid()
    ensures r.pathVars[..] == old(r.pathVars[..])[j := old(r.pathVars[j]).(name := newName)]
  {
    ghost var before := r.pathVars[..];
    r.pathVars[j] := r.pathVars[j].(name := newName);
    var mg := r.pathVars[j].multi;
    if mg != null {
      mg.names[mg.idx] := newName;
    }
    assert Records(r.pathVars[..]) == Records(before);
    forall i | 0 <= i < r.pathVars.Length && r.pathVars[i].multi != null
      ensures r.pathVars[i].multi.names[r.pathVars[i].multi.idx] == r.pathVars[i].name
    {
      assert SameRun(Records(before), i, j);
    }
  }

  /** The remapping loop for one verb route: `base` is the slice of the route whose names win. */
  method RemapVars(r: RouteInfo, base: array<Slot>)
    requires r.Valid() && base !in r.cells
    modifies r.cells
    ensures r.Valid()
    ensures r.pathVars[..] == RenamedSlots(old(r.pathVars[..]), SlotNames(base[..]))
  {
    ghost var before := r.pathVars[..];
    var j := 0;
    while j < r.pathVars.Length
      invariant 0 <= j <= r.pathVars.Length
      invariant base[..] == old(base[..])
      invariant forall i | 0 <= i < j ::
        r.pathVars[i] == if i < base.Length then before[i].(name := base[i].name) else before[i]
      invariant forall i | j <= i < r.pathVars.Length :: r.pathVars[i] == before[i]
      invariant r.Valid()
    {
      if j < base.Length {
        ghost var now := r.pathVars[..];
        Rename(r, j, base[j].name);
        assert forall i | 0 <= i < r.pathVars.Length :: r.pathVars[i] == r.pathVars[..][i];
      }
      j := j + 1;
    }
  }

  // ---- what a generated handler reads ----

  /** What the generator sees in a slot: through the record it reads the shared slice. */
  ghost function ReadVar(s: Slot): Patterns.PathVar
    reads if s.multi == null then {} else {s.multi.names}
  {
    Patterns.PathVar(s.name, s.fieldPath, s.prefix, s.wildcard, s.customVerb,
      if s.multi == null then Patterns.None
      else Patterns.Some(Patterns.Multi(s.multi.idx, s.multi.fieldPath, s.multi.prefix, s.multi.seps,
                          s.multi.names[..], s.multi.lastVerb)))
  }

  lemma RunBounds(records: seq<MultiGroup?>, j: nat)
    requires Wired(records) && j < |records| && records[j] != null
    ensures records[j].idx <= j && j - records[j].idx + records[j].names.Length <= |records|
  {
    var m := records[j];
    assert InRun(records, j);
    assert IsMember(records, j - m.idx, m.names, 0);
    assert IsMember(records, j - m.idx, m.names, m.names.Length - 1);
  }

  /** `n` names from `start` on. */
  function Run(names: seq<string>, start: nat, n: nat): (run: seq<string>)
    requires start + n <= |names|
    ensures |run| == n && forall k | 0 <= k < n :: run[k] == names[start + k]
  {
    if n == 0 then [] else Run(names, start, n - 1) + [names[start + n - 1]]
  }

  /** The same without the heap: the names of a run are those of its slots. */
  function Described(slots: seq<Slot>, j: nat): Patterns.PathVar
    requires Wired(Records(slots)) && j < |slots|
  {
    var s := slots[j];
    if s.multi == null then
      Patterns.PathVar(s.name, s.fieldPath, s.prefix, s.wildcard, s.customVerb, Patterns.None)
    else
      RunBounds(Records(slots), j);
      var start := j - s.multi.idx;
      Patterns.PathVar(s.name, s.fieldPath, s.prefix, s.wildcard, s.customVerb,
        Patterns.Some(Patterns.Multi(s.multi.idx, s.multi.fieldPath, s.multi.prefix, s.multi.seps,
                                     Run(SlotNames(slots), start, s.multi.names.Length), s.multi.lastVerb)))
  }

  function DescribedAll(slots: seq<Slot>): (vars: seq<Patterns.PathVar>)
    requires Wired(Records(slots))
    ensures |vars| == |slots| && forall j | 0 <= j < |vars| :: vars[j] == Described(slots, j)
  {
    seq(|slots|, j requires 0 <= j < |slots| => Described(slots, j))
  }

  /** Renaming on values: a wildcard's record takes the new names of its run. */
  function RenamedVar(v: Patterns.PathVar, names: seq<string>, j: nat): Patterns.PathVar
    requires j < |names|
  {
    match v.multi
    case None => v.(name := names[j])
    case Some(m) =>
      if m.idx <= j && j - m.idx + |m.names| <= |names| then
        v.(name := names[j], multi := Patterns.Some(m.(names := Run(names, j - m.idx, |m.names|))))
      else v.(name := names[j])
  }

  function RenamedVars(vars: seq<Patterns.PathVar>, names: seq<string>): (r: seq<Patterns.PathVar>)
    requires |vars| == |names|
    ensures |r| == |vars| && forall j | 0 <= j < |vars| :: r[j] == RenamedVar(vars[j], names, j)
  {
    seq(|vars|, j requires 0 <= j < |vars| => RenamedVar(vars[j], names, j))
  }

  lemma NameInRun(r: RouteInfo, j: nat, k: nat)
    requires r.Valid() && j < r.pathVars.Length && r.pathVars[j].multi != null && k < r.pathVars[j].multi.names.Length
    ensures var m := r.pathVars[j].multi;
      && 0 <= j - m.idx && j - m.idx + k < r.pathVars.Length
      && m.names[k] == r.pathVars[j - m.idx + k].name
  {
    var records, m := Records(r.pathVars[..]), r.pathVars[j].multi;
    assert InRun(records, j) && records[j] == m;
    assert IsMember(records, j - m.idx, m.names, k);
    assert records[j - m.idx + k] == r.pathVars[j - m.idx + k].multi;
  }

  lemma ArrayIs(a: array<string>, names: seq<string>)
    requires |names| == a.Length && forall k | 0 <= k < a.Length :: a[k] == names[k]
    ensures a[..] == names
  {
  }

  /** The slice of a run holds the names of its slots. */
  lemma NamesOfRun(r: RouteInfo, j: nat)
    requires r.Valid() && j < r.pathVars.Length && r.pathVars[j].multi != null
    ensures var m := r.pathVars[j].multi;
      && m.idx <= j && j - m.idx + m.names.Length <= r.pathVars.Length
      && m.names[..] == Run(SlotNames(r.pathVars[..]), j - m.idx, m.names.Length)
  {
    var m := r.pathVars[j].multi;
    RunBounds(Records(r.pathVars[..]), j);
    var names := Run(SlotNames(r.pathVars[..]), j - m.idx, m.names.Length);
    forall k | 0 <= k < m.names.Length
      ensures m.names[k] == names[k]
    {
      NameInRun(r, j, k);
    }
    ArrayIs(m.names, names);
  }

  /** A slot described with the names of its run. */
  function WithNames(s: Slot, names: seq<string>): Patterns.PathVar {
    Patterns.PathVar(s.name, s.fieldPath, s.prefix, s.wildcard, s.customVerb,
      if s.multi == null then Patterns.None
      else Patterns.Some(Patterns.Multi(s.multi.idx, s.multi.fieldPath, s.multi.prefix, s.multi.seps, names,
                          s.multi.lastVerb)))
  }

  lemma ReadWithNames(s: Slot, names: seq<string>)
    requires s.multi != null ==> s.multi.names[..] == names
    ensures ReadVar(s) == WithNames(s, names)
  {
  }

  lemma DescribedWithNames(slots: seq<Slot>, j: nat)
    requires Wired(Records(slots)) && j < |slots|
    ensures slots[j].multi == null ==> Described(slots, j) == WithNames(slots[j], [])
    ensures slots[j].multi != null ==>
      var m := slots[j].multi;
      && m.idx <= j && j - m.idx + m.names.Length <= |slots|
      && Described(slots, j) == WithNames(slots[j], Run(SlotNames(slots), j - m.idx, m.names.Length))
  {
    if slots[j].multi != null { RunBounds(Records(slots), j); }
  }

  /** The slices behind the records agree with the slots, so the generator, which reads some names
      in the slots and some in the shared slices, sees one consistent list of variables. */
  lemma SlotsTellAll(r: RouteInfo, j: nat)
    requires r.Valid() && j < r.pathVars.Length
    ensures ReadVar(r.pathVars[j]) == Described(r.pathVars[..], j)
  {
    var slots := r.pathVars[..];
    DescribedWithNames(slots, j);
    var s := slots[j];
    if s.multi == null {
      ReadWithNames(s, []);
    } else {
      NamesOfRun(r, j);
      ReadWithNames(s, Run(SlotNames(slots), j - s.multi.idx, s.multi.names.Length));
    }
  }

  lemma RenamedAlone(s: Slot, names: seq<string>, j: nat)
    requires j < |names| && s.multi == null
    ensures RenamedVar(WithNames(s, []), names, j) == WithNames(s.(name := names[j]), [])
  {
  }

  lemma RenamedInRun(s: Slot, old_: seq<string>, names: seq<string>, j: nat)
    requires j < |names| && s.multi != null && s.multi.idx <= j && j - s.multi.idx + |old_| <= |names|
    ensures RenamedVar(WithNames(s, old_), names, j)
      == WithNames(s.(name := names[j]), Run(names, j - s.multi.idx, |old_|))
  {
    assert WithNames(s, old_).multi.value.names == old_;
  }

  lemma {:induction false} RenamedOneSlot(slots: seq<Slot>, names: seq<string>, r: seq<Slot>, j: nat)
    requires Wired(Records(slots)) && Wired(Records(r)) && |names| == |slots| == |r| && j < |slots|
    requires r[j] == slots[j].(name := names[j]) && SlotNames(r) == names
    ensures Described(r, j) == RenamedVar(Described(slots, j), names, j)
  {
    DescribedWithNames(slots, j);
    DescribedWithNames(r, j);
    var m := slots[j].multi;
    if m == null {
      RenamedAlone(slots[j], names, j);
    } else {
      RenamedInRun(slots[j], Run(SlotNames(slots), j - m.idx, m.names.Length), names, j);
    }
  }

  /** Renaming the slots renames the variables. */
  lemma {:induction false} RenamingSlotsRenamesVars(slots: seq<Slot>, names: seq<string>)
    requires Wired(Records(slots)) && |names| == |slots|
    ensures Records(RenamedSlots(slots, names)) == Records(slots)
    ensures SlotNames(RenamedSlots(slots, names)) == names
    ensures DescribedAll(RenamedSlots(slots, names)) == RenamedVars(DescribedAll(slots), names)
  {
    var r := RenamedSlots(slots, names);
    assert Records(r) == Records(slots);
    assert SlotNames(r) == names;
    forall j | 0 <= j < |slots|
      ensures Described(r, j) == RenamedVar(Described(slots, j), names, j)
    {
      RenamedOneSlot(slots, names, r, j);
    }
  }

  // ---- groups ----

  function Key(r: RouteInfo): string { r.httpMethod + " " + NormalizePath(r.serveMuxPath) }

  datatype Group = Group(httpMethod: string, serveMuxPath: string, baseRoute: RouteInfo?, verbRoutes: seq<RouteInfo>) {
    /** The base route owns the registered path; a later one takes over. */
    function Add(r: RouteInfo): Group {
      if r.customVerb == "" then this.(baseRoute := r, serveMuxPath := r.serveMuxPath)
      else this.(verbRoutes := verbRoutes + [r])
    }

    predicate Holds(r: RouteInfo) { r == baseRoute || r in verbRoutes }

    /** The route whose names win. */
    function Owner(): RouteInfo? {
      if baseRoute != null then baseRoute else if verbRoutes != [] then verbRoutes[0] else null
    }

    function ToRemap(): seq<RouteInfo> {
      if baseRoute != null then verbRoutes else if |verbRoutes| > 1 then verbRoutes[1..] else []
    }
  }

  function NewGroup(r: RouteInfo): Group { Group(r.httpMethod, r.serveMuxPath, null, []) }

  function Members(routes: seq<RouteInfo>, key: string): (members: seq<RouteInfo>)
    ensures forall r | r in members :: r in routes && Key(r) == key
    ensures forall r | r in routes && Key(r) == key :: r in members
  {
    if routes == [] then []
    else
      var n := |routes| - 1;
      Members(routes[..n], key) + if Key(routes[n]) == key then [routes[n]] else []
  }

  function GroupOf(members: seq<RouteInfo>): Group
    requires members != []
  {
    var n := |members| - 1;
    (if n == 0 then NewGroup(members[0]) else GroupOf(members[..n])).Add(members[n])
  }

  /** The keys in order of first appearance. */
  function Keys(routes: seq<RouteInfo>): (keys: seq<string>)
    ensures forall r | r in routes :: Key(r) in keys
    ensures forall k | k in keys :: exists r :: r in routes && Key(r) == k
  {
    if routes == [] then []
    else
      var n := |routes| - 1;
      var keys := Keys(routes[..n]);
      assert forall r | r in routes :: r in routes[..n] || r == routes[n];
      if Key(routes[n]) in keys then keys else keys + [Key(routes[n])]
  }

  lemma MembersSnoc(routes: seq<RouteInfo>, r: RouteInfo, key: string)
    ensures Members(routes + [r], key) == Members(routes, key) + if Key(r) == key then [r] else []
  {
    assert (routes + [r])[..|routes|] == routes;
  }

  lemma GroupSnoc(members: seq<RouteInfo>, r: RouteInfo)
    ensures GroupOf(members + [r]) == (if members == [] then NewGroup(r) else GroupOf(members)).Add(r)
  {
    assert (members + [r])[..|members|] == members;
  }

  lemma KeysSnoc(routes: seq<RouteInfo>, r: RouteInfo)
    ensures Keys(routes + [r]) == if Key(r) in Keys(routes) then Keys(routes) else Keys(routes) + [Key(r)]
  {
    assert (routes + [r])[..|routes|] == routes;
  }

  predicate FiledUnder(routes: seq<RouteInfo>, groups: map<string, Group>, key: string) {
    var members := Members(routes, key);
    if members == [] then key !in groups else key in groups && groups[key] == GroupOf(members)
  }

  /** The table after the first loop has seen `routes`. */
  ghost predicate Filed(routes: seq<RouteInfo>, groups: map<string, Group>) {
    forall key :: FiledUnder(routes, groups, key)
  }

  function File(groups: map<string, Group>, r: RouteInfo): map<string, Group> {
    groups[Key(r) := (if Key(r) in groups then groups[Key(r)] else NewGroup(r)).Add(r)]
  }

  lemma FileUnder(routes: seq<RouteInfo>, groups: map<string, Group>, r: RouteInfo, key: string)
    requires FiledUnder(routes, groups, key)
    ensures FiledUnder(routes + [r], File(groups, r), key)
  {
    MembersSnoc(routes, r, key);
    if key == Key(r) {
      GroupSnoc(Members(routes, key), r);
    } else {
      assert Members(routes, key) + [] == Members(routes, key);
    }
  }

  lemma FileOne(routes: seq<RouteInfo>, groups: map<string, Group>, r: RouteInfo)
    requires Filed(routes, groups)
    ensures Filed(routes + [r], File(groups, r))
  {
    forall key
      ensures FiledUnder(routes + [r], File(groups, r), key)
    {
      FileUnder(routes, groups, r, key);
    }
  }

  lemma KnownKey(routes: seq<RouteInfo>, groups: map<string, Group>, key: string)
    requires FiledUnder(routes, groups, key)
    ensures key in groups <==> key in Keys(routes)
  {
    var members := Members(routes, key);
    if members != [] { assert members[0] in members; }
  }

  /** One round of the first loop. */
  method FileRoute(route: RouteInfo, before: map<string, Group>, keys: seq<string>)
    returns (groups: map<string, Group>, order: seq<string>)
    ensures groups == File(before, route)
    ensures order == if Key(route) in before then keys else keys + [Key(route)]
  {
    groups, order := before, keys;
    var key := Key(route);
    if key !in groups {
      groups := groups[key := NewGroup(route)];
      order := order + [key];
    }
    groups := groups[key := groups[key].Add(route)];
  }

  lemma FileNext(done: seq<RouteInfo>, r: RouteInfo, groups: map<string, Group>)
    requires Filed(done, groups)
    ensures Filed(done + [r], File(groups, r))
    ensures Keys(done + [r]) == if Key(r) in groups then Keys(done) else Keys(done) + [Key(r)]
  {
    FileOne(done, groups, r);
    KeysSnoc(done, r);
    assert FiledUnder(done, groups, Key(r));
    KnownKey(done, groups, Key(r));
  }

  /** The first loop: routes are filed under their keys. */
  method Collect(routes: seq<RouteInfo>) returns (groups: map<string, Group>, order: seq<string>)
    ensures Filed(routes, groups) && order == Keys(routes)
  {
    groups, order := map[], [];
    ghost var done, left := [], routes;
    var i := 0;
    while i < |routes|
      invariant i == |done| && routes == done + left
      invariant Filed(done, groups) && order == Keys(done)
    {
      NextElement(routes, done, left);
      FileNext(done, routes[i], groups);
      groups, order := FileRoute(routes[i], groups, order);
      done, left := done + [routes[i]], left[1..];
      i := i + 1;
    }
    assert done == routes;
  }

  // ---- what a group holds ----

  ghost predicate GroupFacts(g: Group, members: seq<RouteInfo>)
    requires members != []
  {
    && (forall r | r in g.verbRoutes :: r in members && r.customVerb != "")
    && (forall r | r in members && r.customVerb != "" :: r in g.verbRoutes)
    && (g.baseRoute != null
      ==> g.baseRoute in members && g.baseRoute.customVerb == "" && g.serveMuxPath == g.baseRoute.serveMuxPath)
    && (g.baseRoute == null ==> g.verbRoutes == members && g.serveMuxPath == members[0].serveMuxPath)
  }

  lemma FactsOfFirst(r: RouteInfo)
    ensures GroupFacts(NewGroup(r).Add(r), [r])
  {
  }

  lemma FactsOfNext(g: Group, members: seq<RouteInfo>, r: RouteInfo)
    requires members != [] && GroupFacts(g, members)
    ensures GroupFacts(g.Add(r), members + [r])
  {
    assert (members + [r])[0] == members[0];
    assert forall s | s in members + [r] :: s in members || s == r;
  }

  lemma {:induction false} GroupHasFacts(members: seq<RouteInfo>)
    requires members != []
    ensures GroupFacts(GroupOf(members), members)
  {
    var n := |members| - 1;
    assert members == members[..n] + [members[n]];
    if n == 0 {
      FactsOfFirst(members[0]);
    } else {
      GroupHasFacts(members[..n]);
      FactsOfNext(GroupOf(members[..n]), members[..n], members[n]);
    }
  }

  /** The registered path is the owner's. */
  lemma {:induction false} OwnerOwnsThePath(members: seq<RouteInfo>)
    requires members != []
    ensures var g := GroupOf(members);
      && g.Owner() != null && g.Owner() in members && g.serveMuxPath == g.Owner().serveMuxPath
      && forall r | g.Holds(r) :: r in members
  {
    GroupHasFacts(members);
    assert members[0] in members;
  }

  /** Two base routes never share a key. */
  predicate OneBasePerKey(routes: seq<RouteInfo>) {
    forall r, s | r in routes && s in routes && Key(r) == Key(s) && r.customVerb == "" && s.customVerb == "" :: r == s
  }

  function GroupOfRoute(routes: seq<RouteInfo>, r: RouteInfo): Group
    requires r in routes
  {
    GroupOf(Members(routes, Key(r)))
  }

  /** Every route ends up in the group of its key, and in no other, exactly when no two base routes
      share a key: the second one would replace the first. */
  lemma {:induction false} EveryRouteIsGrouped(routes: seq<RouteInfo>)
    ensures (forall r | r in routes :: GroupOfRoute(routes, r).Holds(r)) <==> OneBasePerKey(routes)
    ensures forall key, r | Members(routes, key) != [] && r in routes && GroupOf(Members(routes, key)).Holds(r) ::
      key == Key(r)
  {
    forall r | r in routes
      ensures GroupFacts(GroupOfRoute(routes, r), Members(routes, Key(r)))
    {
      GroupHasFacts(Members(routes, Key(r)));
    }
    forall key, r | Members(routes, key) != [] && r in routes && GroupOf(Members(routes, key)).Holds(r)
      ensures key == Key(r)
    {
      GroupHasFacts(Members(routes, key));
    }
    if OneBasePerKey(routes) {
      forall r | r in routes
        ensures GroupOfRoute(routes, r).Holds(r)
      {
        if r.customVerb == "" { BaseIsKept(routes, r); }
      }
    }
    if forall r | r in routes :: GroupOfRoute(routes, r).Holds(r) {
      forall r, s | r in routes && s in routes && Key(r) == Key(s) && r.customVerb == "" && s.customVerb == ""
        ensures r == s
      {
        assert GroupOfRoute(routes, r).Holds(r) && GroupOfRoute(routes, s).Holds(s);
      }
    }
  }

  lemma {:induction false} BaseIsKept(routes: seq<RouteInfo>, r: RouteInfo)
    requires OneBasePerKey(routes) && r in routes && r.customVerb == ""
    ensures GroupOfRoute(routes, r).baseRoute == r
  {
    var members := Members(routes, Key(r));
    var g := GroupOf(members);
    GroupHasFacts(members);
    if g.baseRoute == null {
      assert false;
    }
  }

  // ---- the second loop ----

  /** The routes own disjoint parts of `heap`. */
  ghost predicate Apart(routes: seq<RouteInfo>, heap: set<object>) {
    && (forall r | r in routes :: r.cells <= heap)
    && forall r, s | r in routes && s in routes && r != s :: r.cells !! s.cells
  }

  ghost predicate AllValid(routes: seq<RouteInfo>, heap: set<object>)
    requires forall r | r in routes :: r.cells <= heap
    reads heap
  {
    forall r | r in routes :: r.pathVars in r.cells && r.Valid()
  }

  /** Slots of `r` once the routes of `done` have been renamed after `owner`. */
  function Target(before: map<RouteInfo, seq<Slot>>, owner: RouteInfo, done: seq<RouteInfo>, r: RouteInfo): seq<Slot>
    requires r in before && owner in before
  {
    if r in done then RenamedSlots(before[r], SlotNames(before[owner])) else before[r]
  }

  ghost predicate Snapshot(routes: seq<RouteInfo>, before: map<RouteInfo, seq<Slot>>) {
    forall r | r in routes :: r in before
  }

  ghost predicate Remapped(routes: seq<RouteInfo>, before: map<RouteInfo, seq<Slot>>, owner: RouteInfo,
                           done: seq<RouteInfo>, heap: set<object>)
    requires Apart(routes, heap) && Snapshot(routes, before) && owner in before
    reads heap
  {
    && AllValid(routes, heap)
    && forall r | r in routes :: r.pathVars[..] == Target(before, owner, done, r)
  }

  /** Renaming one route leaves the others alone. */
  method RemapOne(r: RouteInfo, owner: RouteInfo, ghost done: seq<RouteInfo>, ghost routes: seq<RouteInfo>,
                  ghost before: map<RouteInfo, seq<Slot>>, ghost heap: set<object>)
    requires Apart(routes, heap) && Snapshot(routes, before) && owner in routes && r in routes
    requires r != owner && r !in done && owner !in done
    requires Remapped(routes, before, owner, done, heap)
    modifies heap
    ensures Remapped(routes, before, owner, done + [r], heap)
  {
    RemapVars(r, owner.pathVars);
    forall s | s in routes
      ensures s.pathVars in s.cells && s.Valid() && s.pathVars[..] == Target(before, owner, done + [r], s)
    {
      if s != r { assert s.cells !! r.cells; }
    }
  }

  /** Renaming the routes of one group after its owner. */
  method RemapGroup(g: Group, ghost routes: seq<RouteInfo>, ghost before: map<RouteInfo, seq<Slot>>,
                    ghost heap: set<object>)
    requires Apart(routes, heap) && Snapshot(routes, before)
    requires g.Owner() != null && g.Owner() in routes && g.Owner() !in g.ToRemap() && Distinct(g.ToRemap())
    requires forall r | r in g.ToRemap() :: r in routes
    requires Remapped(routes, before, g.Owner(), [], heap)
    modifies heap
    ensures Remapped(routes, before, g.Owner(), g.ToRemap(), heap)
  {
    var owner, verbsToRemap := g.Owner(), g.ToRemap();
    var i := 0;
    assert verbsToRemap[..0] == [];
    while i < |verbsToRemap|
      invariant 0 <= i <= |verbsToRemap|
      invariant Remapped(routes, before, owner, verbsToRemap[..i], heap)
    {
      var r := verbsToRemap[i];
      RemapOne(r, owner, verbsToRemap[..i], routes, before, heap);
      assert verbsToRemap[..i + 1] == verbsToRemap[..i] + [r];
      i := i + 1;
    }
    assert verbsToRemap[..i] == verbsToRemap;
  }

  // ---- both loops ----

  /** The route whose names `r` ends up with. */
  function OwnerOf(routes: seq<RouteInfo>, r: RouteInfo): (owner: RouteInfo)
    requires r in routes
    ensures owner in routes && Key(owner) == Key(r)
  {
    OwnerOwnsThePath(Members(routes, Key(r)));
    GroupOfRoute(routes, r).Owner()
  }

  predicate IsRemapped(routes: seq<RouteInfo>, r: RouteInfo)
    requires r in routes
  {
    r in GroupOfRoute(routes, r).ToRemap()
  }

  /** Slots of `r` once the groups of `keys` have been remapped. */
  function Final(routes: seq<RouteInfo>, before: map<RouteInfo, seq<Slot>>, keys: seq<string>, r: RouteInfo): seq<Slot>
    requires r in routes && Snapshot(routes, before)
  {
    if Key(r) in keys && IsRemapped(routes, r) then RenamedSlots(before[r], SlotNames(before[OwnerOf(routes, r)]))
        else before[r]
  }

  ghost predicate Regrouped(routes: seq<RouteInfo>, before: map<RouteInfo, seq<Slot>>, keys: seq<string>,
                            heap: set<object>)
    requires Apart(routes, heap) && Snapshot(routes, before)
    reads heap
  {
    && AllValid(routes, heap)
    && forall r | r in routes :: r.pathVars[..] == Final(routes, before, keys, r)
  }

  lemma DistinctInit<T>(s: seq<T>, x: T)
    requires Distinct(s + [x])
    ensures Distinct(s) && x !in s
  {
    assert (s + [x])[|s|] == x && forall i | 0 <= i < |s| :: (s + [x])[i] == s[i];
  }

  lemma {:induction false} DistinctMembers(routes: seq<RouteInfo>, key: string)
    requires Distinct(routes)
    ensures Distinct(Members(routes, key))
  {
    if routes != [] {
      var n := |routes| - 1;
      assert routes == routes[..n] + [routes[n]];
      DistinctInit(routes[..n], routes[n]);
      DistinctMembers(routes[..n], key);
    }
  }

  lemma {:induction false} DistinctVerbs(members: seq<RouteInfo>)
    requires members != [] && Distinct(members)
    ensures Distinct(GroupOf(members).verbRoutes)
    ensures forall r | r in GroupOf(members).verbRoutes :: r in members
  {
    var n := |members| - 1;
    assert members == members[..n] + [members[n]];
    DistinctInit(members[..n], members[n]);
    if n > 0 { DistinctVerbs(members[..n]); }
  }

  /** The owner of a group is never renamed. */
  lemma {:induction false} OwnerIsNotRemapped(members: seq<RouteInfo>)
    requires members != [] && Distinct(members)
    ensures var g := GroupOf(members);
      && g.Owner() != null && g.Owner() in members && g.Owner() !in g.ToRemap() && Distinct(g.ToRemap())
      && forall r | r in g.ToRemap() :: r in members
  {
    var g := GroupOf(members);
    OwnerOwnsThePath(members);
    GroupHasFacts(members);
    DistinctVerbs(members);
    if g.verbRoutes != [] {
      assert g.verbRoutes == [g.verbRoutes[0]] + g.verbRoutes[1..];
      DistinctTail(g.verbRoutes[0], g.verbRoutes[1..]);
    }
  }

  lemma {:induction false} KeysAreDistinct(routes: seq<RouteInfo>)
    ensures Distinct(Keys(routes))
  {
    if routes != [] { KeysAreDistinct(routes[..|routes| - 1]); }
  }

  /** Remapping the group of the next key. */
  lemma {:induction false} NextKey(routes: seq<RouteInfo>, before: map<RouteInfo, seq<Slot>>,
                                   now: map<RouteInfo, seq<Slot>>, keys: seq<string>, key: string, r: RouteInfo)
    requires Distinct(routes) && Snapshot(routes, before) && Snapshot(routes, now)
    requires key !in keys && Members(routes, key) != [] && r in routes
    requires forall s | s in routes :: now[s] == Final(routes, before, keys, s)
    ensures var g := GroupOf(Members(routes, key));
      && g.Owner() != null && g.Owner() in routes
      && Target(now, g.Owner(), g.ToRemap(), r) == Final(routes, before, keys + [key], r)
  {
    var members := Members(routes, key);
    DistinctMembers(routes, key);
    OwnerIsNotRemapped(members);
    var owner := GroupOf(members).Owner();
    assert now[owner] == before[owner];
  }

  method RemapKey(routes: seq<RouteInfo>, g: Group, ghost key: string, ghost keys: seq<string>,
                  ghost before: map<RouteInfo, seq<Slot>>, ghost heap: set<object>)
    requires Distinct(routes) && Apart(routes, heap) && Snapshot(routes, before)
    requires key !in keys && Members(routes, key) != [] && g == GroupOf(Members(routes, key))
    requires Regrouped(routes, before, keys, heap)
    modifies heap
    ensures Regrouped(routes, before, keys + [key], heap)
  {
    ghost var now := map r | r in routes :: r.pathVars[..];
    DistinctMembers(routes, key);
    OwnerIsNotRemapped(Members(routes, key));
    RemapGroup(g, routes, now, heap);
    forall r | r in routes
      ensures r.pathVars[..] == Final(routes, before, keys + [key], r)
    {
      NextKey(routes, before, now, keys, key, r);
    }
  }

  /** One group per key, in order. */
  predicate AreGroups(routes: seq<RouteInfo>, keys: seq<string>, groups: seq<Group>) {
    && |groups| == |keys|
    && forall i | 0 <= i < |keys| :: Members(routes, keys[i]) != [] && groups[i] == GroupOf(Members(routes, keys[i]))
  }

  lemma KeyHasMembers(routes: seq<RouteInfo>, key: string)
    requires key in Keys(routes)
    ensures Members(routes, key) != []
  {
    var r :| r in routes && Key(r) == key;
    assert r in Members(routes, key);
  }

  lemma KeyIsFiled(routes: seq<RouteInfo>, groups: map<string, Group>, key: string)
    requires Filed(routes, groups) && key in Keys(routes)
    ensures key in groups && Members(routes, key) != [] && groups[key] == GroupOf(Members(routes, key))
  {
    KeyHasMembers(routes, key);
    assert FiledUnder(routes, groups, key);
  }

  lemma NextIsNew(keys: seq<string>, i: nat)
    requires Distinct(keys) && i < |keys|
    ensures keys[i] !in keys[..i] && keys[..i + 1] == keys[..i] + [keys[i]]
  {
  }

  /** The second loop. */
  method RemapAll(routes: seq<RouteInfo>, groups: map<string, Group>, order: seq<string>,
                  ghost before: map<RouteInfo, seq<Slot>>, ghost heap: set<object>)
    requires Distinct(routes) && Apart(routes, heap) && Snapshot(routes, before)
    requires Filed(routes, groups) && order == Keys(routes) && Distinct(order)
    requires Regrouped(routes, before, [], heap)
    modifies heap
    ensures Regrouped(routes, before, order, heap)
  {
    var i := 0;
    assert order[..0] == [];
    while i < |order|
      invariant 0 <= i <= |order|
      invariant Regrouped(routes, before, order[..i], heap)
    {
      KeyIsFiled(routes, groups, order[i]);
      NextIsNew(order, i);
      RemapKey(routes, groups[order[i]], order[i], order[..i], before, heap);
      i := i + 1;
    }
    assert order[..i] == order;
  }

  /** The third loop. */
  method InOrder(groups: map<string, Group>, order: seq<string>) returns (result: seq<Group>)
    requires forall k | k in order :: k in groups
    ensures |result| == |order| && forall i | 0 <= i < |order| :: result[i] == groups[order[i]]
  {
    result := [];
    var i := 0;
    while i < |order|
      invariant 0 <= i <= |order| && |result| == i
      invariant forall j | 0 <= j < i :: result[j] == groups[order[j]]
    {
      result := result + [groups[order[i]]];
      i := i + 1;
    }
  }

  lemma FiledInOrder(routes: seq<RouteInfo>, groups: map<string, Group>, order: seq<string>, result: seq<Group>)
    requires Filed(routes, groups) && order == Keys(routes) && |result| == |order|
    requires forall i | 0 <= i < |order| :: order[i] in groups && result[i] == groups[order[i]]
    ensures AreGroups(routes, order, result)
  {
    forall i | 0 <= i < |order|
      ensures Members(routes, order[i]) != [] && result[i] == GroupOf(Members(routes, order[i]))
    {
      KeyIsFiled(routes, groups, order[i]);
    }
  }

  lemma AllFiled(routes: seq<RouteInfo>, groups: map<string, Group>)
    requires Filed(routes, groups)
    ensures forall k | k in Keys(routes) :: k in groups
  {
    forall k | k in Keys(routes)
      ensures k in groups
    {
      KeyIsFiled(routes, groups, k);
    }
  }

  /** groupRoutesByPattern. The groups are listed in order of first appearance, and every route that
      is not its group's owner reads the owner's names; `before` is the memory of the routes on entry. */
  method GroupRoutes(routes: seq<RouteInfo>, ghost before: map<RouteInfo, seq<Slot>>, ghost heap: set<object>)
    returns (result: seq<Group>)
    requires Distinct(routes) && Apart(routes, heap) && AllValid(routes, heap)
    requires forall r | r in routes :: r in before && before[r] == r.pathVars[..]
    modifies heap
    ensures AreGroups(routes, Keys(routes), result)
    ensures Regrouped(routes, before, Keys(routes), heap)
  {
    var groups, order := Collect(routes);
    KeysAreDistinct(routes);
    RemapAll(routes, groups, order, before, heap);
    AllFiled(routes, groups);
    result := InOrder(groups, order);
    FiledInOrder(routes, groups, order, result);
  }

  /** After regrouping: who was renamed, and after whom. */
  lemma RegroupedAll(routes: seq<RouteInfo>, before: map<RouteInfo, seq<Slot>>, heap: set<object>)
    requires Apart(routes, heap) && Snapshot(routes, before) && Regrouped(routes, before, Keys(routes), heap)
    ensures forall r | r in routes && IsRemapped(routes, r) ::
              r.pathVars[..] == RenamedSlots(before[r], SlotNames(before[OwnerOf(routes, r)]))
    ensures forall r | r in routes && !IsRemapped(routes, r) :: r.pathVars[..] == before[r]
  {
  }
}
