/** Routes that share one registration: whichever route's names the registered path carries, every
    handler reads its own fields, and the dispatcher finds the right handler. */
module Registration {
  import opened Text
  import opened Escape
  import opened Template
  import opened ServeMux
  import opened Routing
  import opened Patterns
  import opened Fields
  import opened Clients
  import opened RoundTrip
  import opened EndToEnd
  import opened NetUrl
  import opened GoWire
  import opened Normalize
  import opened Grouping
  import Dispatch

  // ---- renamed variables read renamed fields ----

  lemma RenamedIsVarOf(v: PathVar, f: Field, names: seq<string>, k: nat)
    requires |f.names| == |f.seps| + 1 <= |names| && IsVarOf(v, f, k)
    ensures IsVarOf(RenamedVar(v, names, k), f.(names := Run(names, 0, |f.names|)), k)
  {
  }

  lemma RunIsPrefix(names: seq<string>, n: nat)
    requires n <= |names|
    ensures Run(names, 0, n) == names[..n]
  {
  }

  predicate RunsFit(vars: seq<PathVar>) {
    forall j | 0 <= j < |vars| && vars[j].multi.Some? ::
        vars[j].multi.value.idx <= j && j - vars[j].multi.value.idx + |vars[j].multi.value.names| <= |vars|
  }

  lemma {:induction false} AlignedRunsFit(vars: seq<PathVar>, fields: seq<Field>)
    requires Aligned(vars, fields) && WellFormed(fields)
    ensures RunsFit(vars)
    decreases |fields|
  {
    if fields != [] {
      var n := |fields[0].names|;
      TailIsWellFormed(fields);
      AlignedHead(vars, fields);
      AlignedRunsFit(vars[n..], fields[1..]);
      forall j | 0 <= j < |vars| && vars[j].multi.Some?
        ensures vars[j].multi.value.idx <= j && j - vars[j].multi.value.idx + |vars[j].multi.value.names| <= |vars|
      {
        if j < n {
          assert IsVarOf(vars[..n][j], fields[0], j);
        } else {
          assert vars[n..][j - n] == vars[j];
        }
      }
    }
  }

  lemma RunShifts(names: seq<string>, n: nat, start: nat, c: nat)
    requires n + start + c <= |names|
    ensures Run(names[n..], start, c) == Run(names, n + start, c)
  {
  }

  /** Renaming the variables after the first `n` is renaming them with the names after the first n. */
  lemma {:induction false} RenamedTail(vars: seq<PathVar>, names: seq<string>, n: nat)
    requires |vars| == |names| && n <= |vars| && RunsFit(vars[n..])
    ensures RenamedVars(vars, names)[n..] == RenamedVars(vars[n..], names[n..])
  {
    forall j | 0 <= j < |vars| - n
      ensures RenamedVar(vars[n..][j], names, n + j) == RenamedVar(vars[n..][j], names[n..], j)
    {
      var v := vars[n..][j];
      if v.multi.Some? { RunShifts(names, n, j - v.multi.value.idx, |v.multi.value.names|); }
    }
  }

  lemma {:induction false} RenamedBlock(vars: seq<PathVar>, names: seq<string>, f: Field)
    requires |vars| == |names| && |f.names| == |f.seps| + 1 <= |vars|
    requires forall k | 0 <= k < |f.names| :: IsVarOf(vars[k], f, k)
    ensures forall k | 0 <= k < |f.names| :: IsVarOf(RenamedVars(vars, names)[k], f.(names := names[..|f.names|]), k)
  {
    RunIsPrefix(names, |f.names|);
    forall k | 0 <= k < |f.names|
      ensures IsVarOf(RenamedVars(vars, names)[k], f.(names := names[..|f.names|]), k)
    {
      RenamedIsVarOf(vars[k], f, names, k);
    }
  }

  lemma {:induction false} RenamedStaysAligned(vars: seq<PathVar>, fields: seq<Field>, names: seq<string>)
    requires Aligned(vars, fields) && WellFormed(fields) && |AllNames(fields)| == |vars| == |names|
    ensures Aligned(RenamedVars(vars, names), Renamed(fields, names))
    decreases |fields|
  {
    if fields != [] {
      var f := fields[0];
      var n := |f.names|;
      TailIsWellFormed(fields);
      AlignedHead(vars, fields);
      AlignedRunsFit(vars[n..], fields[1..]);
      RenamedStaysAligned(vars[n..], fields[1..], names[n..]);
      RenamedTail(vars, names, n);
      RenamedBlock(vars, names, f);
      var out := RenamedVars(vars, names);
      AlignedCons(out[..n], f.(names := names[..n]), out[n..], Renamed(fields[1..], names[n..]));
      assert out == out[..n] + out[n..];
    }
  }

  /** The generated literal of a regrouped route assigns the route's own fields, read through the
      new names. */
  lemma {:induction false} RegroupedAssignments(pattern: string, names: seq<string>)
    requires Supported(pattern) && |names| == |GoParse(pattern).vars|
    ensures |AllNames(FieldsOf(pattern))| == |names|
    ensures Assignments(RenamedVars(GoParse(pattern).vars, names)) == Renamed(FieldsOf(pattern), names)
  {
    var vars, fields := GoParse(pattern).vars, FieldsOf(pattern);
    FieldsOfPattern(pattern, map[]);
    ParseIsAligned(pattern, "");
    RenamedStaysAligned(vars, fields, names);
    RenamedStaysWellFormed(fields, names);
    AssignmentsAreFields(RenamedVars(vars, names), Renamed(fields, names));
  }

  // ---- sharing a key is sharing a route ----

  lemma {:induction false} VariablesPerPath(pattern: string)
    ensures |Holes(GoParse(pattern).tokens)| == |GoParse(pattern).vars|
    ensures HoleNames(Holes(GoParse(pattern).tokens)) == VarNames(GoParse(pattern).vars)
  {
    PlaceholdersAreVariables(pattern, "");
  }

  /** Patterns with the same key have equally many variables, so the renaming loop never runs out of
      names, and the path of either can be registered for both. */
  lemma {:induction false} SameKeySameRoute(p: string, q: string)
    requires Supported(p) && Supported(q)
    requires NormalizePath(Show(GoParse(p).tokens)) == NormalizePath(Show(GoParse(q).tokens))
    ensures |GoParse(p).vars| == |GoParse(q).vars|
    ensures SameRoute(GoParse(p).tokens, GoParse(q).tokens)
  {
    SameKeySameCount(GoParse(p).tokens, GoParse(q).tokens);
    SameKeySameShape(GoParse(p).tokens, GoParse(q).tokens);
    VariablesPerPath(p);
    VariablesPerPath(q);
  }

  // ---- after regrouping ----

  /** The route was parsed from the pattern. */
  ghost predicate ParsedFrom(r: RouteInfo, slots: seq<Slot>, pattern: string) {
    && r.serveMuxPath == Show(GoParse(pattern).tokens) && r.customVerb == GoParse(pattern).verb
    && ' ' !in r.httpMethod
    && Wired(Records(slots)) && DescribedAll(slots) == GoParse(pattern).vars
  }

  ghost predicate AllParsed(routes: seq<RouteInfo>, before: map<RouteInfo, seq<Slot>>,
                            patterns: map<RouteInfo, string>)
  {
    && Snapshot(routes, before)
    && forall r | r in routes :: r in patterns && Supported(patterns[r]) && ParsedFrom(r, before[r], patterns[r])
  }

  lemma {:induction false} SameKeySamePath(r: RouteInfo, s: RouteInfo)
    requires ' ' !in r.httpMethod && ' ' !in s.httpMethod && Key(r) == Key(s)
    ensures r.httpMethod == s.httpMethod && NormalizePath(r.serveMuxPath) == NormalizePath(s.serveMuxPath)
  {
    BeforeOfSum(r.httpMethod, ' ', NormalizePath(r.serveMuxPath));
    BeforeOfSum(s.httpMethod, ' ', NormalizePath(s.serveMuxPath));
    assert Key(r)[|r.httpMethod| + 1..] == NormalizePath(r.serveMuxPath);
    assert Key(s)[|s.httpMethod| + 1..] == NormalizePath(s.serveMuxPath);
  }

  lemma SlotNamesAreVarNames(slots: seq<Slot>)
    requires Wired(Records(slots))
    ensures SlotNames(slots) == VarNames(DescribedAll(slots))
  {
  }

  lemma FirstOrLater<T>(s: seq<T>, x: T)
    requires x in s
    ensures s[0] == x || (|s| > 1 && x in s[1..])
  {
    assert s == [s[0]] + s[1..];
  }

  lemma KeptRouteIsOwner(routes: seq<RouteInfo>, r: RouteInfo)
    requires r in routes && GroupOfRoute(routes, r).Holds(r) && !IsRemapped(routes, r)
    ensures OwnerOf(routes, r) == r
  {
    var g := GroupOfRoute(routes, r);
    GroupHasFacts(Members(routes, Key(r)));
    if r in g.verbRoutes { FirstOrLater(g.verbRoutes, r); }
  }

  /** The variables a route ends up with. */
  lemma {:induction false} FinalVars(routes: seq<RouteInfo>, before: map<RouteInfo, seq<Slot>>,
                                     patterns: map<RouteInfo, string>, r: RouteInfo)
    requires AllParsed(routes, before, patterns) && r in routes && GroupOfRoute(routes, r).Holds(r)
    ensures var o := OwnerOf(routes, r);
      var slots, names := Final(routes, before, Keys(routes), r), HoleNames(Holes(GoParse(patterns[o]).tokens));
      && SameRoute(GoParse(patterns[r]).tokens, GoParse(patterns[o]).tokens)
      && |names| == |GoParse(patterns[r]).vars| == |before[r]| == |before[o]|
      && Wired(Records(slots))
      && (IsRemapped(routes, r) ==> DescribedAll(slots) == RenamedVars(GoParse(patterns[r]).vars, names))
      && (!IsRemapped(routes, r) ==> DescribedAll(slots) == GoParse(patterns[r]).vars)
      && (!IsRemapped(routes, r) ==> o == r)
  {
    var o := OwnerOf(routes, r);
    SameKeySamePath(r, o);
    SameKeySameRoute(patterns[r], patterns[o]);
    VariablesPerPath(patterns[o]);
    SlotNamesAreVarNames(before[o]);
    if IsRemapped(routes, r) {
      RenamingSlotsRenamesVars(before[r], SlotNames(before[o]));
    } else {
      KeptRouteIsOwner(routes, r);
    }
  }

  /** After regrouping, every grouped route is registered under a path of its own shape, and its
      handler assigns its own fields from that path's placeholders, in order. */
  lemma {:induction false} HandlersReadTheirFields(routes: seq<RouteInfo>, before: map<RouteInfo, seq<Slot>>,
                                                   patterns: map<RouteInfo, string>, r: RouteInfo)
    requires AllParsed(routes, before, patterns) && r in routes && GroupOfRoute(routes, r).Holds(r)
    ensures var st := GoParse(patterns[OwnerOf(routes, r)]).tokens;
      var slots := Final(routes, before, Keys(routes), r);
      && GroupOfRoute(routes, r).serveMuxPath == Show(st)
      && SameRoute(GoParse(patterns[r]).tokens, st)
      && |HoleNames(Holes(st))| == |AllNames(FieldsOf(patterns[r]))|
      && Wired(Records(slots))
      && Assignments(DescribedAll(slots)) == Renamed(FieldsOf(patterns[r]), HoleNames(Holes(st)))
  {
    OwnerOwnsThePath(Members(routes, Key(r)));
    FinalVars(routes, before, patterns, r);
    if IsRemapped(routes, r) {
      RegroupedAssignments(patterns[r], HoleNames(Holes(GoParse(patterns[OwnerOf(routes, r)]).tokens)));
    } else {
      OwnRoute(patterns[r]);
    }
  }

  /** So the handler of a regrouped route answers what the Go client sends as if it had been
      registered alone. */
  lemma {:induction false} GroupedRoundTrip(routes: seq<RouteInfo>, before: map<RouteInfo, seq<Slot>>,
                                            patterns: map<RouteInfo, string>, r: RouteInfo, msg: Message)
    requires AllParsed(routes, before, patterns) && r in routes && GroupOfRoute(routes, r).Holds(r) && OctetMessage(msg)
    requires PathBytes(patterns[r])
    ensures var slots, p := Final(routes, before, Keys(routes), r), patterns[r];
      && Wired(Records(slots)) && WellFormed(Assignments(DescribedAll(slots))) && WellFormed(FieldsOf(p))
      && (HandleSent(GroupOfRoute(routes, r).serveMuxPath, Assignments(DescribedAll(slots)), GoRequest(p, msg))
            == Texts(Originals(FieldsOf(p), msg))
          <==> Deliverable(p, msg) && AllReach(Go, FieldsOf(p), msg, Missed(p)) && Undisturbed(p, msg))
  {
    var st := GoParse(patterns[OwnerOf(routes, r)]).tokens;
    HandlersReadTheirFields(routes, before, patterns, r);
    FieldsOfRoute(patterns[r], st);
    GoRoundTrip(patterns[r], st, msg);
  }

  // ---- the dispatcher ----

  /** The dispatcher of a group, behind the mux: it looks at the value of the last placeholder. */
  function DispatchRequest(verbs: seq<string>, hasBase: bool, st: seq<Token>, path: string): Dispatch.Target
    requires Holes(st) != []
  {
    match Serve(Show(st), path)
    case NotServed => Dispatch.NotFound
    case Captured(values) =>
      var names := HoleNames(Holes(st));
      Dispatch.Choose(verbs, hasBase, PathValue(Register(Show(st)), values, names[|names| - 1]))
  }

  /** The path of a client of `pattern` that has these values to send. */
  function SentTo(pattern: string, codec: Codec, raws: seq<string>): string
    requires |raws| == |GoParse(pattern).vars| && OctetValues(raws)
  {
    FillTemplate(codec, UrlPattern(pattern), FoundHoles(pattern), raws)
  }

  lemma {:induction false} SameRouteSameCount(ts: seq<Token>, st: seq<Token>)
    requires Routable(ts) && SameRoute(ts, st)
    ensures |Holes(st)| == |Holes(ts)|
  {
    RoutableHoles(st);
    RoutableHoles(ts);
    SameShapeSameCount(SplitTokens(ts)[1..], SplitTokens(st)[1..]);
  }

  /** What arrives of these values can be served. */
  predicate Sendable(pattern: string, raws: seq<string>) {
    && Supported(pattern) && |raws| == |GoParse(pattern).vars| > 0 && OctetValues(raws)
    && ServableValues(pattern, ArrivingAt(pattern, raws))
  }

  function LastArriving(pattern: string, raws: seq<string>): string
    requires |raws| == |GoParse(pattern).vars| > 0
  {
    ArrivingAt(pattern, raws)[|raws| - 1]
  }

  lemma {:induction false} DispatcherSeesLastValue(pattern: string, codec: Codec, raws: seq<string>, st: seq<Token>,
                                                   verbs: seq<string>, hasBase: bool)
    requires Sendable(pattern, raws) && codec.Valid() && SameRoute(GoParse(pattern).tokens, st)
    ensures |Holes(st)| == |raws|
    ensures DispatchRequest(verbs, hasBase, st, SentTo(pattern, codec, raws))
      == Dispatch.Choose(verbs, hasBase, LastArriving(pattern, raws) + GoParse(pattern).verb)
  {
    PlaceholdersCounted(pattern);
    ServerCaptures(pattern, codec, raws, st);
    SameRouteSameCount(GoParse(pattern).tokens, st);
    LastCapture(st, AppendLast(ArrivingAt(pattern, raws), GoParse(pattern).verb));
  }

  /** A request made for a verb route reaches that route, whatever the values, when the verbs of
      the group are suffix-free; and it must, for every message, only then (see Dispatch). */
  lemma {:induction false} VerbRequestsReachTheirRoute(pattern: string, codec: Codec, raws: seq<string>, st: seq<Token>,
                                                       verbs: seq<string>, hasBase: bool, i: nat)
    requires Sendable(pattern, raws) && codec.Valid() && SameRoute(GoParse(pattern).tokens, st)
    requires Dispatch.SuffixFree(verbs) && i < |verbs| && verbs[i] == GoParse(pattern).verb
    ensures |Holes(st)| == |raws|
    ensures DispatchRequest(verbs, hasBase, st, SentTo(pattern, codec, raws)) == Dispatch.Verb(i)
  {
    DispatcherSeesLastValue(pattern, codec, raws, st, verbs, hasBase);
    Dispatch.ReachedExactlyWhenSuffixFree(verbs, hasBase);
  }

  /** A request made for the base route reaches it exactly when the last wildcard's value does not
      itself end in one of the group's verbs. */
  lemma {:induction false} BaseRequestsReachTheBase(pattern: string, codec: Codec, raws: seq<string>, st: seq<Token>,
                                                    verbs: seq<string>)
    requires Sendable(pattern, raws) && codec.Valid() && SameRoute(GoParse(pattern).tokens, st)
    requires GoParse(pattern).verb == ""
    ensures |Holes(st)| == |raws|
    ensures DispatchRequest(verbs, true, st, SentTo(pattern, codec, raws)) == Dispatch.Base
      <==> forall v | v in verbs :: !HasSuffix(LastArriving(pattern, raws), v)
  {
    DispatcherSeesLastValue(pattern, codec, raws, st, verbs, true);
    var last := LastArriving(pattern, raws);
    assert last + "" == last;
    Dispatch.OtherwiseBase(verbs, true, last);
  }
}
