/** generateServiceHandler: the routes of a service are parsed one by one, then grouped. */
module ServiceRoutes {
  import opened Text
  import opened Template
  import opened Escape
  import opened Patterns
  import opened Fields
  import opened Clients
  import opened RoundTrip
  import opened EndToEnd
  import opened NetUrl
  import opened GoWire
  import opened Grouping
  import opened RouteMemory
  import opened Registration
  import Dispatch

  /** One HTTP rule of the service: a method name and a pattern. */
  datatype HttpRule = HttpRule(httpMethod: string, pattern: string)

  predicate Usable(rules: seq<HttpRule>) {
    forall i | 0 <= i < |rules| :: Supported(rules[i].pattern) && ' ' !in rules[i].httpMethod
  }

  /** The routes written so far, each from its own rule and in memory of its own. */
  ghost predicate Parsed(routes: seq<RouteInfo>, rules: seq<HttpRule>, before: map<RouteInfo, seq<Slot>>,
                         patterns: map<RouteInfo, string>, heap: set<object>)
    reads heap
  {
    && |routes| == |rules| && Distinct(routes)
    && Apart(routes, heap) && AllValid(routes, heap)
    && AllParsed(routes, before, patterns)
    && forall i | 0 <= i < |routes| ::
         && routes[i].httpMethod == rules[i].httpMethod && patterns[routes[i]] == rules[i].pattern
         && before[routes[i]] == routes[i].pathVars[..]
  }

  lemma DistinctMore(routes: seq<RouteInfo>, r: RouteInfo)
    requires Distinct(routes) && r !in routes
    ensures Distinct(routes + [r])
  {
    forall i, j | 0 <= i < j < |routes + [r]|
      ensures (routes + [r])[i] != (routes + [r])[j]
    {
      if j == |routes| { assert (routes + [r])[i] in routes; }
    }
  }

  /** The next route lies apart from the routes before it. */
  lemma ApartMore(routes: seq<RouteInfo>, heap: set<object>, r: RouteInfo)
    requires Apart(routes, heap) && AllValid(routes, heap) && r.cells !! heap && r.Valid()
    ensures Apart(routes + [r], heap + r.cells) && AllValid(routes + [r], heap + r.cells)
  {
    forall x | x in routes + [r]
      ensures x in routes || x == r
    {
    }
  }

  lemma ParsedMore(routes: seq<RouteInfo>, rules: seq<HttpRule>, before: map<RouteInfo, seq<Slot>>,
                   patterns: map<RouteInfo, string>, heap: set<object>, r: RouteInfo, rule: HttpRule)
    requires Parsed(routes, rules, before, patterns, heap)
    requires r !in routes && r.cells !! heap && r.Valid() && Supported(rule.pattern) && ' ' !in rule.httpMethod
    requires r.httpMethod == rule.httpMethod && ParsedFrom(r, r.pathVars[..], rule.pattern)
    ensures Parsed(routes + [r], rules + [rule], before[r := r.pathVars[..]], patterns[r := rule.pattern],
                   heap + r.cells)
  {
    DistinctMore(routes, r);
    ApartMore(routes, heap, r);
    AllParsedMore(routes, before, patterns, r, r.pathVars[..], rule.pattern);
  }

  lemma AllParsedMore(routes: seq<RouteInfo>, before: map<RouteInfo, seq<Slot>>, patterns: map<RouteInfo, string>,
                      r: RouteInfo, slots: seq<Slot>, pattern: string)
    requires AllParsed(routes, before, patterns) && r !in routes && Supported(pattern) && ParsedFrom(r, slots, pattern)
    ensures AllParsed(routes + [r], before[r := slots], patterns[r := pattern])
  {
  }

  /** The variables of a route as the generator reads them, through the shared name slices. */
  ghost function VarsRead(r: RouteInfo): (vars: seq<PathVar>)
    requires r.Valid()
    reads r.pathVars, r.cells
    ensures |vars| == r.pathVars.Length && forall j | 0 <= j < |vars| :: vars[j] == ReadVar(r.pathVars[j])
  {
    seq(r.pathVars.Length,
        j requires 0 <= j < r.pathVars.Length && r.Valid() reads r.pathVars, r.cells => ReadVar(r.pathVars[j]))
  }

  lemma VarsReadAre(r: RouteInfo)
    requires r.Valid()
    ensures VarsRead(r) == DescribedAll(r.pathVars[..])
  {
    forall j | 0 <= j < r.pathVars.Length
      ensures VarsRead(r)[j] == DescribedAll(r.pathVars[..])[j]
    {
      SlotsTellAll(r, j);
    }
  }

  /** Behind the path of its group, the handler of `r` hands a Go client's message on unchanged. */
  ghost predicate AnswersGoClient(g: Grouping.Group, r: RouteInfo, pattern: string, msg: Message)
    requires r.Valid() && Supported(pattern) && PathBytes(pattern) && OctetMessage(msg)
    reads r.pathVars, r.cells
  {
    var fields := Assignments(VarsRead(r));
    WellFormed(fields)
    && HandleSent(g.serveMuxPath, fields, GoRequest(pattern, msg)) == Texts(Originals(FieldsOf(pattern), msg))
  }

  /** The state after registration. */
  ghost predicate Registered(routes: seq<RouteInfo>, groups: seq<Grouping.Group>, before: map<RouteInfo, seq<Slot>>,
                             patterns: map<RouteInfo, string>)
    reads set r, o | r in routes && o in r.cells :: o
    reads set r | r in routes :: r.pathVars
  {
    && AllParsed(routes, before, patterns) && AreGroups(routes, Keys(routes), groups)
    && Distinct(routes)
    && forall r | r in routes :: r.Valid() && r.pathVars[..] == Final(routes, before, Keys(routes), r)
  }

  /** In a registered service, every route of every group answers the Go client exactly when the
      message fits the route's own pattern, whichever route gave the group its path. */
  lemma {:induction false} EveryHandlerAnswers(routes: seq<RouteInfo>, groups: seq<Grouping.Group>,
                                               before: map<RouteInfo, seq<Slot>>, patterns: map<RouteInfo, string>,
                                               g: Grouping.Group, r: RouteInfo, msg: Message)
    requires Registered(routes, groups, before, patterns) && g in groups && g.Holds(r) && OctetMessage(msg)
    requires r in patterns && PathBytes(patterns[r])
    ensures r in routes && r.Valid() && Supported(patterns[r]) && WellFormed(FieldsOf(patterns[r]))
    ensures AnswersGoClient(g, r, patterns[r], msg)
      <==> Deliverable(patterns[r], msg) && AllReach(Go, FieldsOf(patterns[r]), msg, Missed(patterns[r]))
           && Undisturbed(patterns[r], msg)
  {
    var i :| 0 <= i < |groups| && groups[i] == g;
    var key := Keys(routes)[i];
    OwnerOwnsThePath(Members(routes, key));
    assert r in Members(routes, key);
    VarsReadAre(r);
    GroupedRoundTrip(routes, before, patterns, r, msg);
  }

  /** The verbs of a group, in the order of its dispatcher's cases. */
  function Verbs(g: Grouping.Group): (verbs: seq<string>)
    ensures |verbs| == |g.verbRoutes| && forall i | 0 <= i < |verbs| :: verbs[i] == g.verbRoutes[i].customVerb
  {
    seq(|g.verbRoutes|, i requires 0 <= i < |g.verbRoutes| => g.verbRoutes[i].customVerb)
  }

  /** The group of a route in it, and the template that group registers. */
  lemma {:induction false} GroupOfHeld(routes: seq<RouteInfo>, groups: seq<Grouping.Group>,
                                       before: map<RouteInfo, seq<Slot>>, patterns: map<RouteInfo, string>,
                                           g: Grouping.Group, r: RouteInfo)
    requires Registered(routes, groups, before, patterns) && g in groups && g.Holds(r)
    ensures r in routes && g == GroupOfRoute(routes, r) && g.Owner() == OwnerOf(routes, r)
    ensures var st := GoParse(patterns[OwnerOf(routes, r)]).tokens;
      SameRoute(GoParse(patterns[r]).tokens, st) && g.serveMuxPath == Show(st)
    ensures r == g.baseRoute <==> r.customVerb == ""
    ensures r.customVerb == GoParse(patterns[r]).verb
  {
    var i :| 0 <= i < |groups| && groups[i] == g;
    var members := Members(routes, Keys(routes)[i]);
    OwnerOwnsThePath(members);
    GroupHasFacts(members);
    assert r in members;
    HandlersReadTheirFields(routes, before, patterns, r);
  }

  /** The dispatcher asks the mux for the last variable of the group's owner: its name in memory is
      the last placeholder of the registered path. */
  lemma {:induction false} DispatcherReadsLastPlaceholder(routes: seq<RouteInfo>, groups: seq<Grouping.Group>,
                                                          before: map<RouteInfo, seq<Slot>>,
                                                          patterns: map<RouteInfo, string>, g: Grouping.Group)
    requires Registered(routes, groups, before, patterns) && g in groups
    ensures g.Owner() != null && g.Holds(g.Owner()) && g.Owner() in routes
    ensures var st := GoParse(patterns[g.Owner()]).tokens;
      && g.serveMuxPath == Show(st) && SlotNames(g.Owner().pathVars[..]) == HoleNames(Holes(st))
  {
    var i :| 0 <= i < |groups| && groups[i] == g;
    var members := Members(routes, Keys(routes)[i]);
    OwnerOwnsThePath(members);
    var o := g.Owner();
    GroupOfHeld(routes, groups, before, patterns, g, o);
    OwnerKeepsItsNames(routes, before, patterns, o);
  }

  lemma {:induction false} OwnerKeepsItsNames(routes: seq<RouteInfo>, before: map<RouteInfo, seq<Slot>>,
                                              patterns: map<RouteInfo, string>, o: RouteInfo)
    requires AllParsed(routes, before, patterns) && Distinct(routes) && o in routes
      && GroupOfRoute(routes, o).Owner() == o
    ensures SlotNames(Final(routes, before, Keys(routes), o)) == HoleNames(Holes(GoParse(patterns[o]).tokens))
  {
    DistinctMembers(routes, Key(o));
    OwnerIsNotRemapped(Members(routes, Key(o)));
    SlotNamesAreVarNames(before[o]);
    VariablesPerPath(patterns[o]);
  }

  /** Where the dispatcher of r's group sends the request of a client of r. */
  function Reached(routes: seq<RouteInfo>, patterns: map<RouteInfo, string>, g: Grouping.Group, r: RouteInfo,
                   codec: Codec, raws: seq<string>): Dispatch.Target
    requires r in routes && r in patterns && OwnerOf(routes, r) in patterns
    requires |raws| == |GoParse(patterns[r]).vars| && OctetValues(raws)
    requires Holes(GoParse(patterns[OwnerOf(routes, r)]).tokens) != []
  {
    DispatchRequest(Verbs(g), g.baseRoute
        != null, GoParse(patterns[OwnerOf(routes, r)]).tokens, SentTo(patterns[r], codec, raws))
  }

  lemma {:induction false} RequestIsDispatched(routes: seq<RouteInfo>, groups: seq<Grouping.Group>,
                                               before: map<RouteInfo, seq<Slot>>, patterns: map<RouteInfo, string>,
                                               g: Grouping.Group, r: RouteInfo, codec: Codec, raws: seq<string>)
    requires Registered(routes, groups, before, patterns) && g in groups && g.Holds(r)
    requires r in routes && r in patterns && Sendable(patterns[r], raws) && codec.Valid()
    ensures Holes(GoParse(patterns[OwnerOf(routes, r)]).tokens) != []
    ensures Reached(routes, patterns, g, r, codec, raws)
      == Dispatch.Choose(Verbs(g), g.baseRoute != null, LastArriving(patterns[r], raws) + r.customVerb)
  {
    GroupOfHeld(routes, groups, before, patterns, g, r);
    var st := GoParse(patterns[OwnerOf(routes, r)]).tokens;
    DispatcherSeesLastValue(patterns[r], codec, raws, st, Verbs(g), g.baseRoute != null);
  }

  /** In a registered service, every request for a verb route reaches that route when the verbs of
      its group are suffix-free. */
  lemma {:induction false} VerbRouteIsReached(routes: seq<RouteInfo>, groups: seq<Grouping.Group>,
                                              before: map<RouteInfo, seq<Slot>>, patterns: map<RouteInfo, string>,
                                              g: Grouping.Group, i: nat, codec: Codec, raws: seq<string>)
    requires Registered(routes, groups, before, patterns) && g in groups && i < |g.verbRoutes|
    requires g.verbRoutes[i] in routes && g.verbRoutes[i] in patterns && Sendable(patterns[g.verbRoutes[i]], raws)
    requires codec.Valid() && Dispatch.SuffixFree(Verbs(g))
    ensures Holes(GoParse(patterns[OwnerOf(routes, g.verbRoutes[i])]).tokens) != []
    ensures Reached(routes, patterns, g, g.verbRoutes[i], codec, raws) == Dispatch.Verb(i)
  {
    RequestIsDispatched(routes, groups, before, patterns, g, g.verbRoutes[i], codec, raws);
    Dispatch.ReachedExactlyWhenSuffixFree(Verbs(g), g.baseRoute != null);
  }

  /** A request for the base route reaches it exactly when its last value ends in no verb of the group. */
  lemma {:induction false} BaseRouteIsReachedExactly(routes: seq<RouteInfo>, groups: seq<Grouping.Group>,
                                                     before: map<RouteInfo, seq<Slot>>,
                                                         patterns: map<RouteInfo, string>,
                                                     g: Grouping.Group, base: RouteInfo, codec: Codec,
                                                         raws: seq<string>)
    requires Registered(routes, groups, before, patterns) && g in groups && g.baseRoute == base
    requires base in routes && base in patterns && Sendable(patterns[base], raws) && codec.Valid()
    ensures Holes(GoParse(patterns[OwnerOf(routes, base)]).tokens) != []
    ensures Reached(routes, patterns, g, base, codec, raws) == Dispatch.Base
      <==> forall v | v in Verbs(g) :: !HasSuffix(LastArriving(patterns[base], raws), v)
  {
    RequestIsDispatched(routes, groups, before, patterns, g, base, codec, raws);
    BaseHasNoVerb(routes, groups, before, patterns, g, base, LastArriving(patterns[base], raws));
    Dispatch.OtherwiseBase(Verbs(g), true, LastArriving(patterns[base], raws));
  }

  lemma {:induction false} BaseHasNoVerb(routes: seq<RouteInfo>, groups: seq<Grouping.Group>,
                                         before: map<RouteInfo, seq<Slot>>, patterns: map<RouteInfo, string>,
                                             g: Grouping.Group,
                                         base: RouteInfo, value: string)
    requires Registered(routes, groups, before, patterns) && g in groups && g.baseRoute == base
    ensures base.customVerb == "" && value + base.customVerb == value
  {
    GroupOfHeld(routes, groups, before, patterns, g, base);
  }

  /** Every rule is served by some group exactly when no two rules without a verb share a path. */
  lemma {:induction false} EveryRuleIsServed(routes: seq<RouteInfo>, groups: seq<Grouping.Group>)
    requires AreGroups(routes, Keys(routes), groups)
    ensures (forall r | r in routes :: exists g :: g in groups && g.Holds(r)) <==> OneBasePerKey(routes)
  {
    EveryRouteIsGrouped(routes);
    forall r | r in routes
      ensures (exists g :: g in groups && g.Holds(r)) <==> GroupOfRoute(routes, r).Holds(r)
    {
      HeldByItsGroup(routes, groups, r);
    }
  }

  lemma {:induction false} HeldByItsGroup(routes: seq<RouteInfo>, groups: seq<Grouping.Group>, r: RouteInfo)
    requires AreGroups(routes, Keys(routes), groups) && r in routes
    ensures GroupOfRoute(routes, r) in groups
    ensures (exists g :: g in groups && g.Holds(r)) <==> GroupOfRoute(routes, r).Holds(r)
  {
    var k :| 0 <= k < |Keys(routes)| && Keys(routes)[k] == Key(r);
    assert groups[k] == GroupOfRoute(routes, r);
    forall g | g in groups && g.Holds(r)
      ensures g == GroupOfRoute(routes, r)
    {
      var i :| 0 <= i < |groups| && groups[i] == g;
      OwnerOwnsThePath(Members(routes, Keys(routes)[i]));
      assert r in Members(routes, Keys(routes)[i]);
    }
  }

  /** The routes written so far, and what is known about them. */
  ghost predicate Progress(routes: seq<RouteInfo>, rules: seq<HttpRule>, n: nat, before: map<RouteInfo, seq<Slot>>,
                           patterns: map<RouteInfo, string>, heap: set<object>)
    requires n <= |rules|
    reads heap
  {
    Parsed(routes, rules[..n], before, patterns, heap)
  }

  lemma ProgressMore(routes: seq<RouteInfo>, rules: seq<HttpRule>, n: nat, before: map<RouteInfo, seq<Slot>>,
                     patterns: map<RouteInfo, string>, heap: set<object>, r: RouteInfo)
    requires Usable(rules) && n < |rules| && Progress(routes, rules, n, before, patterns, heap)
    requires r !in routes && r.cells !! heap && r.Valid() && r.httpMethod == rules[n].httpMethod
    requires ParsedFrom(r, r.pathVars[..], rules[n].pattern)
    ensures Progress(routes + [r], rules, n + 1, before[r := r.pathVars[..]], patterns[r := rules[n].pattern],
                     heap + r.cells)
  {
    ParsedMore(routes, rules[..n], before, patterns, heap, r, rules[n]);
    assert rules[..n + 1] == rules[..n] + [rules[n]];
  }

  /** One round: the next rule is parsed into a route of its own. */
  method AddRoute(routes: seq<RouteInfo>, rules: seq<HttpRule>, n: nat, ghost before: map<RouteInfo, seq<Slot>>,
                  ghost patterns: map<RouteInfo, string>, ghost heap: set<object>)
    returns (r: RouteInfo)
    requires Usable(rules) && n < |rules| && Progress(routes, rules, n, before, patterns, heap)
    ensures fresh(r) && fresh(r.cells)
    ensures Progress(routes + [r], rules, n + 1, before[r := r.pathVars[..]], patterns[r := rules[n].pattern],
                     heap + r.cells)
  {
    r := NewRoute(rules[n].httpMethod, rules[n].pattern);
    ProgressMore(routes, rules, n, before, patterns, heap, r);
  }

  /** Parses every rule of the service and groups the routes. */
  method RegisterService(rules: seq<HttpRule>)
    returns (routes: seq<RouteInfo>, groups: seq<Grouping.Group>, ghost before: map<RouteInfo, seq<Slot>>,
             ghost patterns: map<RouteInfo, string>)
    requires Usable(rules)
    ensures |routes| == |rules| && Registered(routes, groups, before, patterns)
    ensures forall i | 0 <= i < |rules| ::
      routes[i].httpMethod == rules[i].httpMethod && patterns[routes[i]] == rules[i].pattern
  {
    routes, before, patterns := [], map[], map[];
    ghost var heap: set<object> := {};
    var i := 0;
    while i < |rules|
      invariant 0 <= i <= |rules| && fresh(heap)
      invariant Progress(routes, rules, i, before, patterns, heap)
    {
      var r := AddRoute(routes, rules, i, before, patterns, heap);
      before, patterns, heap := before[r := r.pathVars[..]], patterns[r := rules[i].pattern], heap + r.cells;
      routes, i := routes + [r], i + 1;
    }
    assert rules[..i] == rules;
    groups := GroupRoutes(routes, before, heap);
  }
}
