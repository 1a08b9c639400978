/** A registered service behind its mux: which group a request goes to, which route the group's
    dispatcher chooses, and what that route's handler makes of the request. */
module ServiceMux {
  import opened Text
  import opened Escape
  import opened Template
  import opened ServeMux
  import opened Patterns
  import opened Fields
  import opened Clients
  import opened RoundTrip
  import opened EndToEnd
  import opened NetUrl
  import opened GoWire
  import opened Grouping
  import opened Registration
  import opened ServiceRoutes
  import Dispatch

  // ---- precedence ----

  predicate Takes(g: Grouping.Group, httpMethod: string, path: string) {
    g.httpMethod == httpMethod && Serve(g.serveMuxPath, path).Captured?
  }

  /** Every path of the first pattern is one of the second. */
  ghost predicate Narrower(a: Grouping.Group, b: Grouping.Group) {
    forall path :: Serve(a.serveMuxPath, path).Captured? ==> Serve(b.serveMuxPath, path).Captured?
  }

  ghost predicate Overlap(a: Grouping.Group, b: Grouping.Group) {
    a.httpMethod == b.httpMethod
    && exists path :: Serve(a.serveMuxPath, path).Captured? && Serve(b.serveMuxPath, path).Captured?
  }

  /** ServeMux panics at registration when two patterns overlap and neither is the more specific. */
  ghost predicate Registrable(groups: seq<Grouping.Group>) {
    forall i, j | 0 <= i < |groups| && 0 <= j < |groups| && i != j && Overlap(groups[i], groups[j]) ::
      Narrower(groups[i], groups[j]) != Narrower(groups[j], groups[i])
  }

  /** The most specific pattern that matches wins. */
  ghost predicate Picked(groups: seq<Grouping.Group>, httpMethod: string, path: string, i: nat) {
    && i < |groups| && Takes(groups[i], httpMethod, path)
    && forall j | 0 <= j < |groups| && j != i && Takes(groups[j], httpMethod, path) :: Narrower(groups[i], groups[j])
  }

  /** No group with a more specific pattern takes the request away. */
  ghost predicate NotTakenBefore(groups: seq<Grouping.Group>, httpMethod: string, path: string, i: nat)
    requires i < |groups|
  {
    forall j | 0 <= j < |groups| && j != i && Takes(groups[j], httpMethod, path) :: !Narrower(groups[j], groups[i])
  }

  lemma {:induction false} TakenTogether(groups: seq<Grouping.Group>, httpMethod: string, path: string, i: nat, j: nat)
    requires Registrable(groups) && i < |groups| && j < |groups| && i != j
    requires Takes(groups[i], httpMethod, path) && Takes(groups[j], httpMethod, path)
    ensures Narrower(groups[i], groups[j]) != Narrower(groups[j], groups[i])
  {
    assert Overlap(groups[i], groups[j]);
  }

  lemma {:induction false} PickedExactly(groups: seq<Grouping.Group>, httpMethod: string, path: string, i: nat)
    requires Registrable(groups) && i < |groups|
    ensures Picked(groups, httpMethod, path, i)
      <==> Takes(groups[i], httpMethod, path) && NotTakenBefore(groups, httpMethod, path, i)
  {
    if Takes(groups[i], httpMethod, path) {
      forall j | 0 <= j < |groups| && j != i && Takes(groups[j], httpMethod, path)
        ensures Narrower(groups[i], groups[j]) <==> !Narrower(groups[j], groups[i])
      {
        TakenTogether(groups, httpMethod, path, i, j);
      }
    }
  }

  lemma {:induction false} AtMostOnePicked(groups: seq<Grouping.Group>, httpMethod: string, path: string, i: nat,
                                           j: nat)
    requires Registrable(groups) && Picked(groups, httpMethod, path, i) && Picked(groups, httpMethod, path, j)
    ensures i == j
  {
    if i != j { TakenTogether(groups, httpMethod, path, i, j); }
  }

  lemma NarrowerIsTransitive(a: Grouping.Group, b: Grouping.Group, c: Grouping.Group)
    requires Narrower(a, b) && Narrower(b, c)
    ensures Narrower(a, c)
  {
  }

  /** The most specific among the first n groups that take the request. */
  ghost predicate PickedOf(groups: seq<Grouping.Group>, httpMethod: string, path: string, i: nat, n: nat)
    requires n <= |groups|
  {
    && i < n && Takes(groups[i], httpMethod, path)
    && forall j | 0 <= j < n && j != i && Takes(groups[j], httpMethod, path) :: Narrower(groups[i], groups[j])
  }

  lemma {:induction false} PickAmong(groups: seq<Grouping.Group>, httpMethod: string, path: string, n: nat)
    returns (i: nat)
    requires Registrable(groups) && n <= |groups|
    requires exists j :: 0 <= j < n && Takes(groups[j], httpMethod, path)
    ensures PickedOf(groups, httpMethod, path, i, n)
  {
    var last := n - 1;
    if exists j :: 0 <= j < last && Takes(groups[j], httpMethod, path) {
      i := PickAmong(groups, httpMethod, path, last);
      if Takes(groups[last], httpMethod, path) {
        TakenTogether(groups, httpMethod, path, i, last);
        if Narrower(groups[last], groups[i]) {
          forall j | 0 <= j < n && j != last && Takes(groups[j], httpMethod, path)
            ensures Narrower(groups[last], groups[j])
          {
            if j != i { NarrowerIsTransitive(groups[last], groups[i], groups[j]); }
          }
          i := last;
        }
      }
    } else {
      i := last;
    }
  }

  /** A request that some group takes goes to exactly one. */
  lemma {:induction false} ExactlyOnePicked(groups: seq<Grouping.Group>, httpMethod: string, path: string)
    requires Registrable(groups)
    ensures (exists i :: Picked(groups, httpMethod, path, i)) <==> exists g :: g in groups && Takes(g, httpMethod, path)
    ensures forall i, j | Picked(groups, httpMethod, path, i) && Picked(groups, httpMethod, path, j) :: i == j
  {
    if exists g :: g in groups && Takes(g, httpMethod, path) {
      var g :| g in groups && Takes(g, httpMethod, path);
      var k :| 0 <= k < |groups| && groups[k] == g;
      var i := PickAmong(groups, httpMethod, path, |groups|);
      assert Picked(groups, httpMethod, path, i);
    }
    forall i, j | Picked(groups, httpMethod, path, i) && Picked(groups, httpMethod, path, j)
      ensures i == j
    {
      AtMostOnePicked(groups, httpMethod, path, i, j);
    }
  }

  // ---- the dispatcher of a group ----

  function RouteOf(g: Grouping.Group, target: Dispatch.Target): RouteInfo? {
    match target
    case Verb(i) => if i < |g.verbRoutes| then g.verbRoutes[i] else null
    case Base => g.baseRoute
    case NotFound => null
  }

  /** The route a group hands a request to; `st` is the template of its path. A group without verbs
      has no dispatcher. */
  function TargetRoute(g: Grouping.Group, st: seq<Token>, path: string): RouteInfo?
    requires g.verbRoutes != [] ==> Holes(st) != []
  {
    if g.verbRoutes == [] then (if Serve(Show(st), path).Captured? then g.baseRoute else null)
    else RouteOf(g, DispatchRequest(Verbs(g), g.baseRoute != null, st, path))
  }

  /** The dispatcher chooses r for a value `last` of the last wildcard: no case before r's own
      applies. */
  predicate Chosen(g: Grouping.Group, r: RouteInfo, last: string) {
    if r == g.baseRoute then forall v | v in Verbs(g) :: !HasSuffix(last, v)
    else exists j :: 0 <= j < |g.verbRoutes| && IsFirstCase(g, r, last, j)
  }

  predicate IsFirstCase(g: Grouping.Group, r: RouteInfo, last: string, j: nat)
    requires j < |g.verbRoutes|
  {
    g.verbRoutes[j] == r && forall k | 0 <= k < j :: !HasSuffix(last + r.customVerb, Verbs(g)[k])
  }

  /** Distinct verb routes, each with a verb; the base route has none. */
  ghost predicate WellGrouped(g: Grouping.Group) {
    && Distinct(g.verbRoutes) && (forall r | r in g.verbRoutes :: r.customVerb != "")
    && (g.baseRoute != null ==> g.baseRoute.customVerb == "")
  }

  lemma {:induction false} VerbChosen(g: Grouping.Group, r: RouteInfo, last: string, j: nat)
    requires WellGrouped(g) && j < |g.verbRoutes| && g.verbRoutes[j] == r
    ensures RouteOf(g, Dispatch.Choose(Verbs(g), g.baseRoute != null, last + r.customVerb)) == r <==> Chosen(g, r, last)
  {
    var value := last + r.customVerb;
    var i := Dispatch.FirstMatch(Verbs(g), value);
    assert HasSuffix(value, Verbs(g)[j]) by { TrimSuffixUndoesAppend(last, r.customVerb); }
    assert r in g.verbRoutes && i <= j;
    if i == j {
      assert IsFirstCase(g, r, last, j);
    } else {
      assert g.verbRoutes[i] != r && HasSuffix(value, Verbs(g)[i]);
      forall k | 0 <= k < |g.verbRoutes|
        ensures !IsFirstCase(g, r, last, k)
      {
        assert g.verbRoutes[k] == r ==> k == j;
      }
    }
  }

  lemma {:induction false} BaseChosen(g: Grouping.Group, r: RouteInfo, last: string)
    requires WellGrouped(g) && r == g.baseRoute
    ensures RouteOf(g, Dispatch.Choose(Verbs(g), true, last)) == r <==> Chosen(g, r, last)
  {
    Dispatch.OtherwiseBase(Verbs(g), true, last);
    var i := Dispatch.FirstMatch(Verbs(g), last);
    if i < |Verbs(g)| { assert g.verbRoutes[i] in g.verbRoutes; }
  }

  lemma {:induction false} RouteChosen(g: Grouping.Group, r: RouteInfo, last: string)
    requires WellGrouped(g) && g.Holds(r)
    ensures RouteOf(g, Dispatch.Choose(Verbs(g), g.baseRoute != null, last + r.customVerb)) == r <==> Chosen(g, r, last)
  {
    if r == g.baseRoute {
      assert last + "" == last;
      BaseChosen(g, r, last);
    } else {
      var j :| 0 <= j < |g.verbRoutes| && g.verbRoutes[j] == r;
      VerbChosen(g, r, last, j);
    }
  }

  lemma {:induction false} GroupsAreWell(routes: seq<RouteInfo>, groups: seq<Grouping.Group>,
                                         before: map<RouteInfo, seq<Slot>>, patterns: map<RouteInfo, string>,
                                             g: Grouping.Group)
    requires Registered(routes, groups, before, patterns) && g in groups
    ensures WellGrouped(g)
  {
    var i :| 0 <= i < |groups| && groups[i] == g;
    var members := Members(routes, Keys(routes)[i]);
    DistinctMembers(routes, Keys(routes)[i]);
    DistinctVerbs(members);
    GroupHasFacts(members);
  }

  /** The template a group's path shows. */
  function TemplateOf(patterns: map<RouteInfo, string>, g: Grouping.Group): seq<Token>
    requires g.Owner() != null && g.Owner() in patterns
  {
    GoParse(patterns[g.Owner()]).tokens
  }

  lemma {:induction false} VerbNeedsPlaceholder(pattern: string)
    requires Supported(pattern) && GoParse(pattern).verb != ""
    ensures Holes(GoParse(pattern).tokens) != []
  {
    var ts := GoParse(pattern).tokens;
    RoutableHoles(ts);
    RoundTrip.LastOfTail(ts);
    LastHoleCounts(SplitTokens(ts)[1..]);
  }

  /** A group with verbs has a placeholder for its dispatcher to look at. */
  lemma {:induction false} VerbsNeedPlaceholders(routes: seq<RouteInfo>, groups: seq<Grouping.Group>,
                                                 before: map<RouteInfo, seq<Slot>>, patterns: map<RouteInfo, string>,
                                                 g: Grouping.Group)
    requires Registered(routes, groups, before, patterns) && g in groups
    ensures g.Owner() != null && g.Owner() in patterns
    ensures g.serveMuxPath == Show(TemplateOf(patterns, g))
    ensures g.verbRoutes != [] ==> Holes(TemplateOf(patterns, g)) != []
  {
    DispatcherReadsLastPlaceholder(routes, groups, before, patterns, g);
    if g.verbRoutes != [] {
      var r := g.verbRoutes[0];
      assert g.Holds(r);
      GroupsAreWell(routes, groups, before, patterns, g);
      GroupOfHeld(routes, groups, before, patterns, g, r);
      VerbNeedsPlaceholder(patterns[r]);
      SameRouteSameCount(GoParse(patterns[r]).tokens, TemplateOf(patterns, g));
    }
  }

  // ---- one request ----

  /** The group the mux picks chooses r, whose handler makes `answer` of the request. */
  ghost predicate Answers(routes: seq<RouteInfo>, groups: seq<Grouping.Group>, before: map<RouteInfo, seq<Slot>>,
                          patterns: map<RouteInfo, string>, httpMethod: string, path: string, r: RouteInfo,
                              answer: Answer)
    requires Registered(routes, groups, before, patterns) && r in routes
    reads set r, o | r in routes && o in r.cells :: o
    reads set r | r in routes :: r.pathVars
  {
    exists k | 0 <= k < |groups| :: AnswersIn(routes, groups, before, patterns, httpMethod, path, r, answer, k)
  }

  ghost predicate AnswersIn(routes: seq<RouteInfo>, groups: seq<Grouping.Group>, before: map<RouteInfo, seq<Slot>>,
                            patterns: map<RouteInfo, string>, httpMethod: string, path: string, r: RouteInfo,
                                answer: Answer,
                            k: nat)
    requires Registered(routes, groups, before, patterns) && r in routes && k < |groups|
    reads set r, o | r in routes && o in r.cells :: o
    reads set r | r in routes :: r.pathVars
  {
    VerbsNeedPlaceholders(routes, groups, before, patterns, groups[k]);
    && Picked(groups, httpMethod, path, k)
    && TargetRoute(groups[k], TemplateOf(patterns, groups[k]), path) == r
    && WellFormed(Assignments(VarsRead(r)))
    && Handle(groups[k].serveMuxPath, Assignments(VarsRead(r)), path) == answer
  }

  /** The same of what goes out, if anything does. */
  ghost predicate AnswersSent(routes: seq<RouteInfo>, groups: seq<Grouping.Group>, before: map<RouteInfo, seq<Slot>>,
                              patterns: map<RouteInfo, string>, httpMethod: string, sent: Sent, r: RouteInfo,
                              answer: Answer)
    requires Registered(routes, groups, before, patterns) && r in routes
    reads set r, o | r in routes && o in r.cells :: o
    reads set r | r in routes :: r.pathVars
  {
    match sent
    case NoRequest => false
    case Sent(path) => Answers(routes, groups, before, patterns, httpMethod, path, r, answer)
  }

  lemma {:induction false} TargetIsHeld(g: Grouping.Group, st: seq<Token>, path: string, r: RouteInfo)
    requires (g.verbRoutes != [] ==> Holes(st) != []) && TargetRoute(g, st, path) == r
    ensures g.Holds(r)
  {
  }

  /** A route is held by one group only. */
  lemma {:induction false} HeldOnce(routes: seq<RouteInfo>, groups: seq<Grouping.Group>, r: RouteInfo, i: nat, k: nat)
    requires AreGroups(routes, Keys(routes), groups) && i < |groups| && k < |groups|
    requires groups[i].Holds(r) && groups[k].Holds(r)
    ensures i == k
  {
    OwnerOwnsThePath(Members(routes, Keys(routes)[i]));
    OwnerOwnsThePath(Members(routes, Keys(routes)[k]));
    assert r in Members(routes, Keys(routes)[i]) && r in Members(routes, Keys(routes)[k]);
    KeysAreDistinct(routes);
    assert Keys(routes)[i] == Keys(routes)[k];
  }

  /** What the last wildcard of r's pattern sends. */
  function LastSent(pattern: string, msg: Message): string
    requires OctetMessage(msg)
  {
    var raws := GoRaws(GoParse(pattern).vars, msg);
    if raws == [] then "" else LastArriving(pattern, raws)
  }

  lemma {:induction false} DeliverableIsServable(pattern: string, msg: Message)
    requires Supported(pattern) && OctetMessage(msg) && Deliverable(pattern, msg) && WellFormed(FieldsOf(pattern))
    requires AllReach(Go, FieldsOf(pattern), msg, Missed(pattern))
    ensures var raws := GoRaws(GoParse(pattern).vars, msg);
      OctetValues(raws) && ServableValues(pattern, ArrivingAt(pattern, raws))
  {
    OctetRaws(Go, GoParse(pattern).vars, msg);
    SharedValues(pattern, msg);
    DeliveredValues(pattern, msg);
  }

  /** For a message that survives the path, the group hands r's request to r exactly when no earlier
      case of its dispatcher applies. `path` is what goes out, served like the path that was built. */
  lemma {:induction false} TargetExactly(routes: seq<RouteInfo>, groups: seq<Grouping.Group>,
                                         before: map<RouteInfo, seq<Slot>>,
                                         patterns: map<RouteInfo, string>, g: Grouping.Group, r: RouteInfo,
                                         msg: Message, path: string)
    requires Registered(routes, groups, before, patterns) && g in groups && g.Holds(r) && r in routes && r in patterns
    requires OctetMessage(msg) && Supported(patterns[r]) && WellFormed(FieldsOf(patterns[r]))
    requires Deliverable(patterns[r], msg) && AllReach(Go, FieldsOf(patterns[r]), msg, Missed(patterns[r]))
    requires Serve(g.serveMuxPath, path).Captured?
    requires Serve(g.serveMuxPath, path) == Serve(g.serveMuxPath, GoPath(patterns[r], msg))
    ensures g.Owner() != null && g.Owner() in patterns && (g.verbRoutes != [] ==> Holes(TemplateOf(patterns, g)) != [])
    ensures TargetRoute(g, TemplateOf(patterns, g), path) == r <==> Chosen(g, r, LastSent(patterns[r], msg))
  {
    VerbsNeedPlaceholders(routes, groups, before, patterns, g);
    GroupsAreWell(routes, groups, before, patterns, g);
    GroupOfHeld(routes, groups, before, patterns, g, r);
    if g.verbRoutes != [] {
      DispatchedExactly(patterns[r], msg, TemplateOf(patterns, g), g);
      RouteChosen(g, r, LastSent(patterns[r], msg));
    }
  }

  lemma {:induction false} DispatchedExactly(pattern: string, msg: Message, st: seq<Token>, g: Grouping.Group)
    requires Supported(pattern) && OctetMessage(msg) && Deliverable(pattern, msg) && WellFormed(FieldsOf(pattern))
    requires AllReach(Go, FieldsOf(pattern), msg, Missed(pattern))
    requires SameRoute(GoParse(pattern).tokens, st) && Holes(st) != []
    ensures DispatchRequest(Verbs(g), g.baseRoute != null, st, GoPath(pattern, msg))
      == Dispatch.Choose(Verbs(g), g.baseRoute != null, LastSent(pattern, msg) + GoParse(pattern).verb)
  {
    DeliverableIsServable(pattern, msg);
    PlaceholdersCounted(pattern);
    SameRouteSameCount(GoParse(pattern).tokens, st);
    CodecsAreValid();
    DispatcherSeesLastValue(pattern, GoCodec(), GoRaws(GoParse(pattern).vars, msg), st, Verbs(g), g.baseRoute != null);
  }

  /** What goes out is a request that no group with a more specific pattern takes away from group i. */
  ghost predicate Unclaimed(groups: seq<Grouping.Group>, httpMethod: string, sent: Sent, i: nat)
    requires i < |groups|
  {
    sent.Sent? && NotTakenBefore(groups, httpMethod, sent.path, i)
  }

  /** One request through the whole service. What the Go client sends for r is answered by r's own
      handler with the fields of the message exactly when the message survives the path, no group with
      a more specific pattern takes the request, and no earlier case of the dispatcher applies to the
      value of the last wildcard. */
  lemma {:induction false} RequestIsAnswered(routes: seq<RouteInfo>, groups: seq<Grouping.Group>,
                                             before: map<RouteInfo, seq<Slot>>, patterns: map<RouteInfo, string>,
                                             i: nat, r: RouteInfo, msg: Message)
    requires Registered(routes, groups, before, patterns) && Registrable(groups)
    requires i < |groups| && groups[i].Holds(r) && OctetMessage(msg)
    requires r in patterns && PathBytes(patterns[r])
    ensures r in routes && Supported(patterns[r]) && WellFormed(FieldsOf(patterns[r]))
    ensures var pattern, g := patterns[r], groups[i];
      var sent := GoRequest(pattern, msg);
      AnswersSent(routes, groups, before, patterns, g.httpMethod, sent, r, Texts(Originals(FieldsOf(pattern), msg)))
      <==> Deliverable(pattern, msg) && AllReach(Go, FieldsOf(pattern), msg, Missed(pattern))
           && Undisturbed(pattern, msg)
           && Unclaimed(groups, g.httpMethod, sent, i) && Chosen(g, r, LastSent(pattern, msg))
  {
    var g := groups[i];
    EveryHandlerAnswers(routes, groups, before, patterns, g, r, msg);
    var sent, goal := GoRequest(patterns[r], msg), Texts(Originals(FieldsOf(patterns[r]), msg));
    if sent.Sent? {
      AnsweredByItsGroup(routes, groups, before, patterns, g.httpMethod, sent.path, r, goal, i);
      AnsweredExactly(routes, groups, before, patterns, i, r, msg, sent.path);
    }
  }

  /** Only the group that holds r can hand a request to it. */
  lemma {:induction false} AnsweredByItsGroup(routes: seq<RouteInfo>, groups: seq<Grouping.Group>,
                                              before: map<RouteInfo, seq<Slot>>,
                                              patterns: map<RouteInfo, string>, httpMethod: string, path: string,
                                                  r: RouteInfo,
                                              answer: Answer, i: nat)
    requires Registered(routes, groups, before, patterns) && r in routes && i < |groups| && groups[i].Holds(r)
    ensures Answers(routes, groups, before, patterns, httpMethod, path, r, answer)
      <==> AnswersIn(routes, groups, before, patterns, httpMethod, path, r, answer, i)
  {
    if Answers(routes, groups, before, patterns, httpMethod, path, r, answer) {
      var k :| 0 <= k < |groups| && AnswersIn(routes, groups, before, patterns, httpMethod, path, r, answer, k);
      VerbsNeedPlaceholders(routes, groups, before, patterns, groups[k]);
      TargetIsHeld(groups[k], TemplateOf(patterns, groups[k]), path, r);
      HeldOnce(routes, groups, r, i, k);
    }
  }

  lemma {:induction false} AnsweredExactly(routes: seq<RouteInfo>, groups: seq<Grouping.Group>,
                                           before: map<RouteInfo, seq<Slot>>,
                                           patterns: map<RouteInfo, string>, i: nat, r: RouteInfo, msg: Message,
                                           path: string)
    requires Registered(routes, groups, before, patterns) && Registrable(groups)
    requires i < |groups| && groups[i].Holds(r) && r in routes && r in patterns && OctetMessage(msg)
    requires r.Valid() && Supported(patterns[r]) && PathBytes(patterns[r]) && WellFormed(FieldsOf(patterns[r]))
    requires GoRequest(patterns[r], msg) == Sent(path)
    requires AnswersGoClient(groups[i], r, patterns[r], msg)
      <==> Deliverable(patterns[r], msg) && AllReach(Go, FieldsOf(patterns[r]), msg, Missed(patterns[r]))
           && Undisturbed(patterns[r], msg)
    ensures var pattern, g := patterns[r], groups[i];
      AnswersIn(routes, groups, before, patterns, g.httpMethod, path, r, Texts(Originals(FieldsOf(pattern), msg)), i)
      <==> AnswersGoClient(g, r, pattern, msg)
           && NotTakenBefore(groups, g.httpMethod, path, i) && Chosen(g, r, LastSent(pattern, msg))
  {
    var g := groups[i];
    PickedExactly(groups, g.httpMethod, path, i);
    if AnswersGoClient(g, r, patterns[r], msg) {
      AnsweredIsCaptured(g.serveMuxPath, Assignments(VarsRead(r)), path);
      GroupOfHeld(routes, groups, before, patterns, g, r);
      DeliveredIsAlike(patterns[r], GoParse(patterns[OwnerOf(routes, r)]).tokens, msg);
      TargetExactly(routes, groups, before, patterns, g, r, msg, path);
    }
  }

  lemma AnsweredIsCaptured(registered: string, fields: seq<Field>, path: string)
    requires WellFormed(fields)
    ensures Handle(registered, fields, path).Texts? <==> Serve(registered, path).Captured?
  {
  }
}
