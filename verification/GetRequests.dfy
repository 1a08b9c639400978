/** A whole GET request of the Go client: the fields named in the pattern travel in the path, the
    others in the query, and the handler puts the message together from both. */
module GetRequests {
  import opened Template
  import opened Patterns
  import opened Fields
  import opened RoundTrip
  import opened EndToEnd
  import opened NetUrl
  import opened GoWire
  import Q = QueryParams

  /** The fields a path variable reads: unset ones read as "". */
  function PathMessage(msg: Q.Values): Message { map n | n in msg && msg[n].S? :: msg[n].text }

  /** pathVarFields: the fields the query extractor leaves out. */
  function PathFields(fields: seq<Field>): set<string> { set f | f in fields :: f.fieldPath }

  /** Every path variable names a string field of the message itself, and none twice, as the
      generated composite literal demands. */
  predicate PathFieldsDeclared(fields: seq<Field>, descs: seq<Q.FieldDesc>) {
    && (forall i, j | 0 <= i < j < |fields| :: fields[i].fieldPath != fields[j].fieldPath)
    && forall f | f in fields :: exists d :: d in descs && d.name == f.fieldPath && d.kind.StringKind?
  }

  /** The composite literal of the handler; an empty string leaves its field unset. */
  function Built(fields: seq<Field>, texts: seq<string>): Q.Values
    requires |texts| == |fields|
  {
    if fields == [] then map[]
    else
      var rest := Built(fields[1..], texts[1..]);
      if texts[0] == "" then rest else rest[fields[0].fieldPath := Q.S(texts[0])]
  }

  lemma {:induction false} BuiltOnly(fields: seq<Field>, texts: seq<string>, name: string)
    requires |texts| == |fields|
    ensures name in Built(fields, texts) ==> name in PathFields(fields)
  {
    if fields != [] {
      BuiltOnly(fields[1..], texts[1..], name);
      assert fields[0] in fields && forall f | f in fields[1..] :: f in fields;
    }
  }

  lemma {:induction false} BuiltAt(fields: seq<Field>, texts: seq<string>, i: nat)
    requires |texts| == |fields| && i < |fields|
    requires forall i, j | 0 <= i < j < |fields| :: fields[i].fieldPath != fields[j].fieldPath
    ensures var m, name := Built(fields, texts), fields[i].fieldPath;
      if texts[i] == "" then name !in m else name in m && m[name] == Q.S(texts[i])
  {
    if i == 0 {
      BuiltOnly(fields[1..], texts[1..], fields[0].fieldPath);
      FirstIsNew(fields);
    } else {
      assert forall k | 0 <= k < |fields| - 1 :: fields[1..][k] == fields[k + 1];
      BuiltAt(fields[1..], texts[1..], i - 1);
    }
  }

  lemma FirstIsNew(fields: seq<Field>)
    requires fields != [] && forall i, j | 0 <= i < j < |fields| :: fields[i].fieldPath != fields[j].fieldPath
    ensures fields[0].fieldPath !in PathFields(fields[1..])
  {
    assert forall k | 0 <= k < |fields| - 1 :: fields[1..][k] == fields[k + 1];
  }

  datatype Received = NotServed | Message(values: Q.Values)

  /** What the method is called with: the literal, completed from the query in some map order. */
  function Receive(descs: seq<Q.FieldDesc>, fields: seq<Field>, answer: Answer, query: Q.Query,
                   order: seq<string>): Received
    requires (answer.Texts? ==> |answer.fields| == |fields|) && forall k | k in order :: k in query
  {
    match answer
    case Lost => NotServed
    case Texts(texts) => Message(Q.ApplyAll(descs, Built(fields, texts), query, order))
  }

  /** The literal holds exactly the path part of the message when the texts are the original ones. */
  lemma {:induction false} BuiltFromOriginals(descs: seq<Q.FieldDesc>, fields: seq<Field>, msg: Q.Values)
    requires PathFieldsDeclared(fields, descs) && Q.GoodMessage(descs, msg)
    ensures Built(fields, Originals(fields, PathMessage(msg))) == Q.Restrict(msg, PathFields(fields))
  {
    var texts := Originals(fields, PathMessage(msg));
    var m, r := Built(fields, texts), Q.Restrict(msg, PathFields(fields));
    forall name
      ensures name in m <==> name in r
      ensures name in m ==> m[name] == r[name]
    {
      BuiltOnly(fields, texts, name);
      if name in PathFields(fields) {
        var i :| 0 <= i < |fields| && fields[i].fieldPath == name;
        BuiltAt(fields, texts, i);
        ReadsAsString(descs, fields[i], fields, msg);
      }
    }
    assert m.Keys == r.Keys;
  }

  lemma ReadsAsString(descs: seq<Q.FieldDesc>, f: Field, fields: seq<Field>, msg: Q.Values)
    requires PathFieldsDeclared(fields, descs) && Q.GoodMessage(descs, msg) && f in fields
    ensures var text := Get(PathMessage(msg), f.fieldPath);
      if f.fieldPath in msg then text != "" && msg[f.fieldPath] == Q.S(text) else text == ""
  {
    var d :| d in descs && d.name == f.fieldPath && d.kind.StringKind?;
    assert f.fieldPath in msg ==> Q.FitsKind(msg[d.name], d.kind) && !Q.IsZero(msg[d.name]);
  }

  /** A path field keeps what the literal gave it: the query never carries it. */
  lemma {:induction false} PathFieldKept(descs: seq<Q.FieldDesc>, fields: seq<Field>, texts: seq<string>, msg: Q.Values,
                                         order: seq<string>, i: nat)
    requires |texts| == |fields| && i < |fields| && PathFieldsDeclared(fields, descs)
    requires Q.GoodMessage(descs, msg) && Q.GoodDescriptors(descs, msg)
    requires Q.IsOrderOf(order, Q.Extract(descs, PathFields(fields), msg))
    ensures var r := Q.ApplyAll(descs, Built(fields, texts), Q.Extract(descs, PathFields(fields), msg), order);
      var name := fields[i].fieldPath;
      if texts[i] == "" then name !in r else name in r && r[name] == Q.S(texts[i])
  {
    var name, query := fields[i].fieldPath, Q.Extract(descs, PathFields(fields), msg);
    BuiltAt(fields, texts, i);
    Q.FirstHitWins(descs, Built(fields, texts), query, order, name);
    assert fields[i] in fields && name in PathFields(fields);
    var h := Q.FirstHit(descs, query, order, name);
    if h.Hit? {
      var k :| k in order && Q.HitsName(descs, query, k, name) && h == Q.HitOf(descs, k, query[k]);
      Q.HitsComeFromFields(descs, PathFields(fields), msg, k, name);
    }
  }

  /** So a message that arrives unchanged has its path fields from the path. */
  lemma {:induction false} TextsAreOriginals(descs: seq<Q.FieldDesc>, fields: seq<Field>, texts: seq<string>,
                                             msg: Q.Values,
                                             order: seq<string>)
    requires |texts| == |fields| && PathFieldsDeclared(fields, descs)
    requires Q.GoodMessage(descs, msg) && Q.GoodDescriptors(descs, msg)
    requires Q.IsOrderOf(order, Q.Extract(descs, PathFields(fields), msg))
    requires Q.ApplyAll(descs, Built(fields, texts), Q.Extract(descs, PathFields(fields), msg), order) == msg
    ensures texts == Originals(fields, PathMessage(msg))
  {
    forall i | 0 <= i < |fields|
      ensures texts[i] == Originals(fields, PathMessage(msg))[i]
    {
      PathFieldKept(descs, fields, texts, msg, order, i);
      ReadsAsString(descs, fields[i], fields, msg);
    }
  }

  lemma {:induction false} ReceivedExactly(descs: seq<Q.FieldDesc>, fields: seq<Field>, texts: seq<string>,
                                           msg: Q.Values,
                                           order: seq<string>)
    requires |texts| == |fields| && PathFieldsDeclared(fields, descs)
    requires Q.GoodMessage(descs, msg) && Q.GoodDescriptors(descs, msg)
    requires Q.IsOrderOf(order, Q.Extract(descs, PathFields(fields), msg))
    ensures Q.ApplyAll(descs, Built(fields, texts), Q.Extract(descs, PathFields(fields), msg), order) == msg
      <==> texts == Originals(fields, PathMessage(msg)) && Q.SurvivesQuery(descs, PathFields(fields), msg)
  {
    BuiltFromOriginals(descs, fields, msg);
    Q.QueryRoundTrip(descs, PathFields(fields), msg, order);
    if Q.ApplyAll(descs, Built(fields, texts), Q.Extract(descs, PathFields(fields), msg), order) == msg {
      TextsAreOriginals(descs, fields, texts, msg, order);
    }
  }

  /** The whole message comes back from path and query, whatever the order of the query's keys,
      exactly when its path fields survive the path, as it goes out, and its other fields the query. */
  lemma {:induction false} GetRoundTrip(pattern: string, st: seq<Token>, descs: seq<Q.FieldDesc>, msg: Q.Values,
                                        order: seq<string>)
    requires Supported(pattern) && PathBytes(pattern) && OctetMessage(PathMessage(msg))
    requires SameRoute(GoParse(pattern).tokens, st)
    requires PathFieldsDeclared(FieldsOf(pattern), descs)
    requires Q.GoodMessage(descs, msg) && Q.GoodDescriptors(descs, msg)
    requires Q.IsOrderOf(order, Q.Extract(descs, PathFields(FieldsOf(pattern)), msg))
    ensures WellFormed(FieldsOf(pattern))
    ensures var answer := AnswerToSent(pattern, st, GoRequest(pattern, PathMessage(msg)));
      answer.Texts? ==> |answer.fields| == |FieldsOf(pattern)|
    ensures var fields, sent := FieldsOf(pattern), PathMessage(msg);
      var answer := AnswerToSent(pattern, st, GoRequest(pattern, sent));
      Receive(descs, fields, answer, Q.Extract(descs, PathFields(fields), msg), order) == Message(msg)
      <==> Deliverable(pattern, sent) && AllReach(Go, fields, sent, Missed(pattern)) && Undisturbed(pattern, sent)
           && Q.SurvivesQuery(descs, PathFields(fields), msg)
  {
    var fields, sent := FieldsOf(pattern), PathMessage(msg);
    var answer := AnswerToSent(pattern, st, GoRequest(pattern, sent));
    AnswerIsPerField(pattern, st, GoRequest(pattern, sent));
    GoRoundTrip(pattern, st, sent);
    if answer.Texts? { ReceivedExactly(descs, fields, answer.fields, msg, order); }
  }

  /** The handler fills one text per field. */
  lemma {:induction false} AnswerIsPerField(pattern: string, st: seq<Token>, sent: Sent)
    requires Supported(pattern) && SameRoute(GoParse(pattern).tokens, st)
    ensures var answer := AnswerToSent(pattern, st, sent); answer.Texts? ==> |answer.fields| == |FieldsOf(pattern)|
  {
    FieldsOfRoute(pattern, st);
  }
}
