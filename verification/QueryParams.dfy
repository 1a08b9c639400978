/** GET and DELETE requests: the Go client puts the fields that are not path variables into the
    query, and applyQueryParams puts them back into the message, in map order. */
module QueryParams {
  import opened Text
  import opened Decimal

  datatype Width = W32 | W64

  /** `plain` tells int32, int64, uint32 and uint64 from the zigzag and fixed-width kinds, which
      only the server knows. */
  datatype Kind =
    | StringKind
    | BoolKind
    | EnumKind
    | SignedKind(width: Width, plain: bool)
    | UnsignedKind(width: Width, plain: bool)

  datatype FieldDesc = FieldDesc(name: string, jsonName: string, kind: Kind)

  datatype Datum = S(text: string) | B(flag: bool) | N(number: int)

  /** The set fields of a message, by name. A field that holds its zero value is not set. */
  type Values = map<string, Datum>

  predicate IsZero(v: Datum) { v == S("") || v == B(false) || v == N(0) }

  function MaxUnsigned(w: Width): int { if w.W32? then 0xFFFF_FFFF else 0xFFFF_FFFF_FFFF_FFFF }
  function MaxSigned(w: Width): int { if w.W32? then 0x7FFF_FFFF else 0x7FFF_FFFF_FFFF_FFFF }

  predicate FitsKind(v: Datum, k: Kind) {
    match k
    case StringKind => v.S?
    case BoolKind => v.B?
    case EnumKind => v.N? && -MaxSigned(W32) - 1 <= v.number <= MaxSigned(W32)
    case SignedKind(w, _) => v.N? && -MaxSigned(w) - 1 <= v.number <= MaxSigned(w)
    case UnsignedKind(w, _) => v.N? && 0 <= v.number <= MaxUnsigned(w)
  }

  // ---- text ----

  datatype Parsed = Invalid | Valid(value: Datum)

  predicate IsNumber(s: string) { s != "" && AllDigits(s) }

  predicate Signed(s: string) { s != "" && (s[0] == '-' || s[0] == '+') }

  /** strconv.ParseInt(s, 10, width) */
  function ParseInt(s: string, w: Width): Parsed {
    var digits := if Signed(s) then s[1..] else s;
    if !IsNumber(digits) then Invalid
    else
      var n := if s[0] == '-' then 0 - Value(digits) else Value(digits);
      if -MaxSigned(w) - 1 <= n <= MaxSigned(w) then Valid(N(n)) else Invalid
  }

  /** strconv.ParseUint(s, 10, width) */
  function ParseUint(s: string, w: Width): Parsed {
    if IsNumber(s) && Value(s) <= MaxUnsigned(w) then Valid(N(Value(s))) else Invalid
  }

  /** What applyQueryParams makes of a text; enums have no case. */
  function ParseValue(s: string, k: Kind): Parsed {
    match k
    case StringKind => Valid(S(s))
    case BoolKind => if s == "true" || s == "false" then Valid(B(s == "true")) else Invalid
    case EnumKind => Invalid
    case SignedKind(w, _) => ParseInt(s, w)
    case UnsignedKind(w, _) => ParseUint(s, w)
  }

  /** fmt.Sprint of an integer. */
  function Sprint(n: int): (s: string)
    ensures s != ""
  {
    if n < 0 then "-" + Print(-n) else Print(n)
  }

  datatype Printed = Silent | Printed(text: string)

  /** What the generated extractor writes for a set field. */
  function PrintValue(v: Datum, k: Kind): Printed
    requires FitsKind(v, k)
  {
    match k
    case StringKind => Printed(v.text)
    case BoolKind => Printed("true")
    case EnumKind => Printed(Sprint(v.number))
    case SignedKind(_, plain) => if plain then Printed(Sprint(v.number)) else Silent
    case UnsignedKind(_, plain) => if plain then Printed(Sprint(v.number)) else Silent
  }

  /** The kinds that both sides handle. */
  predicate IsCarried(k: Kind) {
    match k
    case StringKind => true
    case BoolKind => true
    case EnumKind => false
    case SignedKind(_, plain) => plain
    case UnsignedKind(_, plain) => plain
  }

  /** Printed integers parse back exactly when they are in range. */
  lemma {:induction false} SprintParses(n: int, w: Width)
    ensures ParseInt(Sprint(n), w) == if -MaxSigned(w) - 1 <= n <= MaxSigned(w) then Valid(N(n)) else Invalid
  {
    if n < 0 {
      ValueOfPrint(-n);
      assert Sprint(n)[1..] == Print(-n);
    } else {
      ValueOfPrint(n);
      DigitsAreUnsigned(Print(n));
    }
  }

  lemma {:induction false} SprintParsesUnsigned(n: int, w: Width)
    ensures ParseUint(Sprint(n), w) == if 0 <= n <= MaxUnsigned(w) then Valid(N(n)) else Invalid
  {
    if n < 0 {
      assert Sprint(n)[0] == '-' && Sprint(n)[0] in Sprint(n);
    } else {
      ValueOfPrint(n);
    }
  }

  lemma DigitsAreUnsigned(s: string)
    requires IsNumber(s)
    ensures !Signed(s) && s[0] != '-'
  {
    assert s[0] in s;
  }

  /** A set value comes back from its text exactly when its kind is carried. */
  lemma {:induction false} ValueComesBack(v: Datum, k: Kind)
    requires FitsKind(v, k) && !IsZero(v)
    ensures PrintValue(v, k).Printed? && ParseValue(PrintValue(v, k).text, k) == Valid(v) <==> IsCarried(k)
    ensures PrintValue(v, k).Printed? ==> PrintValue(v, k).text != ""
    ensures !IsCarried(k) && PrintValue(v, k).Printed? ==> ParseValue(PrintValue(v, k).text, k) == Invalid
  {
    match k
    case SignedKind(w, _) => SprintParses(v.number, w);
    case UnsignedKind(w, _) => SprintParsesUnsigned(v.number, w);
    case _ =>
  }

  // ---- descriptors ----

  /** fields.ByJSONName: the first field with that JSON name, or |fields|. */
  function ByJSONName(fields: seq<FieldDesc>, key: string): (i: nat)
    ensures i <= |fields| && (i < |fields| ==> fields[i].jsonName == key)
    ensures forall j | 0 <= j < i :: fields[j].jsonName != key
  {
    if fields == [] || fields[0].jsonName == key then 0
    else
      var i := ByJSONName(fields[1..], key) + 1;
      assert forall j | 1 <= j < |fields| :: fields[j] == fields[1..][j - 1];
      i
  }

  function ByName(fields: seq<FieldDesc>, key: string): (i: nat)
    ensures i <= |fields| && (i < |fields| ==> fields[i].name == key)
    ensures forall j | 0 <= j < i :: fields[j].name != key
  {
    if fields == [] || fields[0].name == key then 0
    else
      var i := ByName(fields[1..], key) + 1;
      assert forall j | 1 <= j < |fields| :: fields[j] == fields[1..][j - 1];
      i
  }

  /** A JSON name wins over a field name; |fields| when there is neither. */
  function FindField(fields: seq<FieldDesc>, key: string): (i: nat)
    ensures i <= |fields|
    ensures i == |fields| <==> forall f | f in fields :: f.jsonName != key && f.name != key
    ensures i < |fields| && fields[i].jsonName != key ==>
      fields[i].name == key && forall f | f in fields :: f.jsonName != key
  {
    var i := ByJSONName(fields, key);
    var k := if i < |fields| then i else ByName(fields, key);
    assert k < |fields| ==> fields[k] in fields;
    k
  }

  // ---- the server ----

  type Query = map<string, seq<string>>

  /** What one key does to an unset field: nothing, or set it to a value that is not zero. */
  datatype Hit = Miss | Hit(name: string, value: Datum)

  function HitOf(fields: seq<FieldDesc>, key: string, texts: seq<string>): Hit {
    var i := FindField(fields, key);
    if |texts| != 1 || i == |fields| then Miss
    else
      match ParseValue(texts[0], fields[i].kind)
      case Invalid => Miss
      case Valid(v) => if IsZero(v) then Miss else Hit(fields[i].name, v)
  }

  function Apply(m: Values, h: Hit): Values {
    if h.Hit? && h.name !in m then m[h.name := h.value] else m
  }

  predicate IsOrderOf(order: seq<string>, query: Query) {
    Distinct(order) && (forall k | k in order :: k in query) && forall k | k in query :: k in order
  }

  function ApplyAll(fields: seq<FieldDesc>, m: Values, query: Query, order: seq<string>): Values
    requires forall k | k in order :: k in query
    decreases |order|
  {
    if order == [] then m
    else
      var n := |order| - 1;
      Apply(ApplyAll(fields, m, query, order[..n]), HitOf(fields, order[n], query[order[n]]))
  }

  /** A message under construction. */
  class Message {
    var values: Values

    constructor (values: Values)
      ensures this.values == values
    {
      this.values := values;
    }

    predicate Has(field: FieldDesc)
      reads this
    {
      field.name in values
    }

    method Set(field: FieldDesc, v: Datum)
      requires !Has(field)
      modifies this
      ensures values == Apply(old(values), if IsZero(v) then Miss else Hit(field.name, v))
    {
      if !IsZero(v) { values := values[field.name := v]; }
    }
  }

  lemma RemoveKey(query: Query, done: seq<string>, left: set<string>, key: string)
    requires key in left && Distinct(done) && forall k :: k in query <==> k in done || k in left
    requires forall k | k in done :: k !in left
    ensures Distinct(done + [key])
    ensures forall k :: k in query <==> k in done + [key] || k in left - {key}
    ensures forall k | k in done + [key] :: k !in left - {key}
  {
    forall i, j | 0 <= i < j < |done + [key]|
      ensures (done + [key])[i] != (done + [key])[j]
    {
      assert done[i] in done;
    }
  }

  /** One round of applyQueryParams. */
  method ApplyKey(msg: Message, fields: seq<FieldDesc>, key: string, texts: seq<string>)
    modifies msg
    ensures msg.values == Apply(old(msg.values), HitOf(fields, key, texts))
  {
    if |texts| != 1 { return; }
    var i := ByJSONName(fields, key);
    if i == |fields| { i := ByName(fields, key); }
    if i == |fields| { return; }
    var field := fields[i];
    if msg.Has(field) { return; }
    match ParseValue(texts[0], field.kind)
    case Valid(v) => msg.Set(field, v);
    case Invalid =>
  }

  /** applyQueryParams: the keys come in an order the runtime chooses, `order`. */
  method ApplyQueryParams(msg: Message, fields: seq<FieldDesc>, query: Query) returns (ghost order: seq<string>)
    modifies msg
    ensures IsOrderOf(order, query)
    ensures msg.values == ApplyAll(fields, old(msg.values), query, order)
  {
    var left := query.Keys;
    order := [];
    while left != {}
      invariant left <= query.Keys && Distinct(order)
      invariant forall k :: k in query <==> k in order || k in left
      invariant forall k | k in order :: k !in left
      invariant msg.values == ApplyAll(fields, old(msg.values), query, order)
      decreases |left|
    {
      var key :| key in left;
      RemoveKey(query, order, left, key);
      ApplyKey(msg, fields, key, query[key]);
      assert (order + [key])[..|order|] == order;
      left, order := left - {key}, order + [key];
    }
  }

  // ---- the order of the keys ----

  predicate HitsName(fields: seq<FieldDesc>, query: Query, key: string, name: string)
    requires key in query
  {
    var h := HitOf(fields, key, query[key]);
    h.Hit? && h.name == name
  }

  /** The first key that sets the field. */
  function FirstHit(fields: seq<FieldDesc>, query: Query, order: seq<string>, name: string): (h: Hit)
    requires forall k | k in order :: k in query
    ensures h.Hit? ==> exists k :: k in order && HitsName(fields, query, k, name) && h == HitOf(fields, k, query[k])
    ensures h.Miss? ==> forall k | k in order :: !HitsName(fields, query, k, name)
    decreases |order|
  {
    if order == [] then Miss
    else
      var n := |order| - 1;
      assert order == order[..n] + [order[n]];
      var h := FirstHit(fields, query, order[..n], name);
      if h.Hit? then h
      else if HitsName(fields, query, order[n], name) then HitOf(fields, order[n], query[order[n]])
      else Miss
  }

  /** A field that was already set, from the path, keeps its value; any other gets the first key's. */
  lemma {:induction false} FirstHitWins(fields: seq<FieldDesc>, m: Values, query: Query, order: seq<string>,
                                        name: string)
    requires forall k | k in order :: k in query
    ensures var r, h := ApplyAll(fields, m, query, order), FirstHit(fields, query, order, name);
      && (name in m ==> name in r && r[name] == m[name])
      && (name !in m ==> (name in r <==> h.Hit?) && (h.Hit? ==> r[name] == h.value))
    decreases |order|
  {
    if order != [] { FirstHitWins(fields, m, query, order[..|order| - 1], name); }
  }

  /** No two keys set the same unset field to different values. */
  ghost predicate Unambiguous(fields: seq<FieldDesc>, m: Values, query: Query) {
    forall k, l, name | k in query && l in query && HitsName(fields, query, k, name)
        && HitsName(fields, query, l, name) ::
      name in m || HitOf(fields, k, query[k]) == HitOf(fields, l, query[l])
  }

  ghost predicate OrderDoesNotMatter(fields: seq<FieldDesc>, m: Values, query: Query) {
    forall a, b | IsOrderOf(a, query) && IsOrderOf(b, query) ::
        ApplyAll(fields, m, query, a) == ApplyAll(fields, m, query, b)
  }

  lemma {:induction false} SameFirstHit(fields: seq<FieldDesc>, m: Values, query: Query, a: seq<string>,
                                        b: seq<string>, name: string)
    requires Unambiguous(fields, m, query) && IsOrderOf(a, query) && IsOrderOf(b, query) && name !in m
    ensures FirstHit(fields, query, a, name) == FirstHit(fields, query, b, name)
  {
    var g, h := FirstHit(fields, query, a, name), FirstHit(fields, query, b, name);
    if g.Hit? {
      var k :| k in a && HitsName(fields, query, k, name) && g == HitOf(fields, k, query[k]);
      assert k in b;
    }
    if h.Hit? {
      var l :| l in b && HitsName(fields, query, l, name) && h == HitOf(fields, l, query[l]);
      assert l in a;
    }
  }

  lemma {:induction false} SameOutcome(fields: seq<FieldDesc>, m: Values, query: Query, a: seq<string>, b: seq<string>)
    requires Unambiguous(fields, m, query) && IsOrderOf(a, query) && IsOrderOf(b, query)
    ensures ApplyAll(fields, m, query, a) == ApplyAll(fields, m, query, b)
  {
    var x, y := ApplyAll(fields, m, query, a), ApplyAll(fields, m, query, b);
    forall name
      ensures name in x <==> name in y
      ensures name in x ==> x[name] == y[name]
    {
      FirstHitWins(fields, m, query, a, name);
      FirstHitWins(fields, m, query, b, name);
      if name !in m { SameFirstHit(fields, m, query, a, b, name); }
    }
    assert x.Keys == y.Keys;
  }

  lemma ListSet(s: set<string>) returns (list: seq<string>)
    ensures Distinct(list) && forall x :: x in list <==> x in s
    decreases |s|
  {
    if s == {} {
      list := [];
    } else {
      var x :| x in s;
      var rest := ListSet(s - {x});
      list := [x] + rest;
      assert Distinct(list);
    }
  }

  /** Any key may come first. */
  lemma OrderStartingWith(query: Query, key: string) returns (order: seq<string>)
    requires key in query
    ensures IsOrderOf(order, query) && order != [] && order[0] == key
  {
    var rest := ListSet(query.Keys - {key});
    order := [key] + rest;
  }

  lemma {:induction false} FirstKeyHits(fields: seq<FieldDesc>, query: Query, order: seq<string>, name: string)
    requires order != [] && (forall k | k in order :: k in query) && HitsName(fields, query, order[0], name)
    ensures FirstHit(fields, query, order, name) == HitOf(fields, order[0], query[order[0]])
    decreases |order|
  {
    var n := |order| - 1;
    if n > 0 { FirstKeyHits(fields, query, order[..n], name); } else { assert order[..0] == []; }
  }

  lemma {:induction false} AmbiguousDependsOnOrder(fields: seq<FieldDesc>, m: Values, query: Query, k: string,
                                                   l: string, name: string)
    requires k in query && l in query && HitsName(fields, query, k, name) && HitsName(fields, query, l, name)
    requires name !in m && HitOf(fields, k, query[k]) != HitOf(fields, l, query[l])
    ensures !OrderDoesNotMatter(fields, m, query)
  {
    var a := OrderStartingWith(query, k);
    var b := OrderStartingWith(query, l);
    FirstKeyHits(fields, query, a, name);
    FirstKeyHits(fields, query, b, name);
    FirstHitWins(fields, m, query, a, name);
    FirstHitWins(fields, m, query, b, name);
    assert ApplyAll(fields, m, query, a) != ApplyAll(fields, m, query, b);
  }

  /** The result is the same for every map order exactly when no two keys disagree about a field
      that the path has left unset. */
  lemma {:induction false} OrderDoesNotMatterExactly(fields: seq<FieldDesc>, m: Values, query: Query)
    ensures OrderDoesNotMatter(fields, m, query) <==> Unambiguous(fields, m, query)
  {
    if Unambiguous(fields, m, query) {
      forall a, b | IsOrderOf(a, query) && IsOrderOf(b, query)
        ensures ApplyAll(fields, m, query, a) == ApplyAll(fields, m, query, b)
      {
        SameOutcome(fields, m, query, a, b);
      }
    } else {
      var k, l, name :| k in query && l in query && HitsName(fields, query, k, name) && HitsName(fields, query, l, name)
                        && name !in m && HitOf(fields, k, query[k]) != HitOf(fields, l, query[l]);
      AmbiguousDependsOnOrder(fields, m, query, k, l, name);
    }
  }

  // ---- the client ----

  predicate GoodMessage(fields: seq<FieldDesc>, msg: Values) {
    forall f | f in fields && f.name in msg :: FitsKind(msg[f.name], f.kind) && !IsZero(msg[f.name])
  }

  predicate Sends(f: FieldDesc, pathVars: set<string>, msg: Values)
    requires f.name in msg ==> FitsKind(msg[f.name], f.kind)
  {
    f.name !in pathVars && f.name in msg && PrintValue(msg[f.name], f.kind).Printed?
  }

  /** What the generated query extractor returns, as the parameters of the URL. */
  function Extract(fields: seq<FieldDesc>, pathVars: set<string>, msg: Values): Query
    requires GoodMessage(fields, msg)
    decreases |fields|
  {
    if fields == [] then map[]
    else
      var n := |fields| - 1;
      assert fields == fields[..n] + [fields[n]];
      var rest := Extract(fields[..n], pathVars, msg);
      var f := fields[n];
      if Sends(f, pathVars, msg) then rest[f.jsonName := [PrintValue(msg[f.name], f.kind).text]] else rest
  }

  method ExtractQuery(fields: seq<FieldDesc>, pathVars: set<string>, msg: Values) returns (query: Query)
    requires GoodMessage(fields, msg)
    ensures query == Extract(fields, pathVars, msg)
  {
    query := map[];
    var i := 0;
    while i < |fields|
      invariant 0 <= i <= |fields| && query == Extract(fields[..i], pathVars, msg)
    {
      var f := fields[i];
      assert f in fields && fields[..i + 1][..i] == fields[..i];
      if f.name !in pathVars && f.name in msg {
        match PrintValue(msg[f.name], f.kind)
        case Printed(text) => query := query[f.jsonName := [text]];
        case Silent =>
      }
      i := i + 1;
    }
    assert fields[..i] == fields;
  }

  /** Field names and JSON names are unique in a message, and a message only has declared fields. */
  predicate GoodDescriptors(fields: seq<FieldDesc>, msg: Values) {
    && (forall i, j | 0 <= i < j < |fields| ::
      fields[i].name != fields[j].name && fields[i].jsonName != fields[j].jsonName)
    && (forall name | name in msg :: exists f :: f in fields && f.name == name)
  }

  predicate DistinctKeys(fields: seq<FieldDesc>) {
    forall i, j | 0 <= i < j < |fields| :: fields[i].jsonName != fields[j].jsonName
  }

  lemma {:induction false} SentKey(fields: seq<FieldDesc>, pathVars: set<string>, msg: Values, f: FieldDesc)
    requires GoodMessage(fields, msg) && DistinctKeys(fields) && f in fields && Sends(f, pathVars, msg)
    ensures var query := Extract(fields, pathVars, msg);
      f.jsonName in query && query[f.jsonName] == [PrintValue(msg[f.name], f.kind).text]
    decreases |fields|
  {
    var n := |fields| - 1;
    var i :| 0 <= i < |fields| && fields[i] == f;
    if i < n {
      assert fields[..n][i] == f;
      SentKey(fields[..n], pathVars, msg, f);
      assert f.jsonName != fields[n].jsonName;
    }
  }

  predicate SentUnder(fields: seq<FieldDesc>, pathVars: set<string>, msg: Values, key: string, i: nat)
    requires GoodMessage(fields, msg)
  {
    i < |fields| && fields[i].jsonName == key && (assert fields[i] in fields; Sends(fields[i], pathVars, msg))
  }

  lemma {:induction false} KeySender(fields: seq<FieldDesc>, pathVars: set<string>, msg: Values, key: string)
    returns (i: nat)
    requires GoodMessage(fields, msg) && key in Extract(fields, pathVars, msg)
    ensures SentUnder(fields, pathVars, msg, key, i)
    decreases |fields|
  {
    var n := |fields| - 1;
    assert fields[n] in fields;
    if Sends(fields[n], pathVars, msg) && fields[n].jsonName == key {
      i := n;
    } else {
      i := KeySender(fields[..n], pathVars, msg, key);
      assert fields[..n][i] == fields[i];
    }
  }

  lemma FieldOfKey(fields: seq<FieldDesc>, f: FieldDesc)
    requires f in fields && forall i, j | 0 <= i < j < |fields| :: fields[i].jsonName != fields[j].jsonName
    ensures FindField(fields, f.jsonName) < |fields| && fields[FindField(fields, f.jsonName)] == f
  {
    var i :| 0 <= i < |fields| && fields[i] == f;
    var j := ByJSONName(fields, f.jsonName);
  }

  /** The key of a sent field sets that field to its value, or, for a kind the server does not
      know, nothing. */
  lemma {:induction false} SentFieldHits(fields: seq<FieldDesc>, pathVars: set<string>, msg: Values, f: FieldDesc)
    requires GoodMessage(fields, msg) && GoodDescriptors(fields, msg) && f in fields && Sends(f, pathVars, msg)
    ensures var query := Extract(fields, pathVars, msg);
      && f.jsonName in query
      && HitOf(fields, f.jsonName, query[f.jsonName]) == if IsCarried(f.kind) then Hit(f.name, msg[f.name]) else Miss
  {
    SentKey(fields, pathVars, msg, f);
    FieldOfKey(fields, f);
    ValueComesBack(msg[f.name], f.kind);
  }

  function Restrict(m: Values, names: set<string>): Values { map n | n in m && n in names :: m[n] }

  predicate SurvivesQuery(fields: seq<FieldDesc>, pathVars: set<string>, msg: Values) {
    forall f | f in fields && f.name in msg && f.name !in pathVars :: IsCarried(f.kind)
  }

  lemma {:induction false} HitsComeFromFields(fields: seq<FieldDesc>, pathVars: set<string>, msg: Values, key: string,
                                              name: string)
    requires GoodMessage(fields, msg) && GoodDescriptors(fields, msg)
    requires key in Extract(fields, pathVars, msg) && HitsName(fields, Extract(fields, pathVars, msg), key, name)
    ensures name in msg && name !in pathVars
    ensures HitOf(fields, key, Extract(fields, pathVars, msg)[key]) == Hit(name, msg[name])
    ensures exists f :: f in fields && f.name == name && f.jsonName == key && IsCarried(f.kind)
  {
    var i := KeySender(fields, pathVars, msg, key);
    var f := fields[i];
    SentFieldHits(fields, pathVars, msg, f);
  }

  /** One field after the trip. */
  lemma {:induction false} FieldAfterQuery(fields: seq<FieldDesc>, pathVars: set<string>, msg: Values,
                                           order: seq<string>, f: FieldDesc)
    requires GoodMessage(fields, msg) && GoodDescriptors(fields, msg) && f in fields
    requires IsOrderOf(order, Extract(fields, pathVars, msg))
    ensures var r := ApplyAll(fields, Restrict(msg, pathVars), Extract(fields, pathVars, msg), order);
      && (f.name in r ==> f.name in msg && r[f.name] == msg[f.name])
      && (f.name in msg ==> (f.name in r <==> f.name in pathVars || IsCarried(f.kind)))
  {
    var query, base := Extract(fields, pathVars, msg), Restrict(msg, pathVars);
    FirstHitWins(fields, base, query, order, f.name);
    var h := FirstHit(fields, query, order, f.name);
    if h.Hit? {
      var k :| k in order && HitsName(fields, query, k, f.name) && h == HitOf(fields, k, query[k]);
      HitsComeFromFields(fields, pathVars, msg, k, f.name);
      var g :| g in fields && g.name == f.name && g.jsonName == k && IsCarried(g.kind);
      OneFieldPerName(fields, msg, f, g);
    }
    if f.name in msg && f.name !in pathVars && IsCarried(f.kind) {
      ValueComesBack(msg[f.name], f.kind);
      SentFieldHits(fields, pathVars, msg, f);
      assert HitsName(fields, query, f.jsonName, f.name);
    }
  }

  lemma OneFieldPerName(fields: seq<FieldDesc>, msg: Values, f: FieldDesc, g: FieldDesc)
    requires GoodDescriptors(fields, msg) && f in fields && g in fields && f.name == g.name
    ensures f == g
  {
  }

  lemma {:induction false} OnlyDeclared(fields: seq<FieldDesc>, pathVars: set<string>, msg: Values,
                                        order: seq<string>, name: string)
    requires GoodMessage(fields, msg) && GoodDescriptors(fields, msg)
    requires IsOrderOf(order, Extract(fields, pathVars, msg))
    ensures name in ApplyAll(fields, Restrict(msg, pathVars), Extract(fields, pathVars, msg), order) ==> name in msg
  {
    var query, base := Extract(fields, pathVars, msg), Restrict(msg, pathVars);
    FirstHitWins(fields, base, query, order, name);
    var h := FirstHit(fields, query, order, name);
    if h.Hit? {
      var k :| k in order && HitsName(fields, query, k, name) && h == HitOf(fields, k, query[k]);
      HitsComeFromFields(fields, pathVars, msg, k, name);
    }
  }

  /** Splitting a message into path variables and query and putting it together again gives the
      message back, for every map order, exactly when each set field outside the path is a string,
      a bool or one of the four plain integers: enums, in particular, are lost. */
  lemma {:induction false} QueryRoundTrip(fields: seq<FieldDesc>, pathVars: set<string>, msg: Values,
                                          order: seq<string>)
    requires GoodMessage(fields, msg) && GoodDescriptors(fields, msg)
    requires IsOrderOf(order, Extract(fields, pathVars, msg))
    ensures ApplyAll(fields, Restrict(msg, pathVars), Extract(fields, pathVars, msg), order) == msg
      <==> SurvivesQuery(fields, pathVars, msg)
  {
    var r := ApplyAll(fields, Restrict(msg, pathVars), Extract(fields, pathVars, msg), order);
    forall f | f in fields
      ensures (f.name in r ==> f.name in msg && r[f.name] == msg[f.name])
      ensures (f.name in msg ==> (f.name in r <==> f.name in pathVars || IsCarried(f.kind)))
    {
      FieldAfterQuery(fields, pathVars, msg, order, f);
    }
    forall name
      ensures name in r ==> name in msg
    {
      OnlyDeclared(fields, pathVars, msg, order, name);
    }
    if SurvivesQuery(fields, pathVars, msg) {
      forall name | name in msg
        ensures name in r && r[name] == msg[name]
      {
        var f :| f in fields && f.name == name;
      }
      assert r.Keys == msg.Keys;
    }
  }
}
