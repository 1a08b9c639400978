/** The promise of the plugins: a resource name survives the trip through the URL. For each of the
    three clients, the exact condition under which the server gets back the fields that were sent. */
module EndToEnd {
  import opened Text
  import opened Escape
  import opened Template
  import opened Patterns
  import opened Wildcards
  import opened Fields
  import opened Clients
  import opened RoundTrip
  import opened Agreement

  datatype Client = Go | Python | TypeScript

  predicate OctetMessage(msg: Message) { forall k | k in msg :: Octets(msg[k]) }

  function Originals(fields: seq<Field>, msg: Message): (r: seq<string>)
    ensures |r| == |fields| && forall i | 0 <= i < |fields| :: r[i] == Get(msg, fields[i].fieldPath)
  {
    if fields == [] then [] else [Get(msg, fields[0].fieldPath)] + Originals(fields[1..], msg)
  }

  /** Every field starts with its pattern's prefix and has the separators in order. */
  predicate FieldsFit(fields: seq<Field>, msg: Message) {
    forall f | f in fields :: Fits(Get(msg, f.fieldPath), f.prefix, f.seps)
  }

  /** Names have no slash, and the separators between wildcards begin with one. */
  predicate Segmented(f: Field) {
    |f.names| == |f.seps| + 1 && SlashSeps(f.seps) && forall n | n in f.names :: '/' !in n
  }

  predicate AllSegmented(fields: seq<Field>) { forall f | f in fields :: Segmented(f) }

  /** What the client must get right about one field: a missed placeholder stays in the path, so the
      value it stands for must be that very text; the Go client cannot split three wildcards. */
  predicate Reaches(client: Client, f: Field, msg: Message, missed: set<string>)
    requires |f.names| == |f.seps| + 1
  {
    forall k | 0 <= k < |f.names| ::
      if f.names[k] in missed then FieldValues(f, msg)[k] == "{" + f.names[k] + "}"
      else client.Go? ==> |f.names| <= 2
  }

  predicate AllReach(client: Client, fields: seq<Field>, msg: Message, missed: set<string>)
    requires WellFormed(fields)
  {
    forall i | 0 <= i < |fields| :: Reaches(client, fields[i], msg, missed)
  }

  function Repeat(value: string, n: nat): (r: seq<string>)
    ensures |r| == n && forall i | 0 <= i < n :: r[i] == value
  {
    if n == 0 then [] else [value] + Repeat(value, n - 1)
  }

  function RawsOf(client: Client, vars: seq<PathVar>, msg: Message): (r: seq<string>)
    ensures |r| == |vars|
  {
    match client
    case Go => GoRaws(vars, msg)
    case Python => PyRaws(ForgetAll(vars), msg)
    case TypeScript => TsRaws(ForgetAll(vars), msg)
  }

  /** The values the client sends for one field. */
  function ClientValues(client: Client, f: Field, msg: Message): (r: seq<string>)
    ensures |r| == |f.seps| + 1
  {
    var value := Get(msg, f.fieldPath);
    if client.Go? && |f.seps| > 1 then Repeat(value, |f.seps| + 1)
    else if client.TypeScript? && f.seps == [] then [ReplaceFirst(value, f.prefix, "")]
    else FieldValues(f, msg)
  }

  function AllClientValues(client: Client, fields: seq<Field>, msg: Message): seq<string> {
    if fields == [] then [] else ClientValues(client, fields[0], msg) + AllClientValues(client, fields[1..], msg)
  }

  // ---- the values are octets ----

  lemma OctetCut(s: string, sep: string)
    requires Octets(s)
    ensures Octets(CutAt(s, sep).before) && Octets(CutAt(s, sep).after)
  {
  }

  lemma OctetPiece(rest: string, seps: seq<string>, idx: nat)
    requires Octets(rest)
    ensures Octets(Piece(rest, seps, idx))
  {
    PartIsOctets(Piece(rest, seps, idx), rest);
  }

  lemma PartIsOctets(part: string, s: string)
    requires Octets(s) && forall c | c in part :: c in s
    ensures Octets(part)
  {
    forall i | 0 <= i < |part|
      ensures part[i] < 256 as char
    {
      assert part[i] in part;
    }
  }

  lemma {:induction false} OctetDeletion(s: string, sub: string)
    requires Octets(s)
    ensures Octets(ReplaceFirst(s, sub, ""))
  {
    if !(sub <= s) && s != "" { OctetDeletion(s[1..], sub); }
  }

  lemma OctetGet(msg: Message, fieldPath: string)
    requires OctetMessage(msg)
    ensures Octets(Get(msg, fieldPath))
  {
  }

  lemma OctetTrim(s: string, prefix: string)
    requires Octets(s)
    ensures Octets(TrimPrefix(s, prefix))
  {
  }

  lemma OctetGoRaw(v: PathVar, msg: Message)
    requires OctetMessage(msg)
    ensures Octets(TrimPrefix(GoExtract(v, msg), v.prefix))
  {
    match v.multi
    case None => OctetGet(msg, v.fieldPath);
    case Some(m) =>
      OctetGet(msg, m.fieldPath);
      OctetTrim(Get(msg, m.fieldPath), m.prefix);
      if |m.seps| == 1 { OctetCut(TrimPrefix(Get(msg, m.fieldPath), m.prefix), m.seps[0]); }
    OctetTrim(GoExtract(v, msg), v.prefix);
  }

  lemma OctetSharedRaw(v: SharedVar, msg: Message)
    requires OctetMessage(msg)
    ensures Octets(TrimPrefix(PyExtract(v, msg), v.prefix))
    ensures Octets(TsRaw(v, msg))
  {
    OctetGet(msg, v.fieldPath);
    match v.multi
    case None => OctetDeletion(Get(msg, v.fieldPath), v.prefix);
    case Some(m) =>
      OctetTrim(Get(msg, v.fieldPath), m.prefix);
      OctetPiece(TrimPrefix(Get(msg, v.fieldPath), m.prefix), m.seps, m.idx);
    OctetTrim(PyExtract(v, msg), v.prefix);
  }

  lemma {:induction false} OctetRaws(client: Client, vars: seq<PathVar>, msg: Message)
    requires OctetMessage(msg)
    ensures OctetValues(RawsOf(client, vars, msg))
  {
    var raws := RawsOf(client, vars, msg);
    forall r | r in raws
      ensures Octets(r)
    {
      var i :| 0 <= i < |raws| && raws[i] == r;
      OctetGoRaw(vars[i], msg);
      OctetSharedRaw(Forget(vars[i]), msg);
    }
  }

  // ---- from variables to fields ----

  lemma TrimNothing(s: string)
    ensures TrimPrefix(s, "") == s
  {
  }

  function RawOne(client: Client, v: PathVar, msg: Message): string {
    match client
    case Go => GoRaw(v, msg)
    case Python => PyRaw(Forget(v), msg)
    case TypeScript => TsRaw(Forget(v), msg)
  }

  lemma RawAtIndex(client: Client, vars: seq<PathVar>, k: nat, msg: Message)
    requires k < |vars|
    ensures RawsOf(client, vars, msg)[k] == RawOne(client, vars[k], msg)
  {
    assert ForgetAll(vars)[k] == Forget(vars[k]);
  }

  /** What a client sends for wildcard k of a field with several. */
  function WildcardValue(client: Client, f: Field, k: nat, msg: Message): string {
    if client.Go? && |f.seps| > 1 then Get(msg, f.fieldPath) else SplitN(Get(msg, f.fieldPath), f.prefix, f.seps, k)
  }

  lemma ClientValueAt(client: Client, f: Field, k: nat, msg: Message)
    requires f.seps != [] && k <= |f.seps|
    ensures ClientValues(client, f, msg)[k] == WildcardValue(client, f, k, msg)
  {
  }

  lemma SingleVar(client: Client, v: PathVar, f: Field, k: nat, msg: Message)
    requires |f.names| == |f.seps| + 1 && IsVarOf(v, f, k) && f.seps == []
    ensures RawOne(client, v, msg) == ClientValues(client, f, msg)[k]
  {
  }

  lemma GoWildcard(v: PathVar, f: Field, k: nat, msg: Message)
    requires |f.names| == |f.seps| + 1 && IsVarOf(v, f, k) && f.seps != []
    ensures GoRaw(v, msg) == WildcardValue(Go, f, k, msg)
  {
    TrimNothing(GoExtract(v, msg));
    if |f.seps| == 1 {
      assert f.seps == [f.seps[0]];
      GoAgrees(Get(msg, f.fieldPath), f.prefix, f.seps[0], k);
    }
  }

  lemma SharedWildcard(v: PathVar, f: Field, k: nat, msg: Message)
    requires |f.names| == |f.seps| + 1 && IsVarOf(v, f, k) && f.seps != []
    ensures PyRaw(Forget(v), msg) == TsRaw(Forget(v), msg) == WildcardValue(Python, f, k, msg)
  {
    TrimNothing(PyExtract(Forget(v), msg));
  }

  lemma RawOfVar(client: Client, v: PathVar, f: Field, k: nat, msg: Message)
    requires |f.names| == |f.seps| + 1 && IsVarOf(v, f, k)
    ensures RawOne(client, v, msg) == ClientValues(client, f, msg)[k]
  {
    if f.seps == [] {
      SingleVar(client, v, f, k, msg);
    } else {
      GoWildcard(v, f, k, msg);
      SharedWildcard(v, f, k, msg);
      ClientValueAt(client, f, k, msg);
    }
  }

  lemma {:induction false} RawsConcat(client: Client, a: seq<PathVar>, b: seq<PathVar>, msg: Message)
    ensures RawsOf(client, a + b, msg) == RawsOf(client, a, msg) + RawsOf(client, b, msg)
  {
    ForgetConcat(a, b);
    match client
    case Go => GoRawsConcat(a, b, msg);
    case Python => PyRawsConcat(ForgetAll(a), ForgetAll(b), msg);
    case TypeScript => TsRawsConcat(ForgetAll(a), ForgetAll(b), msg);
  }

  /** Applying a function element by element respects concatenation. */
  lemma MapConcat<A, B>(f: A -> B, a: seq<A>, b: seq<A>, x: seq<B>, y: seq<B>, both: seq<B>)
    requires |x| == |a| && |y| == |b| && |both| == |a| + |b|
    requires forall i | 0 <= i < |a| :: x[i] == f(a[i])
    requires forall i | 0 <= i < |b| :: y[i] == f(b[i])
    requires forall i | 0 <= i < |a| + |b| :: both[i] == f((a + b)[i])
    ensures both == x + y
  {
    forall i | 0 <= i < |both|
      ensures both[i] == (x + y)[i]
    {
    }
  }

  lemma {:induction false} GoRawsConcat(a: seq<PathVar>, b: seq<PathVar>, msg: Message)
    ensures GoRaws(a + b, msg) == GoRaws(a, msg) + GoRaws(b, msg)
  {
    MapConcat(v => GoRaw(v, msg), a, b, GoRaws(a, msg), GoRaws(b, msg), GoRaws(a + b, msg));
  }

  lemma {:induction false} PyRawsConcat(a: seq<SharedVar>, b: seq<SharedVar>, msg: Message)
    ensures PyRaws(a + b, msg) == PyRaws(a, msg) + PyRaws(b, msg)
  {
    MapConcat(v => PyRaw(v, msg), a, b, PyRaws(a, msg), PyRaws(b, msg), PyRaws(a + b, msg));
  }

  lemma {:induction false} TsRawsConcat(a: seq<SharedVar>, b: seq<SharedVar>, msg: Message)
    ensures TsRaws(a + b, msg) == TsRaws(a, msg) + TsRaws(b, msg)
  {
    MapConcat(v => TsRaw(v, msg), a, b, TsRaws(a, msg), TsRaws(b, msg), TsRaws(a + b, msg));
  }

  lemma {:induction false} RawsOfBlock(client: Client, block: seq<PathVar>, f: Field, msg: Message)
    requires |block| == |f.names| == |f.seps| + 1
    requires forall k | 0 <= k < |block| :: IsVarOf(block[k], f, k)
    ensures RawsOf(client, block, msg) == ClientValues(client, f, msg)
  {
    forall k | 0 <= k < |block|
      ensures RawsOf(client, block, msg)[k] == ClientValues(client, f, msg)[k]
    {
      RawAtIndex(client, block, k, msg);
      RawOfVar(client, block[k], f, k, msg);
    }
  }

  lemma {:induction false} RawsByField(client: Client, vars: seq<PathVar>, fields: seq<Field>, msg: Message)
    requires Aligned(vars, fields) && WellFormed(fields)
    ensures RawsOf(client, vars, msg) == AllClientValues(client, fields, msg)
    decreases |fields|
  {
    if fields == [] {
      assert vars == [];
    } else {
      var n := |fields[0].names|;
      TailIsWellFormed(fields);
      AlignedHead(vars, fields);
      RawsByField(client, vars[n..], fields[1..], msg);
      RawsOfBlock(client, vars[..n], fields[0], msg);
      RawsConcat(client, vars[..n], vars[n..], msg);
    }
  }

  // ---- from values back to fields ----

  lemma {:induction false} LongerThanEach(values: seq<string>, seps: seq<string>, k: nat)
    requires |values| == |seps| + 1 && seps != [] && SlashSeps(seps) && k < |values|
    ensures |Interleave(values, seps)| > |values[k]|
  {
    if |seps| == 1 {
      assert Interleave(values[1..], seps[1..]) == values[1];
    } else if k > 0 {
      LongerThanEach(values[1..], seps[1..], k - 1);
    }
  }

  /** A separator that begins with a slash is found right after slash-free text. */
  lemma {:induction false} CutAfterName(head: string, sep: string, tail: string)
    requires '/' !in head && sep != "" && sep[0] == '/'
    ensures CutAt(head + sep + tail, sep) == Cut(head, tail, true)
  {
    var s := head + sep + tail;
    IndexAfterName(head, sep, tail);
    assert s[..|head|] == head && s[|head| + |sep|..] == tail;
  }

  lemma {:induction false} IndexAfterName(head: string, sep: string, tail: string)
    requires '/' !in head && sep != "" && sep[0] == '/'
    ensures IndexOf(head + sep + tail, sep) == |head|
  {
    var s := head + sep + tail;
    if head == "" {
      assert s == sep + tail;
    } else {
      assert s[0] == head[0] && head[0] in head && s[1..] == head[1..] + sep + tail;
      IndexAfterName(head[1..], sep, tail);
    }
  }

  /** Joining what arrives gives the text back exactly when the separators occur in order and every
      placeholder that stayed is the value it stands for. */
  lemma {:induction false} ArrivingRebuilds(rest: string, names: seq<string>, seps: seq<string>, missed: set<string>)
    requires |names| == |seps| + 1 && SlashSeps(seps) && forall n | n in names :: '/' !in n
    ensures var values := Pieces(rest, seps);
      Interleave(Arriving(names, values, missed), seps) == rest
      <==> InOrder(rest, seps) && forall k | 0 <= k < |names| && names[k] in missed :: values[k] == "{" + names[k] + "}"
  {
    var values := Pieces(rest, seps);
    var arriving := Arriving(names, values, missed);
    if Interleave(arriving, seps) == rest { ArrivingIsRight(rest, names, seps, missed); }
    if InOrder(rest, seps) && forall k | 0 <= k < |names| && names[k] in missed :: values[k] == "{" + names[k] + "}" {
      assert arriving == values;
      PiecesRebuild(rest, seps);
    }
  }

  lemma {:induction false} ArrivingIsRight(rest: string, names: seq<string>, seps: seq<string>, missed: set<string>)
    requires |names| == |seps| + 1 && SlashSeps(seps) && forall n | n in names :: '/' !in n
    requires Interleave(Arriving(names, Pieces(rest, seps), missed), seps) == rest
    ensures InOrder(rest, seps)
    ensures forall k | 0 <= k < |names| && names[k] in missed :: Pieces(rest, seps)[k] == "{" + names[k] + "}"
    decreases |seps|
  {
    if seps == [] {
      assert Pieces(rest, seps) == [rest];
    } else {
      var tail := Interleave(Arriving(names, Pieces(rest, seps), missed)[1..], seps[1..]);
      FirstIsCut(rest, names, seps, missed, tail);
      PiecesOfTail(rest, names, seps, missed, tail);
      assert forall n | n in names[1..] :: n in names;
      ArrivingIsRight(tail, names[1..], seps[1..], missed);
      AllAreRight(names, Pieces(rest, seps), missed, Pieces(tail, seps[1..]));
    }
  }

  lemma PiecesOfTail(rest: string, names: seq<string>, seps: seq<string>, missed: set<string>, tail: string)
    requires |names| == |seps| + 1 && seps != [] && CutAt(rest, seps[0]).found && CutAt(rest, seps[0]).after == tail
    ensures Pieces(rest, seps) == [CutAt(rest, seps[0]).before] + Pieces(tail, seps[1..])
    ensures Arriving(names, Pieces(rest, seps), missed)[1..] == Arriving(names[1..], Pieces(tail, seps[1..]), missed)
  {
    PiecesStep(rest, seps);
    ArrivingCons(names, CutAt(rest, seps[0]).before, Pieces(tail, seps[1..]), missed);
  }

  lemma ArrivingCons(names: seq<string>, value: string, values: seq<string>, missed: set<string>)
    requires |names| == |values| + 1
    ensures Arriving(names, [value] + values, missed)[1..] == Arriving(names[1..], values, missed)
  {
  }

  lemma AllAreRight(names: seq<string>, values: seq<string>, missed: set<string>, later: seq<string>)
    requires |names| == |values| == |later| + 1 && values == [values[0]] + later
    requires names[0] in missed ==> values[0] == "{" + names[0] + "}"
    requires forall k | 0 <= k < |later| && names[1..][k] in missed :: later[k] == "{" + names[1..][k] + "}"
    ensures forall k | 0 <= k < |names| && names[k] in missed :: values[k] == "{" + names[k] + "}"
  {
    forall k | 0 <= k < |names| && names[k] in missed
      ensures values[k] == "{" + names[k] + "}"
    {
      if k > 0 { assert names[k] == names[1..][k - 1] && values[k] == later[k - 1]; }
    }
  }

  lemma {:induction false} FirstIsCut(rest: string, names: seq<string>, seps: seq<string>, missed: set<string>,
                                      tail: string)
    requires |names| == |seps| + 1 && seps != [] && SlashSeps(seps) && forall n | n in names :: '/' !in n
    requires var arriving := Arriving(names, Pieces(rest, seps), missed);
      tail == Interleave(arriving[1..], seps[1..]) && Interleave(arriving, seps) == rest
    ensures var cut := CutAt(rest, seps[0]);
      cut.found && cut.after == tail && (names[0] in missed ==> cut.before == "{" + names[0] + "}")
  {
    var head := Arriving(names, Pieces(rest, seps), missed)[0];
    var cut := CutAt(rest, seps[0]);
    assert rest == head + seps[0] + tail;
    if names[0] in missed {
      assert names[0] in names;
      CutAfterName(head, seps[0], tail);
    } else {
      PiecesStep(rest, seps);
      assert head == cut.before;
      assert |rest| == |head| + |seps[0]| + |tail|;
      CutSplits(rest, seps[0]);
      SameTail(head + seps[0], cut.after, tail);
    }
  }

  lemma SameTail(head: string, a: string, b: string)
    ensures head + a == head + b ==> a == b
  {
    assert (head + a)[|head|..] == a && (head + b)[|head|..] == b;
  }

  /** One field comes back exactly when it fits its pattern and reaches the server. */
  lemma {:induction false} FieldComesBack(client: Client, f: Field, msg: Message, missed: set<string>)
    requires Segmented(f)
    ensures var value := Get(msg, f.fieldPath);
      f.prefix + Interleave(Arriving(f.names, ClientValues(client, f, msg), missed), f.seps) == value
      <==> Fits(value, f.prefix, f.seps) && Reaches(client, f, msg, missed)
  {
    var value := Get(msg, f.fieldPath);
    var arriving := Arriving(f.names, ClientValues(client, f, msg), missed);
    var joined := Interleave(arriving, f.seps);
    if f.prefix <= value {
      var rest := value[|f.prefix|..];
      assert value == f.prefix + rest && TrimPrefix(value, f.prefix) == rest;
      assert f.prefix + joined == value <==> joined == rest by { SameTail(f.prefix, joined, rest); }
      ArrivingRebuilds(rest, f.names, f.seps, missed);
      if client.Go? && |f.seps| > 1 {
        UnsplitComesBack(f, msg, missed);
      } else {
        PrefixStripped(client, f, msg);
      }
    } else {
      assert f.prefix <= f.prefix + joined;
    }
  }

  lemma {:induction false} PrefixStripped(client: Client, f: Field, msg: Message)
    requires |f.names| == |f.seps| + 1 && f.prefix <= Get(msg, f.fieldPath) && (client.Go? ==> |f.seps| <= 1)
    ensures ClientValues(client, f, msg) == FieldValues(f, msg)
  {
    if client.TypeScript? && f.seps == [] {
      var value := Get(msg, f.fieldPath);
      assert FieldValues(f, msg) == [TrimPrefix(value, f.prefix)];
      assert "" + value[|f.prefix|..] == value[|f.prefix|..];
    }
  }

  /** The Go client puts the whole field in the place of each of three or more wildcards: too long,
      unless every one of those placeholders was missed. */
  lemma {:induction false} UnsplitComesBack(f: Field, msg: Message, missed: set<string>)
    requires Segmented(f) && |f.seps| > 1 && f.prefix <= Get(msg, f.fieldPath)
    ensures var value := Get(msg, f.fieldPath);
      var joined := Interleave(Arriving(f.names, Repeat(value, |f.seps| + 1), missed), f.seps);
      joined == value[|f.prefix|..] <==> Fits(value, f.prefix, f.seps) && Reaches(Go, f, msg, missed)
  {
    var value := Get(msg, f.fieldPath);
    var rest := value[|f.prefix|..];
    if forall n | n in f.names :: n in missed {
      AllMissed(f.names, Repeat(value, |f.seps| + 1), Pieces(rest, f.seps), missed);
      ArrivingRebuilds(rest, f.names, f.seps, missed);
    } else {
      var k :| 0 <= k < |f.names| && f.names[k] !in missed;
      UnsplitIsTooLong(f.names, f.seps, value, missed, k);
    }
  }

  lemma UnsplitIsTooLong(names: seq<string>, seps: seq<string>, value: string, missed: set<string>, k: nat)
    requires |names| == |seps| + 1 && seps != [] && SlashSeps(seps) && k < |names| && names[k] !in missed
    ensures |Interleave(Arriving(names, Repeat(value, |seps| + 1), missed), seps)| > |value|
  {
    LongerThanEach(Arriving(names, Repeat(value, |seps| + 1), missed), seps, k);
  }

  lemma AllMissed(names: seq<string>, a: seq<string>, b: seq<string>, missed: set<string>)
    requires |names| == |a| == |b| && forall n | n in names :: n in missed
    ensures Arriving(names, a, missed) == Arriving(names, b, missed)
  {
  }

  lemma {:induction false} SameValuesWhenReached(client: Client, f: Field, msg: Message, missed: set<string>)
    requires |f.names| == |f.seps| + 1 && Fits(Get(msg, f.fieldPath), f.prefix, f.seps)
      && Reaches(client, f, msg, missed)
    ensures Arriving(f.names, ClientValues(client, f, msg), missed) == FieldValues(f, msg)
  {
    if client.Go? && |f.seps| > 1 {
      forall k | 0 <= k < |f.names|
        ensures Arriving(f.names, ClientValues(client, f, msg), missed)[k] == FieldValues(f, msg)[k]
      {
        assert f.names[k] in missed;
      }
    } else {
      PrefixStripped(client, f, msg);
    }
  }

  lemma {:induction false} CountOfValues(client: Client, fields: seq<Field>, msg: Message)
    requires WellFormed(fields)
    ensures |AllClientValues(client, fields, msg)| == |AllNames(fields)|
  {
    if fields != [] {
      TailIsWellFormed(fields);
      CountOfValues(client, fields[1..], msg);
    }
  }

  /** What arrives for the first field and for the others. */
  lemma {:induction false} ArrivingSplit(client: Client, fields: seq<Field>, msg: Message, missed: set<string>)
    requires fields != [] && WellFormed(fields) && WellFormed(fields[1..]) && |fields[0].names| == |fields[0].seps| + 1
    ensures |AllClientValues(client, fields, msg)| == |AllNames(fields)|
    ensures |AllClientValues(client, fields[1..], msg)| == |AllNames(fields[1..])|
    ensures Arriving(AllNames(fields), AllClientValues(client, fields, msg), missed)
      == Arriving(fields[0].names, ClientValues(client, fields[0], msg), missed)
         + Arriving(AllNames(fields[1..]), AllClientValues(client, fields[1..], msg), missed)
  {
    CountOfValues(client, fields, msg);
    CountOfValues(client, fields[1..], msg);
    ArrivingConcat(fields[0].names, ClientValues(client, fields[0], msg),
                   AllNames(fields[1..]), AllClientValues(client, fields[1..], msg), missed);
  }

  lemma ArrivingConcat(names: seq<string>, values: seq<string>, more: seq<string>, others: seq<string>,
                       missed: set<string>)
    requires |names| == |values| && |more| == |others|
    ensures Arriving(names + more, values + others, missed)
      == Arriving(names, values, missed) + Arriving(more, others, missed)
  {
  }

  lemma {:induction false} FieldsComeBack(client: Client, fields: seq<Field>, msg: Message, missed: set<string>)
    requires WellFormed(fields) && AllSegmented(fields)
    ensures |AllClientValues(client, fields, msg)| == |AllNames(fields)|
    ensures Joined(fields, Arriving(AllNames(fields), AllClientValues(client, fields, msg), missed))
      == Originals(fields, msg)
      <==> FieldsFit(fields, msg) && AllReach(client, fields, msg, missed)
  {
    CountOfValues(client, fields, msg);
    if fields != [] {
      var f, rest := fields[0], fields[1..];
      TailIsWellFormed(fields);
      assert fields == [f] + rest && forall g | g in rest :: g in fields;
      FieldsComeBack(client, rest, msg, missed);
      FieldComesBack(client, f, msg, missed);
      ArrivingSplit(client, fields, msg, missed);
      var own := Arriving(f.names, ClientValues(client, f, msg), missed);
      var others := Arriving(AllNames(rest), AllClientValues(client, rest, msg), missed);
      assert (own + others)[..|f.names|] == own && (own + others)[|f.names|..] == others;
      ConsEqual(f.prefix + Interleave(own, f.seps), Get(msg, f.fieldPath), Joined(rest, others), Originals(rest, msg));
      ReachCons(client, fields, msg, missed);
    }
  }

  lemma ReachCons(client: Client, fields: seq<Field>, msg: Message, missed: set<string>)
    requires fields != [] && WellFormed(fields) && WellFormed(fields[1..])
    ensures AllReach(client, fields, msg, missed)
      <==> Reaches(client, fields[0], msg, missed) && AllReach(client, fields[1..], msg, missed)
    ensures FieldsFit(fields, msg) <==>
      Fits(Get(msg, fields[0].fieldPath), fields[0].prefix, fields[0].seps) && FieldsFit(fields[1..], msg)
  {
    assert fields == [fields[0]] + fields[1..];
    assert forall i | 0 <= i < |fields[1..]| :: fields[1..][i] == fields[i + 1];
    if Reaches(client, fields[0], msg, missed) && AllReach(client, fields[1..], msg, missed) {
      forall i | 0 <= i < |fields|
        ensures Reaches(client, fields[i], msg, missed)
      {
        if i > 0 { assert fields[i] == fields[1..][i - 1]; }
      }
    }
  }

  lemma ConsEqual(x: string, y: string, xs: seq<string>, ys: seq<string>)
    ensures [x] + xs == [y] + ys <==> x == y && xs == ys
  {
    assert ([x] + xs)[0] == x && ([y] + ys)[0] == y;
    assert ([x] + xs)[1..] == xs && ([y] + ys)[1..] == ys;
  }

  lemma {:induction false} SameRawsWhenReached(client: Client, fields: seq<Field>, msg: Message, missed: set<string>)
    requires WellFormed(fields) && FieldsFit(fields, msg) && AllReach(client, fields, msg, missed)
    ensures |AllClientValues(client, fields, msg)| == |AllNames(fields)|
    ensures Arriving(AllNames(fields), AllClientValues(client, fields, msg), missed) == AllValues(fields, msg)
  {
    CountOfValues(client, fields, msg);
    if fields != [] {
      TailIsWellFormed(fields);
      ReachCons(client, fields, msg, missed);
      SameRawsWhenReached(client, fields[1..], msg, missed);
      SameValuesWhenReached(client, fields[0], msg, missed);
      ArrivingSplit(client, fields, msg, missed);
    }
  }

  // ---- the three clients ----

  function FieldsOf(pattern: string): seq<Field> { Assignments(GoParse(pattern).vars) }

  /** What a message must satisfy to survive: its fields fit the pattern, and the wildcard values
      in them can stand as path segments. */
  predicate Deliverable(pattern: string, msg: Message)
    requires Supported(pattern) && OctetMessage(msg)
  {
    SharedValues(pattern, msg);
    FieldsFit(FieldsOf(pattern), msg) && ServableValues(pattern, AllValues(FieldsOf(pattern), msg))
  }

  lemma {:induction false} SharedValues(pattern: string, msg: Message)
    requires Supported(pattern) && OctetMessage(msg)
    ensures var raws := AllValues(FieldsOf(pattern), msg);
      && |raws| == |GoParse(pattern).vars| && OctetValues(raws)
      && RawsOf(Python, GoParse(pattern).vars, msg) == raws
  {
    var vars := GoParse(pattern).vars;
    FieldsOfPattern(pattern, msg);
    ParseIsAligned(pattern, "");
    RawsByField(Python, vars, FieldsOf(pattern), msg);
    PythonValues(FieldsOf(pattern), msg);
    OctetRaws(Python, vars, msg);
  }

  lemma {:induction false} PythonValues(fields: seq<Field>, msg: Message)
    ensures AllClientValues(Python, fields, msg) == AllValues(fields, msg)
  {
    if fields != [] { PythonValues(fields[1..], msg); }
  }

  lemma {:induction false} SupportedIsSegmented(pattern: string)
    requires Supported(pattern)
    ensures WellFormed(FieldsOf(pattern)) && AllSegmented(FieldsOf(pattern))
    ensures AllNames(FieldsOf(pattern)) == VarNames(GoParse(pattern).vars)
  {
    var p, fields := GoParse(pattern), FieldsOf(pattern);
    FieldsOfPattern(pattern, map[]);
    PlaceholdersCounted(pattern);
    forall f | f in fields
      ensures Segmented(f)
    {
      forall n | n in f.names
        ensures '/' !in n
      {
        NameOfField(fields, f, n);
        var i :| 0 <= i < |AllNames(fields)| && AllNames(fields)[i] == n;
        assert HoleNames(Holes(p.tokens))[i] == n;
        assert Var(Holes(p.tokens)[i]) in p.tokens && PlainToken(Var(Holes(p.tokens)[i]));
      }
    }
  }

  lemma {:induction false} NameOfField(fields: seq<Field>, f: Field, n: string)
    requires f in fields && n in f.names
    ensures n in AllNames(fields)
  {
    assert fields == [fields[0]] + fields[1..];
    if f != fields[0] { NameOfField(fields[1..], f, n); }
  }

  /** The core of the three theorems below. */
  lemma {:induction false} SurvivesExactly(client: Client, codec: Codec, pattern: string, st: seq<Token>, msg: Message)
    requires Supported(pattern) && codec.Valid() && OctetMessage(msg) && SameRoute(GoParse(pattern).tokens, st)
    ensures OctetValues(RawsOf(client, GoParse(pattern).vars, msg)) && WellFormed(FieldsOf(pattern))
    ensures var p := GoParse(pattern);
      var raws := RawsOf(client, p.vars, msg);
      var path := FillTemplate(codec, UrlPattern(pattern), FoundHoles(pattern), raws);
      && FillTemplateAll(codec, UrlPattern(pattern), FoundHoles(pattern), raws) == path
      && (AnswerTo(pattern, st, path) == Texts(Originals(FieldsOf(pattern), msg))
          <==> Deliverable(pattern, msg) && AllReach(client, FieldsOf(pattern), msg, Missed(pattern)))
  {
    var vars, fields, missed := GoParse(pattern).vars, FieldsOf(pattern), Missed(pattern);
    var raws := RawsOf(client, vars, msg);
    OctetRaws(client, vars, msg);
    SupportedIsSegmented(pattern);
    ParseIsAligned(pattern, "");
    FieldsOfPattern(pattern, msg);
    RawsByField(client, vars, fields, msg);
    ServerGetsTheValues(pattern, codec, raws, st);
    FieldsComeBack(client, fields, msg, missed);
    SharedValues(pattern, msg);
    if FieldsFit(fields, msg) && AllReach(client, fields, msg, missed) {
      SameRawsWhenReached(client, fields, msg, missed);
    }
  }

  function GoPath(pattern: string, msg: Message): string
    requires OctetMessage(msg)
  {
    var p := GoParse(pattern);
    OctetRaws(Go, p.vars, msg);
    FillTemplate(GoCodec(), UrlPattern(pattern), FoundHoles(pattern), GoRaws(p.vars, msg))
  }

  /** The path the Go client builds is answered with its fields exactly when they are deliverable,
      every missed placeholder is the value it stands for, and no field has more than two wildcards
      that are found. GoWire says what net/url makes of that path. */
  lemma {:induction false} GoPathRoundTrip(pattern: string, st: seq<Token>, msg: Message)
    requires Supported(pattern) && OctetMessage(msg) && SameRoute(GoParse(pattern).tokens, st)
    ensures WellFormed(FieldsOf(pattern))
    ensures AnswerTo(pattern, st, GoPath(pattern, msg)) == Texts(Originals(FieldsOf(pattern), msg))
      <==> Deliverable(pattern, msg) && AllReach(Go, FieldsOf(pattern), msg, Missed(pattern))
  {
    CodecsAreValid();
    SurvivesExactly(Go, GoCodec(), pattern, st, msg);
  }

  /** With every placeholder found, that is: deliverable, and at most two wildcards in a field. */
  lemma {:induction false} ReachesWhenFound(client: Client, fields: seq<Field>, msg: Message)
    requires WellFormed(fields)
    ensures AllReach(client, fields, msg, {}) <==> (client.Go? ==> forall f | f in fields :: |f.names| <= 2)
  {
    forall i | 0 <= i < |fields|
      ensures Reaches(client, fields[i], msg, {}) <==> (client.Go? ==> |fields[i].names| <= 2)
    {
      OneReachesWhenFound(client, fields[i], msg, {});
    }
  }

  lemma OneReachesWhenFound(client: Client, f: Field, msg: Message, missed: set<string>)
    requires |f.names| == |f.seps| + 1 && missed == {}
    ensures Reaches(client, f, msg, missed) <==> (client.Go? ==> |f.names| <= 2)
  {
    assert f.names[0] !in missed;
  }

  lemma {:induction false} SharedOctets(vars: seq<SharedVar>, msg: Message)
    requires OctetMessage(msg)
    ensures OctetValues(PyRaws(vars, msg)) && OctetValues(TsRaws(vars, msg))
  {
    forall i | 0 <= i < |vars|
      ensures Octets(PyRaws(vars, msg)[i]) && Octets(TsRaws(vars, msg)[i])
    {
      OctetSharedRaw(vars[i], msg);
    }
  }

  function PythonPath(pattern: string, msg: Message): string
    requires OctetMessage(msg)
  {
    FillPython(Show(SharedFrom(pattern).tokens), SharedFrom(pattern).vars, msg)
  }

  function FillPython(template: string, vars: seq<SharedVar>, msg: Message): string
    requires OctetMessage(msg)
  {
    SharedOctets(vars, msg);
    FillTemplateAll(PyCodec(), template, ClientHoles(vars, template), PyRaws(vars, msg))
  }

  function TypeScriptPath(pattern: string, msg: Message): string
    requires OctetMessage(msg)
  {
    FillTypeScript(Show(SharedFrom(pattern).tokens), SharedFrom(pattern).vars, msg)
  }

  function FillTypeScript(template: string, vars: seq<SharedVar>, msg: Message): string
    requires OctetMessage(msg)
  {
    SharedOctets(vars, msg);
    FillTemplate(TsCodec(), template, ClientHoles(vars, template), TsRaws(vars, msg))
  }

  lemma NotInTail(path: string, verb: string, i: nat)
    requires i < |path + verb| && (path + verb)[i] !in verb
    ensures i < |path|
  {
  }

  lemma {:induction false} ContainsBeforeVerb(path: string, verb: string, sub: string)
    requires sub != "" && sub[|sub| - 1] !in verb
    ensures Contains(path + verb, sub) <==> Contains(path, sub)
  {
    var all := path + verb;
    if Contains(all, sub) {
      var i := IndexOf(all, sub);
      IndexOfOccurs(all, sub);
      var last := i + |sub| - 1;
      assert all[i..][|sub| - 1] == sub[|sub| - 1] && all[last] == sub[|sub| - 1];
      NotInTail(path, verb, last);
      assert path[i..][..|sub|] == all[i..][..|sub|];
      IndexOfIsFirst(path, sub, i);
    }
    if Contains(path, sub) {
      var i := IndexOf(path, sub);
      IndexOfOccurs(path, sub);
      assert all[i..] == path[i..] + verb;
      IndexOfIsFirst(all, sub, i);
    }
  }

  lemma {:induction false} HolesIgnoreVerb(vars: seq<SharedVar>, path: string, verb: string)
    requires '.' !in verb
    ensures ClientHoles(vars, path + verb) == ClientHoles(vars, path)
  {
    if vars != [] {
      HolesIgnoreVerb(vars[1..], path, verb);
      ContainsBeforeVerb(path, verb, vars[0].name + "...");
    }
  }

  /** The other two plugins write the path the Go plugin registers, and look for the same
      placeholders in it. */
  lemma {:induction false} SharedTemplate(pattern: string)
    requires Supported(pattern) && NoColonInBraces(pattern) && !RestWithVerb(pattern)
    ensures var g, p := GoParse(pattern), SharedFrom(pattern);
      && Show(p.tokens) == UrlPattern(pattern) && p.vars == ForgetAll(g.vars)
      && ClientHoles(p.vars, Show(p.tokens)) == FoundHoles(pattern)
  {
    var g := GoParse(pattern);
    PluginsAgree(pattern);
    HolesIgnoreVerb(ForgetAll(g.vars), Show(g.tokens), g.verb);
  }

  lemma FillsAre(template: string, vars: seq<SharedVar>, holes: seq<Hole>, msg: Message)
    requires OctetMessage(msg) && ClientHoles(vars, template) == holes
    ensures OctetValues(PyRaws(vars, msg)) && OctetValues(TsRaws(vars, msg))
    ensures FillPython(template, vars, msg) == FillTemplateAll(PyCodec(), template, holes, PyRaws(vars, msg))
    ensures FillTypeScript(template, vars, msg) == FillTemplate(TsCodec(), template, holes, TsRaws(vars, msg))
  {
    SharedOctets(vars, msg);
  }

  lemma {:induction false} PythonFills(pattern: string, msg: Message)
    requires Supported(pattern) && NoColonInBraces(pattern) && !RestWithVerb(pattern) && OctetMessage(msg)
    ensures var raws := RawsOf(Python, GoParse(pattern).vars, msg);
      OctetValues(raws)
          && PythonPath(pattern, msg) == FillTemplateAll(PyCodec(), UrlPattern(pattern), FoundHoles(pattern), raws)
  {
    SharedTemplate(pattern);
    var p := GoParse(pattern);
    assert RawsOf(Python, p.vars, msg) == PyRaws(ForgetAll(p.vars), msg);
    FillsAre(UrlPattern(pattern), ForgetAll(p.vars), FoundHoles(pattern), msg);
  }

  lemma {:induction false} TypeScriptFills(pattern: string, msg: Message)
    requires Supported(pattern) && NoColonInBraces(pattern) && !RestWithVerb(pattern) && OctetMessage(msg)
    ensures var raws := RawsOf(TypeScript, GoParse(pattern).vars, msg);
      OctetValues(raws)
          && TypeScriptPath(pattern, msg) == FillTemplate(TsCodec(), UrlPattern(pattern), FoundHoles(pattern), raws)
  {
    SharedTemplate(pattern);
    var p := GoParse(pattern);
    assert RawsOf(TypeScript, p.vars, msg) == TsRaws(ForgetAll(p.vars), msg);
    FillsAre(UrlPattern(pattern), ForgetAll(p.vars), FoundHoles(pattern), msg);
  }

  /** The Python client, with any number of wildcards. */
  lemma {:induction false} PythonRoundTrip(pattern: string, st: seq<Token>, msg: Message)
    requires Supported(pattern) && NoColonInBraces(pattern) && !RestWithVerb(pattern)
    requires OctetMessage(msg) && SameRoute(GoParse(pattern).tokens, st)
    ensures WellFormed(FieldsOf(pattern))
    ensures AnswerTo(pattern, st, PythonPath(pattern, msg)) == Texts(Originals(FieldsOf(pattern), msg))
      <==> Deliverable(pattern, msg) && AllReach(Python, FieldsOf(pattern), msg, Missed(pattern))
  {
    CodecsAreValid();
    PythonFills(pattern, msg);
    SurvivesExactly(Python, PyCodec(), pattern, st, msg);
  }

  /** The TypeScript client, which deletes the prefix wherever it first occurs, survives on exactly
      the same messages. */
  lemma {:induction false} TypeScriptRoundTrip(pattern: string, st: seq<Token>, msg: Message)
    requires Supported(pattern) && NoColonInBraces(pattern) && !RestWithVerb(pattern)
    requires OctetMessage(msg) && SameRoute(GoParse(pattern).tokens, st)
    ensures WellFormed(FieldsOf(pattern))
    ensures AnswerTo(pattern, st, TypeScriptPath(pattern, msg)) == Texts(Originals(FieldsOf(pattern), msg))
      <==> Deliverable(pattern, msg) && AllReach(TypeScript, FieldsOf(pattern), msg, Missed(pattern))
  {
    CodecsAreValid();
    TypeScriptFills(pattern, msg);
    SurvivesExactly(TypeScript, TsCodec(), pattern, st, msg);
  }

  /** A route that keeps its own path reads its own names. */
  lemma {:induction false} OwnRoute(pattern: string)
    requires Supported(pattern)
    ensures var ts := GoParse(pattern).tokens;
      && SameRoute(ts, ts)
      && HoleNames(Holes(ts)) == AllNames(FieldsOf(pattern))
      && Renamed(FieldsOf(pattern), HoleNames(Holes(ts))) == FieldsOf(pattern)
  {
    var ts := GoParse(pattern).tokens;
    ShapeOfItself(SplitTokens(ts)[1..]);
    PlaceholdersAreVariables(pattern, "");
    FieldsOfPattern(pattern, map[]);
    RenamedToItself(FieldsOf(pattern));
  }
}
