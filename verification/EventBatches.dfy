/** What the TypeScript client yields when events reach it in batches, one batch per network chunk:
    the items of a batch are yielded before the error of its trailer is thrown, and are lost when
    one of its messages does not parse. */
module EventBatches {
  import opened Text
  import opened EventLines

  datatype Parsed<T> = Item(item: T) | ParseFails
  datatype Trailer<E> = Clear | Fails(error: E)

  /** Message and trailer parsing, which this model does not look into. */
  datatype Decoder<!T, !E> = Decoder(parse: string -> Parsed<T>, trailer: string -> Trailer<E>)

  datatype Effect<T, E> = Nothing | Emit(item: T) | Fail | Raise(error: E)

  function EffectOf<T, E>(d: Decoder<T, E>, e: Event): Effect<T, E> {
    if e.isTrailer then
      match d.trailer(e.data) { case Clear => Nothing case Fails(error) => Raise(error) }
    else
      match d.parse(e.data) { case Item(item) => Emit(item) case ParseFails => Fail }
  }

  function Effects<T, E>(d: Decoder<T, E>, events: seq<Event>): (r: seq<Effect<T, E>>)
    ensures |r| == |events| && forall i | 0 <= i < |r| :: r[i] == EffectOf(d, events[i])
  {
    if events == [] then [] else [EffectOf(d, events[0])] + Effects(d, events[1..])
  }

  lemma EffectsConcat<T, E>(d: Decoder<T, E>, a: seq<Event>, b: seq<Event>)
    ensures Effects(d, a + b) == Effects(d, a) + Effects(d, b)
  {
  }

  datatype End<E> = Done | ParseError | TrailerError(error: E)

  datatype Outcome<T, E> = Outcome(items: seq<T>, end: End<E>)

  function Prepend<T, E>(items: seq<T>, o: Outcome<T, E>): Outcome<T, E> { o.(items := items + o.items) }

  // ---- one batch ----

  function Items<T, E>(batch: seq<Effect<T, E>>): seq<T> {
    if batch == [] then [] else (if batch[0].Emit? then [batch[0].item] else []) + Items(batch[1..])
  }

  predicate HasFail<T, E>(batch: seq<Effect<T, E>>) { exists i | 0 <= i < |batch| :: batch[i].Fail? }

  /** A later trailer replaces the error of an earlier one. */
  function LastError<T, E>(batch: seq<Effect<T, E>>): (end: End<E>)
    ensures !end.ParseError?
  {
    if batch == [] then Done
    else
      var later := LastError(batch[1..]);
      if later.Done? && batch[0].Raise? then TrailerError(batch[0].error) else later
  }

  function RunBatches<T, E>(batches: seq<seq<Effect<T, E>>>): Outcome<T, E> {
    if batches == [] then Outcome([], Done)
    else
      var b := batches[0];
      if HasFail(b) then Outcome([], ParseError)
      else if LastError(b).TrailerError? then Outcome(Items(b), LastError(b))
      else Prepend(Items(b), RunBatches(batches[1..]))
  }

  // ---- one event at a time ----

  /** Every event takes effect at once; `last` is the batch that the end of the stream adds. */
  function Reference<T, E>(effects: seq<Effect<T, E>>, last: seq<Effect<T, E>>): Outcome<T, E> {
    if effects == [] then RunBatches([last])
    else match effects[0] {
      case Nothing => Reference(effects[1..], last)
      case Emit(item) => Prepend([item], Reference(effects[1..], last))
      case Fail => Outcome([], ParseError)
      case Raise(e) => Outcome([], TrailerError(e))
    }
  }

  predicate OnlyRaises<T, E(==)>(effects: seq<Effect<T, E>>, e: E) {
    forall i | 0 <= i < |effects| :: effects[i].Nothing? || (effects[i].Raise? && effects[i].error == e)
  }

  /** Before the first message that does not parse there is no other message; and after the first
      error trailer there is nothing but error trailers that say the same. */
  predicate StableFrom<T, E(==)>(effects: seq<Effect<T, E>>, emitted: bool) {
    if effects == [] then true
    else match effects[0] {
      case Nothing => StableFrom(effects[1..], emitted)
      case Emit(_) => StableFrom(effects[1..], true)
      case Fail => !emitted
      case Raise(e) => OnlyRaises(effects[1..], e)
    }
  }

  predicate Stable<T, E(==)>(effects: seq<Effect<T, E>>) { StableFrom(effects, false) }

  lemma {:induction false} RaisesOnly<T, E>(batch: seq<Effect<T, E>>, e: E)
    requires OnlyRaises(batch, e)
    ensures !HasFail(batch) && Items(batch) == [] && (LastError(batch) == Done || LastError(batch) == TrailerError(e))
  {
    if batch != [] { RaisesOnly(batch[1..], e); }
  }

  lemma FailCons<T, E>(x: Effect<T, E>, rest: seq<Effect<T, E>>)
    ensures HasFail([x] + rest) <==> x.Fail? || HasFail(rest)
  {
    assert ([x] + rest)[0] == x;
    if HasFail(rest) { var i :| 0 <= i < |rest| && rest[i].Fail?; assert ([x] + rest)[i + 1].Fail?; }
  }

  lemma BatchCons<T, E>(x: Effect<T, E>, rest: seq<Effect<T, E>>)
    ensures Items([x] + rest) == (if x.Emit? then [x.item] else []) + Items(rest)
    ensures LastError([x] + rest) == if LastError(rest).Done? && x.Raise? then TrailerError(x.error)
      else LastError(rest)
  {
    assert ([x] + rest)[1..] == rest;
  }

  lemma AfterCons<T, E>(x: Effect<T, E>, rest: seq<Effect<T, E>>, last: seq<Effect<T, E>>, emitted: bool)
    ensures StableFrom([x] + rest, emitted) <==>
      match x { case Nothing => StableFrom(rest, emitted) case Emit(_) => StableFrom(rest, true)
                case Fail => !emitted case Raise(e) => OnlyRaises(rest, e) }
    ensures Reference([x] + rest, last) ==
      match x { case Nothing => Reference(rest, last) case Emit(item) => Prepend([item], Reference(rest, last))
                case Fail => Outcome([], ParseError) case Raise(e) => Outcome([], TrailerError(e)) }
  {
    assert ([x] + rest)[1..] == rest;
  }

  lemma {:induction false} StableSooner<T, E>(effects: seq<Effect<T, E>>)
    requires StableFrom(effects, true)
    ensures StableFrom(effects, false)
  {
    if effects != [] && effects[0].Nothing? { StableSooner(effects[1..]); }
  }

  /** The first batch of a stable stream does what its events do one at a time. */
  lemma {:induction false} FirstBatch<T, E>(b: seq<Effect<T, E>>, rest: seq<Effect<T, E>>, last: seq<Effect<T, E>>,
                                            emitted: bool)
    requires StableFrom(b + rest, emitted)
    ensures HasFail(b) ==> !emitted && Reference(b + rest, last) == Outcome([], ParseError)
    ensures !HasFail(b) && LastError(b).TrailerError? ==> Reference(b + rest, last) == Outcome(Items(b), LastError(b))
    ensures !HasFail(b) && LastError(b).Done? ==>
      StableFrom(rest, emitted) && Reference(b + rest, last) == Prepend(Items(b), Reference(rest, last))
    decreases |b|
  {
    if b == [] {
      assert b + rest == rest;
      assert [] + Reference(rest, last).items == Reference(rest, last).items;
    } else {
      var x, b1 := b[0], b[1..];
      assert b == [x] + b1 && b + rest == [x] + (b1 + rest);
      FailCons(x, b1);
      BatchCons(x, b1);
      AfterCons(x, b1 + rest, last, emitted);
      match x
      case Nothing =>
        FirstBatch(b1, rest, last, emitted);
        assert [] + Items(b1) == Items(b1);
      case Emit(item) =>
        FirstBatch(b1, rest, last, true);
        if !HasFail(b1) && LastError(b1).Done? {
          if !emitted { StableSooner(rest); }
          Assoc([item], Items(b1), Reference(rest, last).items);
        }
      case Fail =>
      case Raise(e) =>
        assert OnlyRaises(b1, e) by {
          assert forall i | 0 <= i < |b1| :: (b1 + rest)[i] == b1[i];
        }
        RaisesOnly(b1, e);
    }
  }

  function Flatten<X>(batches: seq<seq<X>>): seq<X> {
    if batches == [] then [] else batches[0] + Flatten(batches[1..])
  }

  /** A stable stream has one outcome, however it is cut into batches. */
  lemma {:induction false} BatchingDoesNotMatter<T, E>(batches: seq<seq<Effect<T, E>>>, last: seq<Effect<T, E>>,
                                                       emitted: bool)
    requires StableFrom(Flatten(batches), emitted)
    ensures RunBatches(batches + [last]) == Reference(Flatten(batches), last)
  {
    if batches == [] {
      assert batches + [last] == [last];
    } else {
      var b, rest := batches[0], batches[1..];
      FirstBatch(b, Flatten(rest), last, emitted);
      assert (batches + [last])[1..] == rest + [last];
      if !HasFail(b) && LastError(b).Done? { BatchingDoesNotMatter(rest, last, emitted); }
    }
  }

  // ---- and only then ----

  /** The outcome when the stream is cut once, after `i` events. */
  function CutOnce<T, E>(effects: seq<Effect<T, E>>, last: seq<Effect<T, E>>, i: nat): Outcome<T, E>
    requires i <= |effects|
  {
    RunBatches([effects[..i], effects[i..], last])
  }

  predicate Calm<T, E>(effects: seq<Effect<T, E>>) {
    forall i | 0 <= i < |effects| :: effects[i].Nothing? || effects[i].Emit?
  }

  lemma {:induction false} CalmBatch<T, E>(effects: seq<Effect<T, E>>)
    requires Calm(effects)
    ensures !HasFail(effects) && LastError(effects) == Done
  {
    if effects != [] { CalmBatch(effects[1..]); }
  }

  lemma {:induction false} BatchConcat<T, E>(a: seq<Effect<T, E>>, b: seq<Effect<T, E>>)
    ensures Items(a + b) == Items(a) + Items(b)
    ensures LastError(a + b) == if LastError(b).Done? then LastError(a) else LastError(b)
  {
    if a == [] {
      assert a + b == b;
    } else {
      BatchConcat(a[1..], b);
      assert (a + b)[1..] == a[1..] + b;
      Assoc(if a[0].Emit? then [a[0].item] else [], Items(a[1..]), Items(b));
    }
  }

  /** The event at which an unstable stream first stops. */
  lemma {:induction false} FindStop<T, E>(effects: seq<Effect<T, E>>, emitted: bool) returns (k: nat)
    requires !StableFrom(effects, emitted)
    ensures k < |effects| && Calm(effects[..k])
    ensures (effects[k].Fail? && (emitted || Items(effects[..k]) != []))
         || (effects[k].Raise? && !OnlyRaises(effects[k + 1..], effects[k].error))
  {
    var x, rest := effects[0], effects[1..];
    if x.Fail? || x.Raise? {
      k := 0;
    } else {
      var n := FindStop(rest, emitted || x.Emit?);
      k := n + 1;
      assert effects[..k] == [x] + rest[..n] && effects[k + 1..] == rest[n + 1..];
      assert forall i | 0 < i < k :: effects[..k][i] == rest[..n][i - 1];
      BatchCons(x, rest[..n]);
    }
  }

  lemma CutAtStop<T, E>(effects: seq<Effect<T, E>>, last: seq<Effect<T, E>>, i: nat)
    requires i <= |effects|
    ensures HasFail(effects[..i]) ==> CutOnce(effects, last, i) == Outcome([], ParseError)
    ensures !HasFail(effects[..i]) && LastError(effects[..i]).TrailerError? ==>
      CutOnce(effects, last, i) == Outcome(Items(effects[..i]), LastError(effects[..i]))
  {
  }

  lemma LostItems<T, E>(effects: seq<Effect<T, E>>, last: seq<Effect<T, E>>, k: nat)
    requires k < |effects| && Calm(effects[..k]) && effects[k].Fail? && Items(effects[..k]) != []
    ensures CutOnce(effects, last, k) != CutOnce(effects, last, |effects|)
  {
    CalmBatch(effects[..k]);
    var tail := effects[k..];
    assert tail[0].Fail?;
    assert effects[..|effects|] == effects;
    CutAtStop(effects, last, |effects|);
    var batches := [effects[..k], tail, last];
    assert batches[1..][0] == tail;
    assert RunBatches(batches[1..]) == Outcome([], ParseError);
  }

  lemma {:induction false} UpToStop<T, E>(a: seq<Effect<T, E>>, x: Effect<T, E>)
    requires Calm(a) && x.Raise?
    ensures !HasFail(a + [x]) && Items(a + [x]) == Items(a) && LastError(a + [x]) == TrailerError(x.error)
  {
    CalmBatch(a);
    OneEffect(x);
    BatchConcat(a, [x]);
  }

  lemma {:induction false} UpToTrouble<T, E>(a: seq<Effect<T, E>>, b: seq<Effect<T, E>>, y: Effect<T, E>, e: E)
    requires OnlyRaises(b, e) && !HasFail(a) && LastError(a) == TrailerError(e)
    requires y.Fail? || y.Emit? || (y.Raise? && y.error != e)
    ensures var all := a + (b + [y]);
      HasFail(all)
          || (LastError(all).TrailerError? && Outcome(Items(all), LastError(all)) != Outcome(Items(a), TrailerError(e)))
  {
    RaisesOnly(b, e);
    OneEffect(y);
    BatchConcat(b, [y]);
    BatchConcat(a, b + [y]);
    if y.Fail? { assert (a + (b + [y]))[|a| + |b|].Fail?; }
  }

  lemma {:induction false} LaterTrouble<T, E>(effects: seq<Effect<T, E>>, last: seq<Effect<T, E>>, k: nat, m: nat)
    requires k < m < |effects| && Calm(effects[..k]) && effects[k].Raise?
      && OnlyRaises(effects[k + 1..m], effects[k].error)
    requires effects[m].Fail? || effects[m].Emit? || (effects[m].Raise? && effects[m].error != effects[k].error)
    ensures CutOnce(effects, last, k + 1) != CutOnce(effects, last, m + 1)
  {
    var a, b := effects[..k], effects[k + 1..m];
    assert effects[..k + 1] == a + [effects[k]] && effects[..m + 1] == (a + [effects[k]]) + (b + [effects[m]]);
    UpToStop(a, effects[k]);
    UpToTrouble(a + [effects[k]], b, effects[m], effects[k].error);
    CutAtStop(effects, last, k + 1);
    CutAtStop(effects, last, m + 1);
  }

  lemma OneEffect<T, E>(x: Effect<T, E>)
    ensures Items([x]) == if x.Emit? then [x.item] else []
    ensures LastError([x]) == if x.Raise? then TrailerError(x.error) else Done
    ensures HasFail([x]) <==> x.Fail?
  {
    assert [x][1..] == [];
    assert [x][0] == x;
  }

  lemma {:induction false} FirstOther<T, E>(effects: seq<Effect<T, E>>, e: E) returns (m: nat)
    requires !OnlyRaises(effects, e)
    ensures m < |effects| && OnlyRaises(effects[..m], e)
    ensures !effects[m].Nothing? && !(effects[m].Raise? && effects[m].error == e)
  {
    var x := effects[0];
    if !x.Nothing? && !(x.Raise? && x.error == e) {
      m := 0;
    } else {
      assert effects == [x] + effects[1..];
      var n := FirstOther(effects[1..], e);
      m := n + 1;
      assert effects[..m] == [x] + effects[1..][..n];
    }
  }

  /** Every unstable stream has two cuts with different outcomes. */
  lemma {:induction false} UnstableDependsOnCuts<T, E>(effects: seq<Effect<T, E>>, last: seq<Effect<T, E>>)
    requires !Stable(effects)
    ensures exists i, j | 0 <= i <= |effects| && 0 <= j <= |effects| ::
      CutOnce(effects, last, i) != CutOnce(effects, last, j)
  {
    var k := FindStop(effects, false);
    if effects[k].Fail? {
      LostItems(effects, last, k);
    } else {
      var n := FirstOther(effects[k + 1..], effects[k].error);
      assert effects[k + 1..][..n] == effects[k + 1..k + 1 + n];
      LaterTrouble(effects, last, k, k + 1 + n);
    }
  }
}
