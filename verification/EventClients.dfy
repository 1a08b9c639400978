/** The loops of the two event-stream clients. */
module EventClients {
  import opened Text
  import opened EventLines
  import opened EventBatches
  import opened EventStream
  import Decimal

  function Later<E>(old_: End<E>, new_: End<E>): End<E> { if new_.Done? then old_ else new_ }

  /** The variables that streamSSE and its processLine share. */
  class Reader<T, E> {
    const d: Decoder<T, E>
    var buffer: string
    var flags: int
    var dataLines: seq<string>
    var pending: seq<T>
    var trailerError: End<E>

    constructor (d: Decoder<T, E>)
      ensures this.d == d && buffer == "" && State() == FRESH && pending == [] && trailerError == Done
    {
      this.d, buffer, flags, dataLines, pending, trailerError := d, "", 0, [], [], Done;
    }

    function State(): Lines
      reads this
    {
      Lines(flags, dataLines)
    }

    /** processLine; `threw` when a message does not parse. */
    method ProcessLine(line: string) returns (threw: bool)
      requires !trailerError.ParseError?
      modifies this
      ensures buffer == old(buffer) && !trailerError.ParseError?
      ensures var r := StepOf(TypeScript)(old(State()), line);
        var effects := Effects(d, r.events);
        && (threw <==> HasFail(effects))
        && (!threw ==> State() == r.state && pending == old(pending) + Items(effects)
                       && trailerError == Later(old(trailerError), LastError(effects)))
    {
      threw := false;
      var trimmed := TrimSuffix(line, "\r");
      if trimmed == "" {
        if |dataLines| > 0 {
          var data := Join(dataLines, "\n");
          ghost var event := Event(HasBit1(flags), data);
          assert Effects(d, [event]) == [EffectOf(d, event)];
          OneEffect(EffectOf(d, event));
          if HasBit1(flags) {
            match d.trailer(data)
            case Fails(error) => trailerError := TrailerError(error);
            case Clear =>
          } else {
            match d.parse(data)
            case ParseFails => return true;
            case Item(item) => pending := pending + [item];
          }
          dataLines := [];
          flags := 0;
        }
        return;
      }
      if ":flags " <= trimmed { flags := ParseInt(trimmed[7..]); return; }
      if ":" <= trimmed { return; }
      if "data: " <= trimmed { dataLines := dataLines + [trimmed[6..]]; }
      else if "data:" <= trimmed { dataLines := dataLines + [trimmed[5..]]; }
    }

    method ProcessLines(lines: seq<string>) returns (threw: bool)
      requires !trailerError.ParseError?
      modifies this
      ensures buffer == old(buffer) && !trailerError.ParseError?
      ensures var r := TsSteps(old(State()), lines);
        var effects := Effects(d, r.events);
        && (threw <==> HasFail(effects))
        && (!threw ==> State() == r.state && pending == old(pending) + Items(effects)
                       && trailerError == Later(old(trailerError), LastError(effects)))
    {
      threw := false;
      ghost var start := State();
      ghost var done, left := [], lines;
      var i := 0;
      while i < |lines|
        invariant i == |done| && lines == done + left
        invariant buffer == old(buffer) && !trailerError.ParseError?
        invariant Processed(d, start, done, State(), old(pending), pending, old(trailerError), trailerError)
      {
        ghost var s, p, t := State(), pending, trailerError;
        NextElement(lines, done, left);
        threw := ProcessLine(lines[i]);
        if threw {
          FailsInside(d, start, done, lines[i], left[1..]);
          return;
        }
        ProcessedMore(d, start, done, lines[i], s, old(pending), p, old(trailerError), t);
        done, left := done + [lines[i]], left[1..];
        i := i + 1;
      }
      assert done == lines;
    }

    /** The end of a round: pending items are yielded, then the trailer's error is thrown. */
    method Flush() returns (items: seq<T>, end: End<E>)
      modifies this
      ensures items == old(pending) && end == old(trailerError)
      ensures buffer == old(buffer) && State() == old(State()) && pending == [] && trailerError == old(trailerError)
    {
      items, end := pending, trailerError;
      pending := [];
    }

    /** One round of the read loop. */
    method Read(value: string) returns (items: seq<T>, end: End<E>)
      requires pending == [] && trailerError == Done
      modifies this
      ensures var lines := Completed(old(buffer) + value);
        var r := TsSteps(old(State()), lines);
        var effects := Effects(d, r.events);
        && (HasFail(effects) ==> items == [] && end == ParseError)
        && (!HasFail(effects) ==>
              && items == Items(effects) && end == LastError(effects) == trailerError && pending == []
              && buffer == Remainder(old(buffer) + value) && State() == r.state)
    {
      buffer := buffer + value;
      var lines := Split(buffer, '\n');
      buffer := lines[|lines| - 1];
      var threw := ProcessLines(lines[..|lines| - 1]);
      if threw { return [], ParseError; }
      items, end := Flush();
      assert [] + items == items;
    }

    /** After the loop: the buffer is a last line, and a blank line follows it. */
    method Finish() returns (items: seq<T>, end: End<E>)
      requires pending == [] && trailerError == Done
      modifies this
      ensures var effects := Effects(d, TsSteps(old(State()), LastLines(old(buffer))).events);
        if HasFail(effects) then items == [] && end == ParseError
            else items == Items(effects) && end == LastError(effects)
    {
      var lines := if buffer != "" then [buffer, ""] else [""];
      assert lines == LastLines(buffer);
      var threw := ProcessLines(lines);
      if threw { return [], ParseError; }
      items, end := Flush();
      assert [] + items == items;
    }
  }

  /** `lines` have been processed without a failure, from state `start` to `now`. */
  predicate Processed<T(==), E(==)>(d: Decoder<T, E>, start: Lines, lines: seq<string>, now: Lines,
                                    p0: seq<T>, p: seq<T>, t0: End<E>, t: End<E>) {
    var r := TsSteps(start, lines);
    var effects := Effects(d, r.events);
    !HasFail(effects) && now == r.state && p == p0 + Items(effects) && t == Later(t0, LastError(effects))
  }

  lemma HasFailConcat<T, E>(a: seq<Effect<T, E>>, b: seq<Effect<T, E>>)
    ensures HasFail(a + b) <==> HasFail(a) || HasFail(b)
  {
    if HasFail(a) { var i :| 0 <= i < |a| && a[i].Fail?; assert (a + b)[i].Fail?; }
    if HasFail(b) { var i :| 0 <= i < |b| && b[i].Fail?; assert (a + b)[|a| + i].Fail?; }
  }

  lemma StepAfter(start: Lines, lines: seq<string>, line: string)
    ensures var r := TsSteps(start, lines);
      var one := StepOf(TypeScript)(r.state, line);
      TsSteps(start, lines + [line]) == Stepped(one.state, r.events + one.events)
  {
    RunConcat(StepOf(TypeScript), start, lines, [line]);
    RunOne(StepOf(TypeScript), TsSteps(start, lines).state, line);
  }

  lemma ProcessedMore<T, E>(d: Decoder<T, E>, start: Lines, lines: seq<string>, line: string, s: Lines,
                            p0: seq<T>, p: seq<T>, t0: End<E>, t: End<E>)
    requires Processed(d, start, lines, s, p0, p, t0, t)
    requires !HasFail(Effects(d, StepOf(TypeScript)(s, line).events))
    ensures var one := StepOf(TypeScript)(s, line);
      var effects := Effects(d, one.events);
      Processed(d, start, lines + [line], one.state, p0, p + Items(effects), t0, Later(t, LastError(effects)))
  {
    var r := TsSteps(start, lines);
    var one := StepOf(TypeScript)(s, line);
    StepAfter(start, lines, line);
    EffectsConcat(d, r.events, one.events);
    HasFailConcat(Effects(d, r.events), Effects(d, one.events));
    BatchConcat(Effects(d, r.events), Effects(d, one.events));
    Assoc(p0, Items(Effects(d, r.events)), Items(Effects(d, one.events)));
  }

  lemma FailsInside<T, E>(d: Decoder<T, E>, start: Lines, a: seq<string>, line: string, b: seq<string>)
    requires HasFail(Effects(d, StepOf(TypeScript)(TsSteps(start, a).state, line).events))
    ensures HasFail(Effects(d, TsSteps(start, a + [line] + b).events))
  {
    var r := TsSteps(start, a);
    var one := StepOf(TypeScript)(r.state, line);
    var rest := TsSteps(one.state, b).events;
    StepAfter(start, a, line);
    RunConcat(StepOf(TypeScript), start, a + [line], b);
    EffectsConcat(d, r.events, one.events);
    EffectsConcat(d, r.events + one.events, rest);
    HasFailConcat(Effects(d, r.events), Effects(d, one.events));
    HasFailConcat(Effects(d, r.events + one.events), Effects(d, rest));
  }

  // ---- streamSSE ----

  /** What is still to come from a reader in the given state. */
  function StreamFrom<T, E>(d: Decoder<T, E>, s: Lines, buffer: string, chunks: seq<string>): Outcome<T, E> {
    RunBatches(EffectBatches(d, s, LineBatches(buffer, chunks) + [LastLines(BufferAfter(buffer, chunks))]))
  }

  lemma StreamStep<T, E>(d: Decoder<T, E>, s: Lines, buffer: string, chunk: string, rest: seq<string>)
    ensures var r := TsSteps(s, Completed(buffer + chunk));
      var effects := Effects(d, r.events);
      StreamFrom(d, s, buffer, [chunk] + rest) ==
        if HasFail(effects) then Outcome([], ParseError)
        else if LastError(effects).TrailerError? then Outcome(Items(effects), LastError(effects))
        else Prepend(Items(effects), StreamFrom(d, r.state, Remainder(buffer + chunk), rest))
  {
    assert ([chunk] + rest)[1..] == rest;
    var first, more := Completed(buffer + chunk), LineBatches(Remainder(buffer + chunk), rest);
    var last := [LastLines(BufferAfter(buffer, [chunk] + rest))];
    assert [first] + more + last == [first] + (more + last);
    assert ([first] + (more + last))[1..] == more + last;
  }

  lemma LastBatch<T, E>(effects: seq<Effect<T, E>>)
    ensures RunBatches([effects]) == if HasFail(effects) then Outcome([], ParseError)
      else Outcome(Items(effects), LastError(effects))
  {
    assert [effects][1..] == [];
    assert Items(effects) + [] == Items(effects);
  }

  lemma StreamEnd<T, E>(d: Decoder<T, E>, s: Lines, buffer: string)
    ensures var effects := Effects(d, TsSteps(s, LastLines(buffer)).events);
      StreamFrom(d, s, buffer, []) ==
        if HasFail(effects) then Outcome([], ParseError) else Outcome(Items(effects), LastError(effects))
  {
    var lines := LastLines(buffer);
    var effects := Effects(d, TsSteps(s, lines).events);
    assert LineBatches(buffer, []) + [LastLines(BufferAfter(buffer, []))] == [lines];
    assert [lines][1..] == [];
    assert EffectBatches(d, s, [lines]) == [effects];
    LastBatch(effects);
  }

  /** One round keeps what has been yielded and what is to come equal to the whole. */
  lemma RoundKeeps<T, E>(d: Decoder<T, E>, s: Lines, buffer: string, chunk: string, rest: seq<string>, items: seq<T>,
                         more: seq<T>, end: End<E>, goal: Outcome<T, E>)
    requires Prepend(items, StreamFrom(d, s, buffer, [chunk] + rest)) == goal
    requires var effects := Effects(d, TsSteps(s, Completed(buffer + chunk)).events);
      if HasFail(effects) then more == [] && end == ParseError
          else (more == Items(effects) && end == LastError(effects))
    ensures end != Done ==> Outcome(items + more, end) == goal
    ensures end == Done ==>
      Prepend(items + more,
              StreamFrom(d, TsSteps(s, Completed(buffer + chunk)).state, Remainder(buffer + chunk), rest)) == goal
  {
    StreamStep(d, s, buffer, chunk, rest);
    Assoc(items, more,
          StreamFrom(d, TsSteps(s, Completed(buffer + chunk)).state, Remainder(buffer + chunk), rest).items);
  }

  method StreamSSE<T, E>(d: Decoder<T, E>, chunks: seq<string>) returns (items: seq<T>, end: End<E>)
    ensures Outcome(items, end) == Stream(d, chunks)
  {
    var reader := new Reader(d);
    ghost var goal := Stream(d, chunks);
    items, end := [], Done;
    assert Prepend([], goal) == goal by { assert [] + goal.items == goal.items; }
    ghost var done, left := [], chunks;
    var i := 0;
    while i < |chunks|
      invariant i == |done| && chunks == done + left && reader.d == d && fresh(reader)
      invariant reader.pending == [] && reader.trailerError == Done && end == Done
      invariant Prepend(items, StreamFrom(d, reader.State(), reader.buffer, left)) == goal
    {
      ghost var s, buffer := reader.State(), reader.buffer;
      NextElement(chunks, done, left);
      var more;
      more, end := reader.Read(chunks[i]);
      RoundKeeps(d, s, buffer, chunks[i], left[1..], items, more, end, goal);
      items := items + more;
      if end != Done { return; }
      done, left := done + [chunks[i]], left[1..];
      i := i + 1;
    }
    assert left == [];
    StreamEnd(d, reader.State(), reader.buffer);
    var more;
    more, end := reader.Finish();
    items := items + more;
  }

  // ---- the Python client ----

  /** The Python generator: each event takes effect at once, and nothing is added at the end. */
  function PythonOutcome<T, E>(d: Decoder<T, E>, lines: seq<string>): Outcome<T, E> {
    PythonFrom(d, FRESH, lines)
  }

  function PythonFrom<T, E>(d: Decoder<T, E>, s: Lines, lines: seq<string>): Outcome<T, E> {
    Reference(Effects(d, Steps(Python, s, lines).events), [])
  }

  lemma {:induction false} PythonStep<T, E>(d: Decoder<T, E>, s: Lines, line: string, rest: seq<string>)
    ensures var one := StepOf(Python)(s, line);
      PythonFrom(d, s, [line] + rest) ==
        if one.events == [] then PythonFrom(d, one.state, rest)
        else match EffectOf(d, one.events[0]) {
          case Nothing => PythonFrom(d, one.state, rest)
          case Emit(item) => Prepend([item], PythonFrom(d, one.state, rest))
          case Fail => Outcome([], ParseError)
          case Raise(e) => Outcome([], TrailerError(e)) }
  {
    var one := StepOf(Python)(s, line);
    var tail := Steps(Python, one.state, rest).events;
    RunCons(StepOf(Python), s, line, rest);
    if one.events == [] {
      assert [] + tail == tail;
    } else {
      assert one.events == [one.events[0]];
      EffectsConcat(d, one.events, tail);
      assert Effects(d, one.events) == [EffectOf(d, one.events[0])];
      AfterCons(EffectOf(d, one.events[0]), Effects(d, tail), [], false);
    }
  }

  /** The body of the loop, for one line. */
  method ParseLine<T, E>(d: Decoder<T, E>, line: string, flags: int, dataLines: seq<string>)
    returns (effect: Effect<T, E>, flags1: int, dataLines1: seq<string>)
    ensures var one := StepOf(Python)(Lines(flags, dataLines), line);
      && one.state == Lines(flags1, dataLines1)
      && effect == if one.events == [] then Nothing else EffectOf(d, one.events[0])
  {
    effect, flags1, dataLines1 := Nothing, flags, dataLines;
    if line == "" {
      if dataLines != [] {
        effect := EffectOf(d, Event(HasBit1(flags), Join(dataLines, "\n")));
        flags1, dataLines1 := 0, [];
      }
    } else if ":flags " <= line {
      match PyInt(line[7..])
      case Number(n) => flags1 := n;
      case NotANumber =>
    } else if ":" <= line {
    } else if "data: " <= line {
      dataLines1 := dataLines + [line[6..]];
    } else if "data:" <= line {
      dataLines1 := dataLines + [line[5..]];
    }
  }

  lemma KeepYielded<T, E>(items: seq<T>, effect: Effect<T, E>, rest: Outcome<T, E>)
    ensures effect.Emit? ==> Prepend(items, Prepend([effect.item], rest)) == Prepend(items + [effect.item], rest)
    ensures effect.Fail? ==> Prepend(items, Outcome([], ParseError)) == Outcome<T, E>.Outcome(items, ParseError)
    ensures effect.Raise?
      ==> Prepend(items, Outcome([], TrailerError(effect.error))) == Outcome(items, TrailerError(effect.error))
  {
    if effect.Emit? { Assoc(items, [effect.item], rest.items); }
    assert items + [] == items;
  }

  method ParseSseStream<T, E>(d: Decoder<T, E>, lines: seq<string>) returns (items: seq<T>, end: End<E>)
    ensures Outcome(items, end) == PythonOutcome(d, lines)
  {
    ghost var goal := PythonOutcome(d, lines);
    items, end := [], Done;
    var flags, dataLines := 0, [];
    assert Prepend([], goal) == goal by { assert [] + goal.items == goal.items; }
    ghost var done, left := [], lines;
    var i := 0;
    while i < |lines|
      invariant i == |done| && lines == done + left && end == Done
      invariant Prepend(items, PythonFrom(d, Lines(flags, dataLines), left)) == goal
    {
      NextElement(lines, done, left);
      PythonStep(d, Lines(flags, dataLines), lines[i], left[1..]);
      var effect;
      effect, flags, dataLines := ParseLine(d, lines[i], flags, dataLines);
      KeepYielded(items, effect, PythonFrom(d, Lines(flags, dataLines), left[1..]));
      match effect {
        case Nothing =>
        case Emit(item) => items := items + [item];
        case Fail => return items, ParseError;
        case Raise(e) => return items, TrailerError(e);
      }
      done, left := done + [lines[i]], left[1..];
      i := i + 1;
    }
    assert left == [];
    NothingLeft(d, Lines(flags, dataLines));
    assert items + [] == items;
  }

  lemma NothingLeft<T, E>(d: Decoder<T, E>, s: Lines)
    ensures PythonFrom(d, s, []) == Outcome([], Done)
  {
    var none: seq<Effect<T, E>> := [];
    assert [none][1..] == [] && Items(none) + [] == [];
  }

  // ---- agreement ----

  lemma BlankLeavesNoData(s: Lines, lines: seq<string>)
    requires lines != [] && lines[|lines| - 1] == ""
    ensures TsSteps(s, lines).state.data == []
  {
    var n := |lines| - 1;
    assert lines == lines[..n] + [""];
    StepAfter(s, lines[..n], "");
    NoCarriageReturn("");
  }

  /** A stream that ends with a blank line has nothing left at the end. */
  lemma NoEndEffects<T, E>(d: Decoder<T, E>, lines: seq<string>)
    requires (forall l | l in lines :: '\n' !in l) && (lines == [] || lines[|lines| - 1] == "")
    ensures Completed(Terminated(lines)) == lines && EndEffects(d, Terminated(lines)) == []
  {
    TerminatedIsComplete(lines);
    var s := TsSteps(FRESH, lines).state;
    if lines != [] { BlankLeavesNoData(FRESH, lines); }
    NothingToDispatch(s);
  }

  lemma TerminatedIsComplete(lines: seq<string>)
    requires forall l | l in lines :: '\n' !in l
    ensures Completed(Terminated(lines)) == lines && Remainder(Terminated(lines)) == ""
  {
    TerminatedSplits(lines, "");
    assert Terminated(lines) + "" == Terminated(lines);
    assert Split("", '\n') == [""];
  }

  lemma NothingToDispatch(s: Lines)
    requires s.data == []
    ensures TsSteps(s, LastLines("")).events == []
  {
    assert LastLines("") == [""];
    RunOne(StepOf(TypeScript), s, "");
    NoCarriageReturn("");
  }

  /** Both clients make the same of the events of a stream: of its messages and of its trailers. The
      tests they apply to a trailer differ, so that `ts` and `py` need not be equal. */
  ghost predicate DecodeAlike<T, E>(ts: Decoder<T, E>, py: Decoder<T, E>, events: seq<Event>) {
    Effects(ts, events) == Effects(py, events)
  }

  /** On lines that both read alike, ending with a blank one, and whose events both decode alike, the
      TypeScript client agrees with the Python client for every chunking exactly when the stream is
      stable. */
  lemma {:induction false} ClientsAgreeExactly<T, E>(ts: Decoder<T, E>, py: Decoder<T, E>, lines: seq<string>)
    requires forall l | l in lines :: CommonLine(l) && '\n' !in l
    requires lines == [] || lines[|lines| - 1] == ""
    requires DecodeAlike(ts, py, Steps(Python, FRESH, lines).events)
    ensures (forall chunks | Flatten(chunks) == Terminated(lines) :: Stream(ts, chunks) == PythonOutcome(py, lines))
      <==> Stable(Effects(py, Steps(Python, FRESH, lines).events))
  {
    NoEndEffects(ts, lines);
    StepsAgree(FRESH, lines);
    assert MainEffects(ts, Terminated(lines)) == Effects(py, Steps(Python, FRESH, lines).events);
    if Stable(Effects(py, Steps(Python, FRESH, lines).events)) {
      forall chunks | Flatten(chunks) == Terminated(lines)
        ensures Stream(ts, chunks) == PythonOutcome(py, lines)
      {
        ChunkingDoesNotMatter(ts, chunks);
      }
    } else {
      ChunkingDoesNotMatterExactly(ts, Terminated(lines));
    }
  }

  /** A stream of one trailer, which one client takes for an error and the other does not. */
  lemma {:induction false} TrailersDisagree<T, E>(ts: Decoder<T, E>, py: Decoder<T, E>, payload: string, error: E,
                                                  chunks: seq<string>)
    requires '\r' !in payload && ts.trailer(payload) == Fails(error) && py.trailer(payload) == Clear
    requires Flatten(chunks) == Terminated(FrameLines(Frame(2, payload)))
    ensures Stream(ts, chunks) == Outcome([], TrailerError(error))
    ensures PythonOutcome(py, FrameLines(Frame(2, payload))) == Outcome([], Done)
  {
    var f := Frame(2, payload);
    OneFrameIsCommon(f);
    OneFrame(TypeScript, f);
    OneFrame(Python, f);
    TerminatedIsComplete(FrameLines(f));
    OneTrailer(ts, payload);
    OneTrailer(py, payload);
    assert MainEffects(ts, Terminated(FrameLines(f))) == [Raise(error)];
    LoudTrailer<T, E>(error, EndEffects(ts, Terminated(FrameLines(f))));
    ChunkingDoesNotMatter(ts, chunks);
    QuietTrailer<T, E>();
  }

  lemma OneTrailer<T, E>(d: Decoder<T, E>, payload: string)
    ensures Effects(d, [Event(HasBit1(2), payload)])
      == match d.trailer(payload) { case Clear => [Nothing] case Fails(error) => [Raise(error)] }
  {
  }

  lemma LoudTrailer<T, E>(error: E, last: seq<Effect<T, E>>)
    ensures Stable<T, E>([Raise(error)]) && Reference<T, E>([Raise(error)], last) == Outcome([], TrailerError(error))
  {
  }

  lemma QuietTrailer<T, E>()
    ensures Reference<T, E>([Nothing], []) == Outcome([], Done)
  {
    var none: seq<Effect<T, E>> := [];
    assert [Effect<T, E>.Nothing][1..] == none && [none][1..] == [] && Items(none) + [] == [];
    assert Reference<T, E>([], []) == RunBatches<T, E>([none]);
  }

  lemma {:induction false} FrameLinesAreCommon(frames: seq<Frame>)
    requires forall f | f in frames :: '\r' !in f.payload
    ensures forall l | l in AllLines(frames) :: CommonLine(l) && '\n' !in l
    ensures AllLines(frames) == [] || AllLines(frames)[|AllLines(frames)| - 1] == ""
  {
    if frames != [] {
      assert frames[0] in frames && forall f | f in frames[1..] :: f in frames;
      FrameLinesAreCommon(frames[1..]);
      OneFrameIsCommon(frames[0]);
    }
  }

  lemma {:induction false} OneFrameIsCommon(f: Frame)
    requires '\r' !in f.payload
    ensures forall l | l in FrameLines(f) :: CommonLine(l) && '\n' !in l
    ensures FrameLines(f)[|FrameLines(f)| - 1] == ""
  {
    var flagLine, parts := ":flags " + Decimal.Print(f.flags), Split(f.payload, '\n');
    assert flagLine[7..] == Decimal.Print(f.flags);
    assert '\r' !in Decimal.Print(f.flags) && '\n' !in Decimal.Print(f.flags);
    NoCarriageReturn(flagLine);
    NoCarriageReturn("");
    SplitAvoids(f.payload, '\n', '\r');
    forall l | l in DataLines(parts)
      ensures CommonLine(l) && '\n' !in l
    {
      var i :| 0 <= i < |parts| && DataLines(parts)[i] == l;
      assert parts[i] in parts;
      NoCarriageReturn(l);
      assert l[0] == 'd';
    }
  }

  /** End to end: whatever was framed, both clients deliver it, for every chunking, as long as they
      decode it alike and the error trailer comes last. */
  lemma {:induction false} FramedPayloadsArrive<T, E>(ts: Decoder<T, E>, py: Decoder<T, E>, frames: seq<Frame>,
                                                      chunks: seq<string>)
    requires (forall f | f in frames :: '\r' !in f.payload) && Flatten(chunks) == Terminated(AllLines(frames))
    requires DecodeAlike(ts, py, EventsOf(frames)) && Stable(Effects(py, EventsOf(frames)))
    ensures Stream(ts, chunks) == PythonOutcome(py, AllLines(frames)) == Reference(Effects(py, EventsOf(frames)), [])
  {
    FrameLinesAreCommon(frames);
    FramingIsUndone(Python, frames);
    ClientsAgreeExactly(ts, py, AllLines(frames));
  }
}
