/** streamSSE and _parse_sse_stream: incremental decoding of an event stream that arrives in chunks. */
module EventStream {
  import opened Text
  import opened EventLines
  import opened EventBatches

  // ---- text and lines ----

  /** The lines of the text that are terminated, and what follows them. */
  function Completed(text: string): seq<string> { var parts := Split(text, '\n'); parts[..|parts| - 1] }

  function Remainder(text: string): string { var parts := Split(text, '\n'); parts[|parts| - 1] }

  /** A character put in front of a text lands in its first part. */
  lemma SplitPush(c: char, s: string)
    requires c != '\n'
    ensures Split([c] + s, '\n') == [[c] + Split(s, '\n')[0]] + Split(s, '\n')[1..]
  {
    assert ([c] + s)[1..] == s;
  }

  lemma {:induction false} PushMore(c: char, a: string, more: seq<string>)
    requires c != '\n' && |more| >= 1
    requires Split(a, '\n') != []
    ensures |Split(a, '\n')| > 1 ==>
      Completed([c] + a) == [[c] + Completed(a)[0]] + Completed(a)[1..] && Remainder([c] + a) == Remainder(a)
    ensures |Split(a, '\n')| == 1
      ==> Completed([c] + a) == [] && Remainder([c] + a) == [c] + Remainder(a) && Completed(a) == []
  {
    SplitPush(c, a);
  }

  lemma FirstOfSum(x: string, a: seq<string>, more: seq<string>)
    requires a != []
    ensures [x + (a + more)[0]] + (a + more)[1..] == ([x + a[0]] + a[1..]) + more
  {
  }

  lemma {:induction false} SplitMore(a: string, b: string)
    ensures Split(a + b, '\n') == Completed(a) + Split(Remainder(a) + b, '\n')
  {
    if a == "" {
      assert a + b == b && "" + b == b;
    } else {
      var c, a1 := a[0], a[1..];
      var more := Split(Remainder(a1) + b, '\n');
      SplitMore(a1, b);
      assert a + b == [c] + (a1 + b) && a == [c] + a1;
      if c == '\n' {
        assert ([c] + (a1 + b))[1..] == a1 + b;
        assert Completed(a) == [""] + Completed(a1) && Remainder(a) == Remainder(a1);
        Assoc([""], Completed(a1), more);
      } else {
        SplitPush(c, a1 + b);
        PushMore(c, a1, more);
        if |Split(a1, '\n')| == 1 {
          assert [] + more == more;
          Assoc([c], Remainder(a1), b);
          SplitPush(c, Remainder(a1) + b);
        } else {
          FirstOfSum([c], Completed(a1), more);
        }
      }
    }
  }

  lemma {:induction false} CompletedMore(a: string, b: string)
    ensures Completed(a + b) == Completed(a) + Completed(Remainder(a) + b)
    ensures Remainder(a + b) == Remainder(Remainder(a) + b)
  {
    SplitMore(a, b);
  }

  /** The lines each chunk completes, given what was left over before it. */
  function LineBatches(buffer: string, chunks: seq<string>): seq<seq<string>>
    decreases |chunks|
  {
    if chunks == [] then []
    else [Completed(buffer + chunks[0])] + LineBatches(Remainder(buffer + chunks[0]), chunks[1..])
  }

  function BufferAfter(buffer: string, chunks: seq<string>): string
    decreases |chunks|
  {
    if chunks == [] then buffer else BufferAfter(Remainder(buffer + chunks[0]), chunks[1..])
  }

  /** Lines processed plus the buffer are the text so far, and the buffer holds no newline. */
  lemma {:induction false} NothingIsLost(buffer: string, chunks: seq<string>)
    requires '\n' !in buffer
    ensures Flatten(LineBatches(buffer, chunks)) == Completed(buffer + Flatten(chunks))
    ensures BufferAfter(buffer, chunks) == Remainder(buffer + Flatten(chunks)) && '\n' !in BufferAfter(buffer, chunks)
    decreases |chunks|
  {
    if chunks == [] {
      assert buffer + [] == buffer;
      SplitWhole(buffer, '\n');
    } else {
      var text := buffer + chunks[0];
      assert Remainder(text) in Split(text, '\n');
      NothingIsLost(Remainder(text), chunks[1..]);
      CompletedMore(text, Flatten(chunks[1..]));
      Assoc(buffer, chunks[0], Flatten(chunks[1..]));
    }
  }

  /** At the end of the stream a non-empty buffer is a line, and a blank line follows. */
  function LastLines(buffer: string): seq<string> { (if buffer != "" then [buffer] else []) + [""] }

  // ---- effects ----

  function TsSteps(s: Lines, lines: seq<string>): Stepped { Steps(TypeScript, s, lines) }

  function EffectBatches<T, E>(d: Decoder<T, E>, s: Lines, batches: seq<seq<string>>): seq<seq<Effect<T, E>>>
    decreases |batches|
  {
    if batches == [] then []
    else
      var r := TsSteps(s, batches[0]);
      [Effects(d, r.events)] + EffectBatches(d, r.state, batches[1..])
  }

  lemma BatchesCons<T, E>(d: Decoder<T, E>, s: Lines, batch: seq<string>, rest: seq<seq<string>>)
    ensures var r := TsSteps(s, batch);
      EffectBatches(d, s, [batch] + rest) == [Effects(d, r.events)] + EffectBatches(d, r.state, rest)
  {
    assert ([batch] + rest)[1..] == rest;
  }

  lemma {:induction false} EffectsOfBatches<T, E>(d: Decoder<T, E>, s: Lines, batches: seq<seq<string>>,
                                                  last: seq<string>)
    ensures var r := TsSteps(s, Flatten(batches));
      && Flatten(EffectBatches(d, s, batches)) == Effects(d, r.events)
      && EffectBatches(d, s, batches + [last])
        == EffectBatches(d, s, batches) + [Effects(d, TsSteps(r.state, last).events)]
    decreases |batches|
  {
    if batches == [] {
      assert batches + [last] == [last] && [last][1..] == [];
    } else {
      var first := TsSteps(s, batches[0]);
      var tail := batches[1..];
      EffectsOfBatches(d, first.state, tail, last);
      ConsConcat(batches, [last]);
      BatchesCons(d, s, batches[0], tail + [last]);
      RunConcat(StepOf(TypeScript), s, batches[0], Flatten(tail));
      EffectsConcat(d, first.events, TsSteps(first.state, Flatten(tail)).events);
      Assoc([Effects(d, first.events)], EffectBatches(d, first.state, tail),
            [Effects(d, TsSteps(TsSteps(first.state, Flatten(tail)).state, last).events)]);
    }
  }

  /** What the client yields, and how it ends, for the chunks of a stream. */
  function Stream<T, E>(d: Decoder<T, E>, chunks: seq<string>): Outcome<T, E> {
    RunBatches(EffectBatches(d, FRESH, LineBatches("", chunks) + [LastLines(BufferAfter("", chunks))]))
  }

  /** The events of the terminated lines, and the one the end of the stream may add. */
  function MainEffects<T, E>(d: Decoder<T, E>, text: string): seq<Effect<T, E>> {
    Effects(d, TsSteps(FRESH, Completed(text)).events)
  }

  function EndEffects<T, E>(d: Decoder<T, E>, text: string): seq<Effect<T, E>> {
    Effects(d, TsSteps(TsSteps(FRESH, Completed(text)).state, LastLines(Remainder(text))).events)
  }

  lemma {:induction false} StreamInBatches<T, E>(d: Decoder<T, E>, chunks: seq<string>)
    ensures var text, batches := Flatten(chunks), EffectBatches(d, FRESH, LineBatches("", chunks));
      && Flatten(batches) == MainEffects(d, text)
      && Stream(d, chunks) == RunBatches(batches + [EndEffects(d, text)])
  {
    NothingIsLost("", chunks);
    assert "" + Flatten(chunks) == Flatten(chunks);
    EffectsOfBatches(d, FRESH, LineBatches("", chunks), LastLines(BufferAfter("", chunks)));
  }

  /** Incremental decoding: every chunking of a stable text has the outcome of its events taken one
      at a time. */
  lemma {:induction false} ChunkingDoesNotMatter<T, E>(d: Decoder<T, E>, chunks: seq<string>)
    requires Stable(MainEffects(d, Flatten(chunks)))
    ensures Stream(d, chunks) == Reference(MainEffects(d, Flatten(chunks)), EndEffects(d, Flatten(chunks)))
  {
    StreamInBatches(d, chunks);
    BatchingDoesNotMatter(EffectBatches(d, FRESH, LineBatches("", chunks)), EndEffects(d, Flatten(chunks)), false);
  }

  // ---- cutting after a given event ----

  function Terminated(lines: seq<string>): string {
    if lines == [] then "" else lines[0] + "\n" + Terminated(lines[1..])
  }

  lemma {:induction false} TerminatedSplits(lines: seq<string>, tail: string)
    requires forall l | l in lines :: '\n' !in l
    ensures Split(Terminated(lines) + tail, '\n') == lines + Split(tail, '\n')
  {
    if lines == [] {
      assert "" + tail == tail && [] + Split(tail, '\n') == Split(tail, '\n');
    } else {
      assert lines[0] in lines && forall l | l in lines[1..] :: l in lines;
      TerminatedSplits(lines[1..], tail);
      assert Terminated(lines) + tail == lines[0] + ['\n'] + (Terminated(lines[1..]) + tail);
      SplitSum(lines[0], '\n', Terminated(lines[1..]) + tail);
      SplitWhole(lines[0], '\n');
      Assoc([lines[0]], lines[1..], Split(tail, '\n'));
      assert [lines[0]] + lines[1..] == lines;
    }
  }

  lemma {:induction false} TextIsItsLines(text: string)
    ensures text == Terminated(Completed(text)) + Remainder(text)
    ensures (forall l | l in Completed(text) :: '\n' !in l) && '\n' !in Remainder(text)
  {
    var parts := Split(text, '\n');
    assert Remainder(text) in parts && forall l | l in Completed(text) :: l in parts;
    SplitWhole(Remainder(text), '\n');
    TerminatedSplits(Completed(text), Remainder(text));
    assert Completed(text) + [Remainder(text)] == parts;
    JoinAfterSplit(text, '\n');
    JoinAfterSplit(Terminated(Completed(text)) + Remainder(text), '\n');
  }

  lemma {:induction false} TerminatedConcat(a: seq<string>, b: seq<string>)
    ensures Terminated(a + b) == Terminated(a) + Terminated(b)
  {
    if a == [] {
      assert a + b == b;
    } else {
      TerminatedConcat(a[1..], b);
      assert (a + b)[1..] == a[1..] + b;
      Assoc(a[0] + "\n", Terminated(a[1..]), Terminated(b));
    }
  }

  lemma AtMostOneEvent(s: Lines, line: string)
    ensures |StepOf(TypeScript)(s, line).events| <= 1
  {
  }

  /** Since a line dispatches at most one event, some number of lines makes exactly `i` events. */
  lemma {:induction false} LinesForEvents(s: Lines, lines: seq<string>, i: nat) returns (n: nat)
    requires i <= |TsSteps(s, lines).events|
    ensures n <= |lines| && |TsSteps(s, lines[..n]).events| == i
    decreases |lines|
  {
    if i == 0 {
      n := 0;
      assert lines[..0] == [];
    } else {
      var first := StepOf(TypeScript)(s, lines[0]);
      AtMostOneEvent(s, lines[0]);
      var m := LinesForEvents(first.state, lines[1..], i - |first.events|);
      n := m + 1;
      assert lines[..n] == [lines[0]] + lines[1..][..m];
      RunCons(StepOf(TypeScript), s, lines[0], lines[1..][..m]);
    }
  }

  /** Cutting a text after its first `n` lines. */
  lemma {:induction false} CutText(text: string, n: nat) returns (p: string, r: string)
    requires n <= |Completed(text)|
    ensures p + r == text && Completed(p) == Completed(text)[..n] && Remainder(p) == ""
    ensures Completed(r) == Completed(text)[n..]
  {
    var lines := Completed(text);
    p, r := Terminated(lines[..n]), Terminated(lines[n..]) + Remainder(text);
    TextIsItsLines(text);
    assert lines == lines[..n] + lines[n..];
    assert (forall l | l in lines[..n] :: l in lines) && forall l | l in lines[n..] :: l in lines;
    TerminatedConcat(lines[..n], lines[n..]);
    Assoc(p, Terminated(lines[n..]), Remainder(text));
    TerminatedSplits(lines[..n], "");
    assert p + "" == p;
    TerminatedSplits(lines[n..], Remainder(text));
    SplitWhole(Remainder(text), '\n');
  }

  /** Cutting the text after those lines cuts the events after the first `i`. */
  lemma {:induction false} CutIsRealised<T, E>(d: Decoder<T, E>, text: string, i: nat) returns (chunks: seq<string>)
    requires i <= |MainEffects(d, text)|
    ensures Flatten(chunks) == text
    ensures Stream(d, chunks) == CutOnce(MainEffects(d, text), EndEffects(d, text), i)
  {
    var lines := Completed(text);
    var n := LinesForEvents(FRESH, lines, i);
    var p, r := CutText(text, n);
    chunks := [p, r];
    FlattenTwo(p, r);
    TwoLineBatches(p, r);
    StreamInBatches(d, chunks);
    assert lines == lines[..n] + lines[n..];
    TwoEffectBatches(d, lines[..n], lines[n..]);
    ThreeBatches(MainEffects(d, text), EndEffects(d, text), i);
  }

  lemma ThreeBatches<X>(all: seq<X>, last: seq<X>, i: nat)
    requires i <= |all|
    ensures [all[..i], all[i..]] + [last] == [all[..i], all[i..], last]
  {
  }

  lemma FlattenTwo<X>(a: seq<X>, b: seq<X>)
    ensures Flatten([a, b]) == a + b
  {
    assert [a, b][1..] == [b] && [b][1..] == [];
    assert Flatten([b]) == b + [];
    assert b + [] == b;
  }

  lemma TwoLineBatches(p: string, r: string)
    requires Remainder(p) == ""
    ensures LineBatches("", [p, r]) == [Completed(p), Completed(r)]
  {
    assert [p, r][1..] == [r] && [r][1..] == [];
    assert "" + p == p && "" + r == r;
    assert LineBatches("", [r]) == [Completed(r)] + [];
    assert [Completed(p)] + ([Completed(r)] + []) == [Completed(p), Completed(r)];
  }

  lemma TwoEffectBatches<T, E>(d: Decoder<T, E>, a: seq<string>, b: seq<string>)
    ensures var x := TsSteps(FRESH, a);
      var all := Effects(d, TsSteps(FRESH, a + b).events);
      && |x.events| <= |all|
      && EffectBatches(d, FRESH, [a, b]) == [all[..|x.events|], all[|x.events|..]]
  {
    var x := TsSteps(FRESH, a);
    var y := TsSteps(x.state, b);
    assert [a, b][1..] == [b] && [b][1..] == [];
    RunConcat(StepOf(TypeScript), FRESH, a, b);
    EffectsConcat(d, x.events, y.events);
    assert EffectBatches(d, x.state, [b]) == [Effects(d, y.events)] + [];
    assert [Effects(d, x.events)] + ([Effects(d, y.events)] + []) == [Effects(d, x.events), Effects(d, y.events)];
  }

  ghost predicate AllChunkingsAgree<T, E>(d: Decoder<T, E>, text: string) {
    forall a, b | Flatten(a) == text && Flatten(b) == text :: Stream(d, a) == Stream(d, b)
  }

  /** The outcome is independent of the chunking exactly for the stable texts. */
  lemma {:induction false} ChunkingDoesNotMatterExactly<T, E>(d: Decoder<T, E>, text: string)
    ensures AllChunkingsAgree(d, text) <==> Stable(MainEffects(d, text))
  {
    if Stable(MainEffects(d, text)) {
      forall a, b | Flatten(a) == text && Flatten(b) == text
        ensures Stream(d, a) == Stream(d, b)
      {
        ChunkingDoesNotMatter(d, a);
        ChunkingDoesNotMatter(d, b);
      }
    } else {
      var effects, end := MainEffects(d, text), EndEffects(d, text);
      UnstableDependsOnCuts(effects, end);
      var i, j :| 0 <= i <= |effects| && 0 <= j <= |effects| && CutOnce(effects, end, i) != CutOnce(effects, end, j);
      var a := CutIsRealised(d, text, i);
      var b := CutIsRealised(d, text, j);
    }
  }
}
