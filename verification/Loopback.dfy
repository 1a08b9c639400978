/** The loopback transport of loopback.go as a labelled transition system.

    Three actors share one call: the goroutine that runs the handler and then its five
    deferred functions, the caller inside `RoundTrip`, and whoever reads the response body.
    They meet through the channels `ready` and `done`, an unbuffered pipe and the request's
    context. A `Step` names one atomic action; a run is any sequence of enabled steps. */
module Loopback {
  /** A finite handler. Only a body write can fail, so only a write branches. */
  datatype Handler =
    | Return
    | Panic
    | SetHeader(key: string, value: string, next: Handler)
    | WriteHeader(code: int, next: Handler)
    | Flush(next: Handler)
    | Write(data: string, onOk: Handler, onError: Handler)

  /** The first error given to one side of the pipe, `Unset` while there is none. */
  datatype PipeError = Unset | EndOfFile | ClosedPipe | Cancelled

  /** Where the handler's goroutine stands. `Publishing` is the inside of `once.Do`, after the
      status is stored and before `ready` is closed; `InPipeWrite` is a blocked pipe write. */
  datatype Pc =
    | Running(handler: Handler)
    | Publishing(next: Pc)
    | InPipeWrite(rest: string, ok: Pc, failed: Pc)
    | Recovering
    | TearingDown
    | ErrorHeader
    | ErrorStatus
    | ClosingRequest
    | FlushingHeaders
    | ClosingPipe
    | ClosingDone
    | Finished

  /** Where `RoundTrip` stands. */
  datatype Caller = Selecting | Cancelling | AwaitingDone | BuildingResponse | Failed | Responded(code: int)

  /** loopbackResponseWriter: `once` says that once.Do was entered, `ready` that the channel is closed. */
  datatype Writer = Writer(once: bool, status: int, ready: bool, header: map<string, string>)

  datatype Pipe = Pipe(readErr: PipeError, writeErr: PipeError) {
    predicate Closed() { readErr != Unset || writeErr != Unset }
    function CloseRead(e: PipeError): Pipe { if readErr == Unset then Pipe(e, writeErr) else this }
    function CloseWrite(e: PipeError): Pipe { if writeErr == Unset then Pipe(readErr, e) else this }
  }

  /** The reader of the response body: the bytes it has, how its reads ended, whether it closed. */
  datatype Reader = Reader(got: string, sawEof: bool, sawError: bool, closed: bool)

  datatype State = State(
    pc: Pc,
    writer: Writer,
    pipe: Pipe,
    hasRequestBody: bool,
    requestClosed: bool,
    done: bool,            // the done channel is closed
    cancelled: bool,       // the context is done
    caller: Caller,
    reader: Reader)

  const STATUS_OK := 200
  const STATUS_INTERNAL_ERROR := 500
  const ERROR_BODY := "internal server error\n"

  function Init(h: Handler, hasRequestBody: bool): State {
    State(Running(h), Writer(false, 0, false, map[]), Pipe(Unset, Unset), hasRequestBody, false,
          false, false, Selecting, Reader("", false, false, false))
  }

  datatype Step =
    | Go                     // the handler's goroutine
    | SelectReady            // RoundTrip's select takes <-rw.ready
    | SelectCancelled        // RoundTrip's select takes <-ctx.Done()
    | CallerStep             // RoundTrip's straight-line code
    | Cancel                 // the context is cancelled
    | Read(n: nat)           // one Read of the response body with an n-byte buffer
    | CloseBody

  predicate Enabled(s: State, step: Step) {
    match step
    case Go => !s.pc.Finished? && (s.pc.InPipeWrite? ==> s.pipe.Closed())
    case SelectReady => s.caller.Selecting? && s.writer.ready
    case SelectCancelled => s.caller.Selecting? && s.cancelled
    case CallerStep =>
      s.caller.Cancelling? || (s.caller.AwaitingDone? && s.done) || s.caller.BuildingResponse?
    case Cancel => !s.cancelled
    case Read(_) => s.caller.Responded? && (s.pipe.Closed() || s.pc.InPipeWrite?)
    case CloseBody => s.caller.Responded?
  }

  /** sync.Once around "store the status, then close ready". */
  function Publish(s: State, code: int, next: Pc): State {
    if s.writer.once then s.(pc := next)
    else s.(writer := s.writer.(once := true, status := code), pc := Publishing(next))
  }

  function AddHeader(s: State, key: string, value: string, next: Pc): State {
    s.(writer := s.writer.(header := s.writer.header[key := value]), pc := next)
  }

  function RunHandler(s: State, h: Handler): State {
    match h
    case Return => s.(pc := ClosingRequest)
    case Panic => s.(pc := Recovering)
    case SetHeader(k, v, next) => AddHeader(s, k, v, Running(next))
    case WriteHeader(code, next) => Publish(s, code, Running(next))
    case Flush(next) => Publish(s, STATUS_OK, Running(next))
    case Write(data, ok, failed) => Publish(s, STATUS_OK, InPipeWrite(data, Running(ok), Running(failed)))
  }

  /** One step of the handler's goroutine: the handler, then the defers in LIFO order. */
  function GoStep(s: State): State
    requires Enabled(s, Go)
  {
    match s.pc
    case Running(h) => RunHandler(s, h)
    case Publishing(next) => s.(writer := s.writer.(ready := true), pc := next)
    case InPipeWrite(_, _, failed) => s.(pc := failed)
    case Recovering => s.(pc := if s.writer.ready then TearingDown else ErrorHeader)
    case TearingDown => s.(pipe := s.pipe.CloseWrite(ClosedPipe), pc := ClosingRequest)
    case ErrorHeader => AddHeader(s, "Content-Type", "text/plain; charset=utf-8", ErrorStatus)
    case ErrorStatus => Publish(s, STATUS_INTERNAL_ERROR, InPipeWrite(ERROR_BODY, ClosingRequest, ClosingRequest))
    case ClosingRequest => s.(requestClosed := s.requestClosed || s.hasRequestBody, pc := FlushingHeaders)
    case FlushingHeaders => Publish(s, STATUS_OK, ClosingPipe)
    case ClosingPipe => s.(pipe := s.pipe.CloseWrite(EndOfFile), pc := ClosingDone)
    case ClosingDone => s.(done := true, pc := Finished)
  }

  /** cmp.Or(rw.status, http.StatusOK) */
  function ResponseCode(status: int): int { if status == 0 then STATUS_OK else status }

  function CallerNext(s: State): State
    requires Enabled(s, CallerStep)
  {
    match s.caller
    case Cancelling => s.(pipe := s.pipe.CloseRead(Cancelled), caller := AwaitingDone)
    case AwaitingDone => s.(caller := Failed)
    case BuildingResponse => s.(caller := Responded(ResponseCode(s.writer.status)))
  }

  /** An n-byte read meets the blocked write; the write returns once nothing is left of it. */
  function Deliver(s: State, n: nat): State
    requires s.pc.InPipeWrite?
  {
    var k := if n < |s.pc.rest| then n else |s.pc.rest|;
    var rest := s.pc.rest[k..];
    s.(reader := s.reader.(got := s.reader.got + s.pc.rest[..k]),
       pc := if rest == "" then s.pc.ok else InPipeWrite(rest, s.pc.ok, s.pc.failed))
  }

  /** A read of a closed pipe: io.EOF only when no error was given to the reading side. */
  function ReadClosed(r: Reader, p: Pipe): Reader {
    if p.readErr == Unset && p.writeErr == EndOfFile then r.(sawEof := true) else r.(sawError := true)
  }

  function Apply(s: State, step: Step): State
    requires Enabled(s, step)
  {
    match step
    case Go => GoStep(s)
    case SelectReady => s.(caller := BuildingResponse)
    case SelectCancelled => s.(caller := Cancelling)
    case CallerStep => CallerNext(s)
    case Cancel => s.(cancelled := true)
    case Read(n) => if s.pipe.Closed() then s.(reader := ReadClosed(s.reader, s.pipe)) else Deliver(s, n)
    case CloseBody => s.(pipe := s.pipe.CloseRead(ClosedPipe), reader := s.reader.(closed := true))
  }

  // ---- runs ----

  predicate IsRun(s: State, steps: seq<Step>)
    decreases |steps|
  {
    steps == [] || (Enabled(s, steps[0]) && IsRun(Apply(s, steps[0]), steps[1..]))
  }

  function Exec(s: State, steps: seq<Step>): State
    requires IsRun(s, steps)
    decreases |steps|
  {
    if steps == [] then s else Exec(Apply(s, steps[0]), steps[1..])
  }

  // ---- what a handler means, read sequentially ----

  /** The body of the response when every write is consumed. */
  function Body(h: Handler, sent: bool): string {
    match h
    case Return => ""
    case Panic => if sent then "" else ERROR_BODY
    case SetHeader(_, _, next) => Body(next, sent)
    case WriteHeader(_, next) => Body(next, true)
    case Flush(next) => Body(next, true)
    case Write(data, ok, _) => data + Body(ok, true)
  }

  /** Whether that body ends cleanly: no panic after the headers are out. */
  predicate Clean(h: Handler, sent: bool) {
    match h
    case Return => true
    case Panic => !sent
    case SetHeader(_, _, next) => Clean(next, sent)
    case WriteHeader(_, next) => Clean(next, true)
    case Flush(next) => Clean(next, true)
    case Write(_, ok, _) => Clean(ok, true)
  }

  /** The status of the first WriteHeader, Write or Flush; 500 for an earlier panic, 200 for silence. */
  function FirstStatus(h: Handler): int {
    match h
    case Return => STATUS_OK
    case Panic => STATUS_INTERNAL_ERROR
    case SetHeader(_, _, next) => FirstStatus(next)
    case WriteHeader(code, _) => code
    case Flush(_) => STATUS_OK
    case Write(_, _, _) => STATUS_OK
  }

  // ---- the invariant ----

  /** What the goroutine still owes the reader, if every write from here on is consumed. */
  function Owed(pc: Pc, sent: bool): string {
    match pc
    case Running(h) => Body(h, sent)
    case Publishing(next) => Owed(next, true)
    case InPipeWrite(rest, ok, _) => rest + Owed(ok, true)
    case Recovering => if sent then "" else ERROR_BODY
    case ErrorHeader => ERROR_BODY
    case ErrorStatus => ERROR_BODY
    case _ => ""
  }

  predicate WillBeClean(pc: Pc, sent: bool, writeErr: PipeError) {
    match pc
    case Running(h) => Clean(h, sent)
    case Publishing(next) => WillBeClean(next, true, writeErr)
    case InPipeWrite(_, ok, _) => WillBeClean(ok, true, writeErr)
    case Recovering => !sent
    case TearingDown => false
    case _ => writeErr != ClosedPipe
  }

  /** The status the goroutine is going to publish, when none is published yet. */
  function NextStatus(pc: Pc): int {
    match pc
    case Running(h) => FirstStatus(h)
    case Recovering => STATUS_INTERNAL_ERROR
    case ErrorHeader => STATUS_INTERNAL_ERROR
    case ErrorStatus => STATUS_INTERNAL_ERROR
    case _ => STATUS_OK
  }

  predicate Resumable(pc: Pc) { pc.Running? || pc.ClosingRequest? }

  predicate IsPipeWrite(pc: Pc) {
    pc.InPipeWrite? && Resumable(pc.ok) && Resumable(pc.failed)
  }

  predicate WellNested(pc: Pc) {
    (pc.InPipeWrite? ==> IsPipeWrite(pc)) &&
    (pc.Publishing? ==> pc.next.Running? || IsPipeWrite(pc.next) || pc.next.ClosingPipe?)
  }

  predicate AfterRequestClose(pc: Pc) {
    pc.FlushingHeaders? || (pc.Publishing? && pc.next.ClosingPipe?) || pc.ClosingPipe? || AfterPipeClose(pc)
  }

  predicate AfterPipeClose(pc: Pc) { pc.ClosingDone? || pc.Finished? }

  predicate NeedsReady(pc: Pc) {
    pc.InPipeWrite? || pc.TearingDown? || pc.ClosingPipe? || AfterPipeClose(pc)
  }

  /** Which flags of the writer go with which program points. */
  predicate WriterInv(pc: Pc, w: Writer) {
    && WellNested(pc)
    && (w.ready ==> w.once)
    && (pc.Publishing? <==> w.once && !w.ready)
    && (NeedsReady(pc) ==> w.ready)
    && (pc.ErrorHeader? || pc.ErrorStatus? ==> !w.once)
  }

  predicate PipeInv(pc: Pc, p: Pipe) {
    && (AfterPipeClose(pc) ==> p.writeErr != Unset)
    && (p.writeErr == EndOfFile ==> AfterPipeClose(pc))
    && (p.writeErr == ClosedPipe ==> pc.ClosingRequest? || AfterRequestClose(pc))
    && p.writeErr != Cancelled
  }

  predicate ControlInv(s: State) {
    && WriterInv(s.pc, s.writer)
    && PipeInv(s.pc, s.pipe)
    && (AfterRequestClose(s.pc) && s.hasRequestBody ==> s.requestClosed)
    && (s.done <==> s.pc.Finished?)
  }

  predicate CallerInv(s: State) {
    && (s.caller.Failed? ==> s.done)
    && (s.caller.BuildingResponse? || s.caller.Responded? ==> s.writer.ready)
    && (s.reader != Reader("", false, false, false) ==> s.caller.Responded?)
    && (s.pipe.readErr != Unset <==> s.reader.closed || s.caller.AwaitingDone? || s.caller.Failed?)
  }

  /** The published status is the handler's. */
  predicate StatusInv(s: State, h: Handler) {
    && (if s.writer.once then s.writer.status else NextStatus(s.pc)) == FirstStatus(h)
    && (s.caller.Responded? ==> s.caller.code == ResponseCode(FirstStatus(h)))
  }

  /** Data: the body follows the sequential meaning of the handler. */
  predicate BodyInv(s: State, h: Handler) {
    && s.reader.got <= Body(h, false)
    && (s.pipe.readErr == Unset ==> s.reader.got + Owed(s.pc, s.writer.once) == Body(h, false)
                                    && WillBeClean(s.pc, s.writer.once, s.pipe.writeErr) == Clean(h, false))
    && (s.reader.sawEof ==> s.pipe.writeErr == EndOfFile && s.reader.got == Body(h, false) && Clean(h, false))
  }

  predicate Inv(s: State, h: Handler) {
    ControlInv(s) && CallerInv(s) && StatusInv(s, h) && BodyInv(s, h)
  }

  lemma {:induction false} HandlerKeepsControl(s: State)
    requires ControlInv(s) && s.pc.Running?
    ensures ControlInv(GoStep(s))
  {
    match s.pc.handler
    case Return =>
    case Panic =>
    case SetHeader(_, _, _) =>
    case WriteHeader(_, _) =>
    case Flush(_) =>
    case Write(_, _, _) =>
  }

  lemma {:induction false} DefersKeepControl(s: State)
    requires ControlInv(s) && Enabled(s, Go) && !s.pc.Running?
    ensures ControlInv(GoStep(s))
  {
    match s.pc
    case Publishing(_) =>
    case InPipeWrite(_, _, _) =>
    case Recovering =>
    case TearingDown =>
    case ErrorHeader =>
    case ErrorStatus =>
    case ClosingRequest =>
    case FlushingHeaders =>
    case ClosingPipe =>
    case ClosingDone =>
  }

  lemma {:induction false} GoKeepsCaller(s: State)
    requires ControlInv(s) && CallerInv(s) && Enabled(s, Go)
    ensures CallerInv(GoStep(s))
  {
  }

  lemma {:induction false} GoKeepsStatus(s: State, h: Handler)
    requires ControlInv(s) && StatusInv(s, h) && Enabled(s, Go)
    ensures StatusInv(GoStep(s), h)
  {
  }

  lemma {:induction false} HandlerKeepsOwed(s: State)
    requires ControlInv(s) && s.pc.Running?
    ensures var t := GoStep(s);
            Owed(t.pc, t.writer.once) == Owed(s.pc, s.writer.once)
            && WillBeClean(t.pc, t.writer.once, t.pipe.writeErr) == WillBeClean(s.pc, s.writer.once, s.pipe.writeErr)
  {
    match s.pc.handler
    case Return =>
    case Panic =>
    case SetHeader(_, _, _) =>
    case WriteHeader(_, _) =>
    case Flush(_) =>
    case Write(data, ok, failed) =>
      var write := InPipeWrite(data, Running(ok), Running(failed));
      assert Owed(write, true) == data + Owed(Running(ok), true);
      assert WillBeClean(write, true, s.pipe.writeErr) == Clean(ok, true);
  }

  lemma {:induction false} DefersKeepOwed(s: State)
    requires ControlInv(s) && Enabled(s, Go) && !s.pc.Running? && s.pipe.readErr == Unset
    ensures var t := GoStep(s);
            Owed(t.pc, t.writer.once) == Owed(s.pc, s.writer.once)
            && WillBeClean(t.pc, t.writer.once, t.pipe.writeErr) == WillBeClean(s.pc, s.writer.once, s.pipe.writeErr)
  {
    if s.pc.ErrorStatus? {
      var write := InPipeWrite(ERROR_BODY, ClosingRequest, ClosingRequest);
      assert Owed(write, true) == ERROR_BODY + Owed(ClosingRequest, true);
      assert WillBeClean(write, true, s.pipe.writeErr) == WillBeClean(ClosingRequest, true, s.pipe.writeErr);
    }
  }

  lemma {:induction false} SplitConcat(got: string, rest: string, owed: string, k: nat)
    requires k <= |rest|
    ensures (got + rest[..k]) + (rest[k..] + owed) == got + (rest + owed)
    ensures rest[k..] == "" ==> (got + rest[..k]) + owed == got + (rest + owed)
  {
    assert rest == rest[..k] + rest[k..];
  }

  lemma {:induction false} PrefixOfSum(a: string, b: string, sum: string)
    requires a + b == sum
    ensures a <= sum
  {
  }

  lemma {:induction false} DeliverKeepsBody(s: State, n: nat, h: Handler)
    requires WellNested(s.pc) && BodyInv(s, h) && s.writer.once
    requires s.pc.InPipeWrite? && !s.pipe.Closed()
    ensures BodyInv(Deliver(s, n), h)
  {
    var k := if n < |s.pc.rest| then n else |s.pc.rest|;
    var t := Deliver(s, n);
    SplitConcat(s.reader.got, s.pc.rest, Owed(s.pc.ok, true), k);
    assert t.reader.got + Owed(t.pc, true) == Body(h, false);
    PrefixOfSum(t.reader.got, Owed(t.pc, true), Body(h, false));
  }

  lemma {:induction false} GoKeepsInv(s: State, h: Handler)
    requires Inv(s, h) && Enabled(s, Go)
    ensures Inv(GoStep(s), h)
  {
    if s.pc.Running? { HandlerKeepsControl(s); } else { DefersKeepControl(s); }
    GoKeepsCaller(s);
    GoKeepsStatus(s, h);
    if s.pipe.readErr == Unset {
      if s.pc.Running? { HandlerKeepsOwed(s); } else { DefersKeepOwed(s); }
    }
    GoKeepsReader(s);
  }

  /** Only reads move bytes, and an EOF is only ever observed once the goroutine closed the pipe. */
  lemma {:induction false} GoKeepsReader(s: State)
    requires PipeInv(s.pc, s.pipe) && Enabled(s, Go)
    ensures GoStep(s).reader == s.reader && GoStep(s).pipe.readErr == s.pipe.readErr
    ensures s.pipe.writeErr == EndOfFile ==> GoStep(s).pipe == s.pipe
  {
    if s.pipe.writeErr == EndOfFile { GoKeepsClosedPipe(s); }
  }

  lemma {:induction false} GoKeepsClosedPipe(s: State)
    requires PipeInv(s.pc, s.pipe) && Enabled(s, Go) && s.pipe.writeErr == EndOfFile
    ensures GoStep(s).pipe == s.pipe
  {
  }

  lemma {:induction false} ReadKeepsInv(s: State, n: nat, h: Handler)
    requires Inv(s, h) && Enabled(s, Read(n))
    ensures Inv(Apply(s, Read(n)), h)
  {
    if !s.pipe.Closed() { DeliverKeepsBody(s, n, h); }
  }

  lemma {:induction false} CallerKeepsInv(s: State, step: Step, h: Handler)
    requires Inv(s, h) && Enabled(s, step) && !step.Go? && !step.Read?
    ensures Inv(Apply(s, step), h)
  {
  }

  lemma {:induction false} StepKeepsInv(s: State, step: Step, h: Handler)
    requires Inv(s, h) && Enabled(s, step)
    ensures Inv(Apply(s, step), h)
  {
    match step
    case Go => GoKeepsInv(s, h);
    case Read(n) => ReadKeepsInv(s, n, h);
    case _ => CallerKeepsInv(s, step, h);
  }

  lemma {:induction false} RunKeepsInv(s: State, steps: seq<Step>, h: Handler)
    requires Inv(s, h) && IsRun(s, steps)
    ensures Inv(Exec(s, steps), h)
    decreases |steps|
  {
    if steps != [] {
      StepKeepsInv(s, steps[0], h);
      RunKeepsInv(Apply(s, steps[0]), steps[1..], h);
    }
  }

  lemma {:induction false} ReachableInv(h: Handler, hasBody: bool, steps: seq<Step>)
    requires IsRun(Init(h, hasBody), steps)
    ensures Inv(Exec(Init(h, hasBody), steps), h)
  {
    RunKeepsInv(Init(h, hasBody), steps, h);
  }

  // ---- safety over all runs ----

  /** Every interleaving refines the sequential reading of the handler: the caller gets the
      handler's first status, its reads are a prefix of the handler's body, and a clean end of
      file means the whole body of a handler that did not panic mid-response, with the request
      body already closed. */
  lemma {:induction false} EveryRunRefinesTheHandler(h: Handler, hasBody: bool, steps: seq<Step>)
    requires IsRun(Init(h, hasBody), steps)
    ensures var s := Exec(Init(h, hasBody), steps);
      && s.reader.got <= Body(h, false)
      && (s.caller.Responded? ==> s.writer.ready && s.caller.code == ResponseCode(FirstStatus(h)))
      && (s.reader.sawEof ==> s.reader.got == Body(h, false) && Clean(h, false) && (hasBody ==> s.requestClosed))
  {
    ReachableInv(h, hasBody, steps);
    RunKeepsRequest(Init(h, hasBody), steps);
  }

  lemma {:induction false} StepKeepsRequest(s: State, step: Step)
    requires Enabled(s, step)
    ensures Apply(s, step).hasRequestBody == s.hasRequestBody
  {
  }

  lemma {:induction false} RunKeepsRequest(s: State, steps: seq<Step>)
    requires IsRun(s, steps)
    ensures Exec(s, steps).hasRequestBody == s.hasRequestBody
    decreases |steps|
  {
    if steps != [] {
      StepKeepsRequest(s, steps[0]);
      RunKeepsRequest(Apply(s, steps[0]), steps[1..]);
    }
  }

  /** When RoundTrip has returned an error, the handler's goroutine has run all its defers, and
      no step of the call is left: only the caller's own context can still change. */
  lemma {:induction false} FailureMeansTheHandlerIsGone(h: Handler, hasBody: bool, steps: seq<Step>, step: Step)
    requires IsRun(Init(h, hasBody), steps)
    requires Exec(Init(h, hasBody), steps).caller.Failed?
    ensures var s := Exec(Init(h, hasBody), steps);
      && s.pc.Finished? && s.done && s.pipe.readErr != Unset && s.pipe.writeErr != Unset
      && (hasBody ==> s.requestClosed)
      && (Enabled(s, step) ==> step.Cancel?)
  {
    ReachableInv(h, hasBody, steps);
    RunKeepsRequest(Init(h, hasBody), steps);
  }

  /** Once published, status and headers change only through the handler's own SetHeader. */
  lemma {:induction false} PublishedHeadStays(h: Handler, hasBody: bool, steps: seq<Step>, step: Step)
    requires IsRun(Init(h, hasBody), steps)
    requires var s := Exec(Init(h, hasBody), steps);
      && s.writer.ready && Enabled(s, step)
      && !(step.Go? && s.pc.Running? && s.pc.handler.SetHeader?)
    ensures var s := Exec(Init(h, hasBody), steps);
      Apply(s, step).writer == s.writer && s.writer.status == FirstStatus(h)
  {
    ReachableInv(h, hasBody, steps);
  }

  // ---- the headers of the response ----

  /** The header map a handler publishes: what it set before its first output, and the
      content type of the 500 text when it panics first. */
  function FirstHeader(h: Handler, header: map<string, string>): map<string, string> {
    match h
    case SetHeader(k, v, next) => FirstHeader(next, header[k := v])
    case Panic => header["Content-Type" := "text/plain; charset=utf-8"]
    case _ => header
  }

  /** Whether some branch of the handler sets a header that comes too late. */
  predicate SetsLate(h: Handler, sent: bool) {
    match h
    case Return => false
    case Panic => false
    case SetHeader(_, _, next) => sent || SetsLate(next, sent)
    case WriteHeader(_, next) => SetsLate(next, true)
    case Flush(next) => SetsLate(next, true)
    case Write(_, ok, failed) => SetsLate(ok, true) || SetsLate(failed, true)
  }

  function NextHeader(pc: Pc, header: map<string, string>): map<string, string> {
    match pc
    case Running(h) => FirstHeader(h, header)
    case Recovering => header["Content-Type" := "text/plain; charset=utf-8"]
    case ErrorHeader => header["Content-Type" := "text/plain; charset=utf-8"]
    case _ => header
  }

  predicate MaySetLate(pc: Pc, sent: bool) {
    match pc
    case Running(h) => SetsLate(h, sent)
    case Publishing(next) => MaySetLate(next, true)
    case InPipeWrite(_, ok, failed) => MaySetLate(ok, true) || MaySetLate(failed, true)
    case _ => false
  }

  predicate HeadInv(s: State, h: Handler) {
    && (!s.writer.once ==> NextHeader(s.pc, s.writer.header) == FirstHeader(h, map[]))
    && (s.pc.Publishing? ==> s.writer.header == FirstHeader(h, map[]))
    && (MaySetLate(s.pc, s.writer.once) ==> SetsLate(h, false))
    && (s.writer.once && !SetsLate(h, false) ==> s.writer.header == FirstHeader(h, map[]))
  }

  /** The program points a handler action leads to may set a header late only if the handler may. */
  lemma WritesLate(h: Handler)
    requires h.Write?
    ensures MaySetLate(InPipeWrite(h.data, Running(h.onOk), Running(h.onError)), true) == SetsLate(h, true)
      == SetsLate(h, false)
  {
    assert MaySetLate(Running(h.onOk), true) == SetsLate(h.onOk, true);
    assert MaySetLate(Running(h.onError), true) == SetsLate(h.onError, true);
  }

  lemma {:induction false} HandlerKeepsLate(s: State)
    requires s.pc.Running?
    ensures MaySetLate(GoStep(s).pc, GoStep(s).writer.once) ==> SetsLate(s.pc.handler, s.writer.once)
  {
    var h := s.pc.handler;
    if h.Write? {
      WritesLate(h);
    } else if h.Flush? || h.WriteHeader? {
      assert MaySetLate(Running(h.next), true) == SetsLate(h.next, true) == SetsLate(h, s.writer.once);
    }
  }

  lemma {:induction false} HandlerKeepsHead(s: State, h: Handler)
    requires ControlInv(s) && HeadInv(s, h) && s.pc.Running?
    ensures HeadInv(GoStep(s), h)
  {
    HandlerKeepsLate(s);
    assert MaySetLate(s.pc, s.writer.once) == SetsLate(s.pc.handler, s.writer.once);
  }

  lemma {:induction false} DefersKeepHead(s: State, h: Handler)
    requires ControlInv(s) && HeadInv(s, h) && Enabled(s, Go) && !s.pc.Running?
    ensures HeadInv(GoStep(s), h)
  {
    if s.pc.ErrorStatus? { NoLateErrorText(); } else { DefersKeepLate(s); }
  }

  lemma NoLateErrorText()
    ensures !MaySetLate(InPipeWrite(ERROR_BODY, ClosingRequest, ClosingRequest), true)
  {
    assert !MaySetLate(ClosingRequest, true);
  }

  lemma {:induction false} DefersKeepLate(s: State)
    requires Enabled(s, Go) && !s.pc.Running? && !s.pc.ErrorStatus? && (s.pc.Publishing? ==> s.writer.once)
    ensures MaySetLate(GoStep(s).pc, GoStep(s).writer.once) ==> MaySetLate(s.pc, s.writer.once)
  {
    match s.pc
    case Publishing(next) =>
    case InPipeWrite(_, ok, failed) => assert MaySetLate(failed, true) ==> MaySetLate(s.pc, true);
    case _ =>
  }

  lemma {:induction false} GoKeepsHead(s: State, h: Handler)
    requires ControlInv(s) && HeadInv(s, h) && Enabled(s, Go)
    ensures HeadInv(GoStep(s), h)
  {
    if s.pc.Running? { HandlerKeepsHead(s, h); } else { DefersKeepHead(s, h); }
  }

  lemma {:induction false} StepKeepsHead(s: State, step: Step, h: Handler)
    requires ControlInv(s) && HeadInv(s, h) && Enabled(s, step)
    ensures HeadInv(Apply(s, step), h)
  {
    if step.Go? { GoKeepsHead(s, h); }
  }

  lemma {:induction false} RunKeepsHead(s: State, steps: seq<Step>, h: Handler)
    requires Inv(s, h) && HeadInv(s, h) && IsRun(s, steps)
    ensures HeadInv(Exec(s, steps), h)
    decreases |steps|
  {
    if steps != [] {
      StepKeepsInv(s, steps[0], h);
      StepKeepsHead(s, steps[0], h);
      RunKeepsHead(Apply(s, steps[0]), steps[1..], h);
    }
  }

  /** When `ready` is about to close, the headers are the ones the handler set by then; a caller
      that has its response keeps reading those unless the handler sets a header too late. */
  lemma {:induction false} ResponseHead(h: Handler, hasBody: bool, steps: seq<Step>)
    requires IsRun(Init(h, hasBody), steps)
    ensures var s := Exec(Init(h, hasBody), steps);
      && (s.pc.Publishing? ==> s.writer.header == FirstHeader(h, map[]) && s.writer.status == FirstStatus(h))
      && (s.caller.Responded? && !SetsLate(h, false) ==> s.writer.header == FirstHeader(h, map[]))
  {
    ReachableInv(h, hasBody, steps);
    RunKeepsHead(Init(h, hasBody), steps, h);
  }

  /** A panic before any output becomes a complete plain-text 500. */
  lemma {:induction false} EarlyPanicIsA500(h: Handler, hasBody: bool, steps: seq<Step>)
    requires IsRun(Init(h, hasBody), steps)
    requires PanicsFirst(h)
    ensures var s := Exec(Init(h, hasBody), steps);
      && (s.caller.Responded? ==>
            && s.caller.code == STATUS_INTERNAL_ERROR
            && "Content-Type" in s.writer.header && s.writer.header["Content-Type"] == "text/plain; charset=utf-8")
      && (s.reader.sawEof ==> s.reader.got == ERROR_BODY)
  {
    EveryRunRefinesTheHandler(h, hasBody, steps);
    ResponseHead(h, hasBody, steps);
    PanicsFirstMeans500(h, map[]);
  }

  predicate PanicsFirst(h: Handler) { h.Panic? || (h.SetHeader? && PanicsFirst(h.next)) }

  lemma {:induction false} PanicsFirstMeans500(h: Handler, header: map<string, string>)
    requires PanicsFirst(h)
    ensures FirstStatus(h) == STATUS_INTERNAL_ERROR && Body(h, false) == ERROR_BODY && !SetsLate(h, false)
    ensures var head := FirstHeader(h, header);
      "Content-Type" in head && head["Content-Type"] == "text/plain; charset=utf-8"
  {
    if h.SetHeader? { PanicsFirstMeans500(h.next, header[h.key := h.value]); }
  }

  // ---- progress ----

  predicate Returned(s: State) { s.caller.Failed? || s.caller.Responded? }

  /** The handler's blocked write waits for the reader of a response already handed out. */
  predicate WaitsForReader(s: State) {
    s.pc.InPipeWrite? && !s.pipe.Closed() && s.caller.Responded? && !s.reader.closed
  }

  predicate IsOwnStep(step: Step) {
    step.Go? || step.SelectReady? || step.SelectCancelled? || step.CallerStep?
  }

  /** No deadlock: the transport is stuck exactly when the call is over, or when it waits for
      the reader, whose next read or close is then enabled. */
  lemma {:induction false} StuckMeansOverOrWaitingForReader(h: Handler, hasBody: bool, steps: seq<Step>, n: nat)
    requires IsRun(Init(h, hasBody), steps)
    ensures var s := Exec(Init(h, hasBody), steps);
      && ((forall step | IsOwnStep(step) :: !Enabled(s, step)) <==>
            (s.pc.Finished? && Returned(s)) || WaitsForReader(s))
      && (WaitsForReader(s) ==> Enabled(s, Read(n)) && Enabled(s, CloseBody))
  {
    ReachableInv(h, hasBody, steps);
    var s := Exec(Init(h, hasBody), steps);
    if forall step | IsOwnStep(step) :: !Enabled(s, step) {
      assert !Enabled(s, Go) && !Enabled(s, SelectReady) && !Enabled(s, CallerStep);
    }
  }

  /** Once either side gave up on the body, a stuck transport has finished: `done` is closed. */
  lemma {:induction false} TornDownRunsReachDone(h: Handler, hasBody: bool, steps: seq<Step>)
    requires IsRun(Init(h, hasBody), steps)
    requires var s := Exec(Init(h, hasBody), steps);
      s.pipe.Closed() && forall step | IsOwnStep(step) :: !Enabled(s, step)
    ensures var s := Exec(Init(h, hasBody), steps); s.done && Returned(s)
  {
    StuckMeansOverOrWaitingForReader(h, hasBody, steps, 0);
    ReachableInv(h, hasBody, steps);
  }

  /** Steps the goroutine can still take, each byte it has to hand over counting as one. */
  function Work(pc: Pc): nat {
    match pc
    case Running(h) => HandlerWork(h)
    case Publishing(next) => 1 + Work(next)
    case InPipeWrite(rest, ok, failed) => 1 + |rest| + Max(Work(ok), Work(failed))
    case Recovering => 10 + |ERROR_BODY|
    case TearingDown => 6
    case ErrorHeader => 9 + |ERROR_BODY|
    case ErrorStatus => 8 + |ERROR_BODY|
    case ClosingRequest => 5
    case FlushingHeaders => 4
    case ClosingPipe => 2
    case ClosingDone => 1
    case Finished => 0
  }

  function HandlerWork(h: Handler): nat {
    match h
    case Return => 6
    case Panic => 11 + |ERROR_BODY|
    case SetHeader(_, _, next) => 1 + HandlerWork(next)
    case WriteHeader(_, next) => 2 + HandlerWork(next)
    case Flush(next) => 2 + HandlerWork(next)
    case Write(data, ok, failed) => 3 + |data| + Max(HandlerWork(ok), HandlerWork(failed))
  }

  function Max(a: nat, b: nat): nat { if a < b then b else a }

  function CallerWork(c: Caller): nat {
    match c
    case Selecting => 3
    case Cancelling => 2
    case AwaitingDone => 1
    case BuildingResponse => 1
    case _ => 0
  }

  function TotalWork(s: State): nat { Work(s.pc) + CallerWork(s.caller) }

  /** An own step, or a read that takes bytes from a blocked write. */
  predicate IsProductive(s: State, step: Step) {
    IsOwnStep(step) || (step.Read? && step.n > 0 && !s.pipe.Closed())
  }

  lemma {:induction false} HandlerDecreasesWork(s: State)
    requires s.pc.Running?
    ensures Work(GoStep(s).pc) < Work(s.pc)
  {
    if s.pc.handler.Write? { PipeWriteDecreasesWork(s); }
  }

  lemma {:induction false} PipeWriteDecreasesWork(s: State)
    requires s.pc.Running? && s.pc.handler.Write?
    ensures Work(GoStep(s).pc) < Work(s.pc)
  {
    WriteWork(s.pc.handler);
  }

  lemma {:induction false} ErrorBodyWork(s: State)
    requires s.pc.ErrorStatus?
    ensures Work(GoStep(s).pc) < Work(s.pc)
  {
    var write := InPipeWrite(ERROR_BODY, ClosingRequest, ClosingRequest);
    assert Work(write) == 1 + |ERROR_BODY| + Work(ClosingRequest);
    assert Work(Publishing(write)) == 1 + Work(write);
  }

  lemma {:induction false} DefersDecreaseWork(s: State)
    requires Enabled(s, Go) && !s.pc.Running? && !s.pc.ErrorStatus?
    ensures Work(GoStep(s).pc) < Work(s.pc)
  {
    if s.pc.FlushingHeaders? { assert Work(Publishing(ClosingPipe)) == 3; }
    match s.pc
    case Publishing(_) =>
    case InPipeWrite(_, _, _) =>
    case Recovering =>
    case TearingDown =>
    case ErrorHeader =>
    case ClosingRequest =>
    case FlushingHeaders =>
    case ClosingPipe =>
    case ClosingDone =>
  }

  lemma {:induction false} GoDecreasesWork(s: State)
    requires Enabled(s, Go)
    ensures Work(GoStep(s).pc) < Work(s.pc) && GoStep(s).caller == s.caller
  {
    if s.pc.Running? { HandlerDecreasesWork(s); }
    else if s.pc.ErrorStatus? { ErrorBodyWork(s); }
    else { DefersDecreaseWork(s); }
  }

  lemma {:induction false} WriteWork(h: Handler)
    requires h.Write?
    ensures Work(InPipeWrite(h.data, Running(h.onOk), Running(h.onError))) + 2 == HandlerWork(h)
  {
    assert Work(Running(h.onOk)) == HandlerWork(h.onOk);
    assert Work(Running(h.onError)) == HandlerWork(h.onError);
  }

  lemma {:induction false} StepWork(s: State, step: Step)
    requires Enabled(s, step)
    ensures TotalWork(Apply(s, step)) <= TotalWork(s)
    ensures IsProductive(s, step) ==> TotalWork(Apply(s, step)) < TotalWork(s)
  {
    if step.Go? { GoDecreasesWork(s); }
  }

  function ProductiveSteps(s: State, steps: seq<Step>): nat
    requires IsRun(s, steps)
    decreases |steps|
  {
    if steps == [] then 0
    else (if IsProductive(s, steps[0]) then 1 else 0) + ProductiveSteps(Apply(s, steps[0]), steps[1..])
  }

  /** Every interleaving is bounded: whatever the reader and the context do, the transport takes
      at most as many productive steps as the handler's own size allows. */
  lemma {:induction false} EveryRunIsBounded(s: State, steps: seq<Step>)
    requires IsRun(s, steps)
    ensures ProductiveSteps(s, steps) + TotalWork(Exec(s, steps)) <= TotalWork(s)
    decreases |steps|
  {
    if steps != [] {
      StepWork(s, steps[0]);
      EveryRunIsBounded(Apply(s, steps[0]), steps[1..]);
    }
  }

  /** A schedule that serves the reader: the goroutine first, then the caller, then one-byte reads. */
  function Cooperate(s: State): Step {
    if Enabled(s, Go) then Go
    else if s.caller.Selecting? then SelectReady
    else if s.caller.BuildingResponse? then CallerStep
    else Read(1)
  }

  lemma {:induction false} CooperationGoesOn(s: State, h: Handler)
    requires Inv(s, h) && s.pipe.readErr == Unset && !s.caller.Cancelling? && Clean(h, false)
    ensures var step := Cooperate(s);
      && Enabled(s, step)
      && (IsProductive(s, step) || Apply(s, step).reader.sawEof)
      && Apply(s, step).pipe.readErr == Unset && !Apply(s, step).caller.Cancelling?
  {
  }

  lemma {:induction false} ServeToTheEnd(s: State, h: Handler) returns (steps: seq<Step>)
    requires Inv(s, h) && s.pipe.readErr == Unset && !s.caller.Cancelling? && Clean(h, false)
    ensures IsRun(s, steps) && Exec(s, steps).reader.sawEof
    decreases TotalWork(s)
  {
    var step := Cooperate(s);
    CooperationGoesOn(s, h);
    StepKeepsInv(s, step, h);
    StepWork(s, step);
    var t := Apply(s, step);
    var rest: seq<Step> := [];
    if !t.reader.sawEof { rest := ServeToTheEnd(t, h); }
    steps := [step] + rest;
    assert steps[1..] == rest;
  }

  /** A clean end of file is observable exactly for handlers that do not panic mid-response. */
  lemma {:induction false} EofIsReachableExactlyWhenClean(h: Handler, hasBody: bool)
    ensures Clean(h, false) <==>
      exists steps :: IsRun(Init(h, hasBody), steps) && Exec(Init(h, hasBody), steps).reader.sawEof
  {
    if Clean(h, false) {
      var steps := ServeToTheEnd(Init(h, hasBody), h);
    }
    forall steps | IsRun(Init(h, hasBody), steps) && Exec(Init(h, hasBody), steps).reader.sawEof
      ensures Clean(h, false)
    {
      ReachableInv(h, hasBody, steps);
    }
  }
}
