/** One loopback call as mutable state: every method is one atomic action of loopback.go and
    is proved to be the matching step of the transition system in `Loopback`. */
module LoopbackCall {
  import opened Loopback
  import opened Text

  class Call {
    var pc: Pc
    var once: bool
    var status: int
    var ready: bool
    var header: map<string, string>
    var readErr: PipeError
    var writeErr: PipeError
    const hasRequestBody: bool
    var requestClosed: bool
    var done: bool
    var cancelled: bool
    var caller: Caller
    var got: string
    var sawEof: bool
    var sawError: bool
    var closed: bool

    ghost function View(): State
      reads this
    {
      State(pc, Writer(once, status, ready, header), Pipe(readErr, writeErr), hasRequestBody, requestClosed,
            done, cancelled, caller, Reader(got, sawEof, sawError, closed))
    }

    constructor (h: Handler, hasRequestBody: bool)
      ensures View() == Init(h, hasRequestBody)
    {
      this.hasRequestBody := hasRequestBody;
      pc, caller := Running(h), Selecting;
      once, status, ready, header := false, 0, false, map[];
      readErr, writeErr, requestClosed, done, cancelled := Unset, Unset, false, false, false;
      got, sawEof, sawError, closed := "", false, false, false;
    }

    /** The first half of WriteHeader: enter once.Do and store the status. */
    method WriteHeader(code: int, next: Pc)
      modifies this
      ensures View() == Publish(old(View()), code, next)
    {
      if once {
        pc := next;
      } else {
        once, status, pc := true, code, Publishing(next);
      }
    }

    method FlushHeaders(next: Pc)
      modifies this
      ensures View() == Publish(old(View()), STATUS_OK, next)
    {
      WriteHeader(STATUS_OK, next);
    }

    /** The second half of WriteHeader, still inside once.Do. */
    method CloseReady(next: Pc)
      requires pc == Publishing(next)
      modifies this
      ensures View() == GoStep(old(View()))
    {
      ready, pc := true, next;
    }

    method HeadersSent() returns (sent: bool)
      ensures sent == ready
    {
      sent := ready;
    }

    method CloseWrite(e: PipeError)
      modifies this`writeErr
      ensures View() == old(View()).(pipe := old(View()).pipe.CloseWrite(e))
    {
      if writeErr == Unset { writeErr := e; }
    }

    method CloseRead(e: PipeError)
      modifies this`readErr
      ensures View() == old(View()).(pipe := old(View()).pipe.CloseRead(e))
    {
      if readErr == Unset { readErr := e; }
    }

    /** The next action of the handler itself. */
    method ServeHTTP(h: Handler)
      requires pc == Running(h)
      modifies this
      ensures View() == GoStep(old(View()))
    {
      match h {
        case Return => pc := ClosingRequest;
        case Panic => pc := Recovering;
        case SetHeader(k, v, next) => header, pc := header[k := v], Running(next);
        case WriteHeader(code, next) => WriteHeader(code, Running(next));
        case Flush(next) => FlushHeaders(Running(next));
        case Write(data, ok, failed) => FlushHeaders(InPipeWrite(data, Running(ok), Running(failed)));
      }
    }

    /** The deferred functions, last in first out: recover and its error response, and the closing of
        the request body, the headers, the pipe and `done`. */
    method StepDefers()
      requires Enabled(View(), Go) && !pc.Running? && !pc.Publishing? && !pc.InPipeWrite?
      modifies this
      ensures View() == Apply(old(View()), Go)
    {
      match pc {
        case Recovering =>
          var sent := HeadersSent();
          pc := if sent then TearingDown else ErrorHeader;
        case TearingDown => CloseWrite(ClosedPipe); pc := ClosingRequest;
        case ErrorHeader =>
          header, pc := header["Content-Type" := "text/plain; charset=utf-8"], ErrorStatus;
        case ErrorStatus =>
          WriteHeader(STATUS_INTERNAL_ERROR, InPipeWrite(ERROR_BODY, ClosingRequest, ClosingRequest));
        case ClosingRequest =>
          if hasRequestBody { requestClosed := true; }
          pc := FlushingHeaders;
        case FlushingHeaders => FlushHeaders(ClosingPipe);
        case ClosingPipe => CloseWrite(EndOfFile); pc := ClosingDone;
        case ClosingDone => done, pc := true, Finished;
      }
    }

    /** One action of the goroutine: the handler, a pipe write that fails, or the next deferred call. */
    method StepHandler()
      requires Enabled(View(), Go)
      modifies this
      ensures View() == Apply(old(View()), Go)
    {
      match pc {
        case Running(h) => ServeHTTP(h);
        case Publishing(next) => CloseReady(next);
        case InPipeWrite(_, _, failed) => pc := failed;
        case Recovering | TearingDown | ErrorHeader | ErrorStatus => StepDefers();
        case ClosingRequest | FlushingHeaders | ClosingPipe | ClosingDone => StepDefers();
      }
    }

    /** RoundTrip: the select, the teardown after a cancellation, and the response. */
    method StepCaller(step: Step)
      requires (step.SelectReady? || step.SelectCancelled? || step.CallerStep?) && Enabled(View(), step)
      modifies this
      ensures View() == Apply(old(View()), step)
    {
      match caller {
        case Selecting => caller := if step.SelectReady? then BuildingResponse else Cancelling;
        case Cancelling => CloseRead(Cancelled); caller := AwaitingDone;
        case AwaitingDone => caller := Failed;
        case BuildingResponse => caller := Responded(if status == 0 then STATUS_OK else status);
      }
    }

    method Cancel()
      requires Enabled(View(), Step.Cancel)
      modifies this`cancelled
      ensures View() == Apply(old(View()), Step.Cancel)
    {
      cancelled := true;
    }

    /** One Read of the response body. */
    method ReadBody(n: nat)
      requires Enabled(View(), Read(n))
      modifies this
      ensures View() == Apply(old(View()), Read(n))
    {
      if readErr == Unset && writeErr == Unset {
        var InPipeWrite(rest, ok, failed) := pc;
        var k := if n < |rest| then n else |rest|;
        got := got + rest[..k];
        pc := if rest[k..] == "" then ok else InPipeWrite(rest[k..], ok, failed);
      } else if readErr == Unset && writeErr == EndOfFile {
        sawEof := true;
      } else {
        sawError := true;
      }
    }

    method CloseBody()
      requires Enabled(View(), Step.CloseBody)
      modifies this
      ensures View() == Apply(old(View()), Step.CloseBody)
    {
      CloseRead(ClosedPipe);
      closed := true;
    }

    /** The atomic action that a step names. */
    method Take(step: Step)
      requires Enabled(View(), step)
      modifies this
      ensures View() == Apply(old(View()), step)
    {
      match step {
        case Go => StepHandler();
        case SelectReady | SelectCancelled | CallerStep => StepCaller(step);
        case Cancel => Cancel();
        case Read(n) => ReadBody(n);
        case CloseBody => CloseBody();
      }
    }
  }

  /** A call driven through one interleaving of its actors: the object ends in the state of that run,
      and what its caller and its reader hold is what the handler means. */
  method RunCall(h: Handler, hasRequestBody: bool, steps: seq<Step>) returns (call: Call)
    requires IsRun(Init(h, hasRequestBody), steps)
    ensures fresh(call) && call.View() == Exec(Init(h, hasRequestBody), steps)
    ensures call.got <= Body(h, false)
    ensures call.caller.Responded? ==> call.ready && call.caller.code == ResponseCode(FirstStatus(h))
    ensures call.sawEof ==> call.got == Body(h, false) && Clean(h, false) && (hasRequestBody ==> call.requestClosed)
    ensures call.caller.Failed? ==> call.done && call.pc.Finished? && (hasRequestBody ==> call.requestClosed)
  {
    call := new Call(h, hasRequestBody);
    ghost var done, left := [], steps;
    var i := 0;
    while i < |steps|
      invariant i == |done| && steps == done + left && fresh(call)
      invariant IsRun(call.View(), left) && Exec(call.View(), left) == Exec(Init(h, hasRequestBody), steps)
    {
      NextElement(steps, done, left);
      call.Take(steps[i]);
      done, left := done + [steps[i]], left[1..];
      i := i + 1;
    }
    EveryRunRefinesTheHandler(h, hasRequestBody, steps);
    if call.caller.Failed? { FailureMeansTheHandlerIsGone(h, hasRequestBody, steps, Go); }
  }
}
