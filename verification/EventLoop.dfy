/**
 The event loop of WinsockCoroutine: promises linked by continuations, operations that carry
 the coroutine to resume, and a loop driven by the number of outstanding operations.
 */
module EventLoop {
  import opened Bytes
  import opened Coroutines

  // Extended OVERLAPPED.
  class IoOperation<S> {
    var continuation: Promise?<S>
    var transferred: seq<Byte>
    var error: Error
    var acceptSocket: int

    constructor (h: Promise<S>)
      ensures continuation == h && fresh(this)
    {
      continuation, transferred, error, acceptSocket := h, [], 0, 0;
    }
  }

  // Where a suspended coroutine continues: what its pending co_await will read.
  datatype Point<!S> =
    | Running                                              // no co_await pending
    | AtOperation(request: Request, op: IoOperation<S>)
    | AtTask(task: Promise<S>)
    | AtFinal

  // A coroutine frame with its promise.
  class Promise<S> {
    var frame: S
    var point: Point<S>
    var result: Value
    var exception: Option<Error>
    var continuation: Promise?<S>

    constructor (start: S)
      ensures frame == start && point == Running && result == Nothing && exception == None && continuation == null
      ensures fresh(this)
    {
      frame, point, result, exception, continuation := start, Running, Nothing, None, null;
    }

    // Task::await_resume
    function AwaitResume(): Outcome
      reads this
    {
      if exception.Some? then Threw(exception.value) else Returned(result)
    }
  }

  class IoEventLoop<S(!new)> {
    const program: Program<S>
    var outstandingOps: int
    var inFlight: seq<IoOperation<S>>   // operations the port has not reported yet
    var answers: seq<Answer>            // what the operating system will still answer
    var glitches: nat                   // failed dequeues without a packet still to come
    ghost var trace: Trace              // requests answered so far
    ghost var steps: nat                // actions taken so far
    var root: Promise<S>                // the task the loop was started with
    ghost var chain: seq<Promise<S>>    // suspended or running coroutines, innermost first
    ghost var stack: seq<S>             // their local states
    ghost var owned: set<object>        // every promise and operation of this loop

    // A loop with one task, not yet started.
    constructor (program: Program<S>, start: S, answers: seq<Answer>, glitches: nat)
      requires Productive(program)
      ensures this.program == program && fresh(owned)
      ensures Active() && chain == [root]
      ensures Meaning() == Eval(program, start, answers)
    {
      var task := new Promise(start);
      this.program, this.answers, this.glitches := program, answers, glitches;
      outstandingOps, inFlight, trace, steps := 0, [], [], 0;
      root, chain, stack, owned := task, [task], [start], {task};
      new;
      ThenNothing(Ahead());
    }

    // The continuation links lead from the innermost coroutine to the root, each coroutine on
    // the way awaits exactly the one before it, and none has a result yet.
    ghost predicate Linked()
      reads `root, `chain, `stack, `owned, owned
    {
      && Productive(program) && |stack| == |chain| && this !in owned
      && root in owned && (|chain| > 0 ==> chain[|chain| - 1] == root)
      && (forall i :: 0 <= i < |chain| ==> chain[i] in owned)
      && (forall i, j :: 0 <= i < j < |chain| ==> chain[i] != chain[j])
      && (forall i :: 0 <= i < |chain| ==> LinkedAt(i))
    }

    ghost predicate LinkedAt(i: nat)
      requires i < |chain| == |stack|
      reads `chain, `stack, chain[i]
    {
      var h := chain[i];
      && h.frame == stack[i]
      && h.continuation == (if i + 1 < |chain| then chain[i + 1] else null)
      && (i > 0 ==> h.point == AtTask(chain[i - 1]))
      && h.result == Nothing && h.exception == None
    }

    // The innermost coroutine is running.
    ghost predicate Active()
      reads this, owned
    {
      Linked() && |chain| > 0 && chain[0].point == Running && inFlight == [] && outstandingOps == 0
    }

    // The innermost coroutine waits for the one operation in flight, which will resume it.
    ghost predicate Suspended()
      reads this, owned
    {
      && Linked() && |chain| > 0 && chain[0].point.AtOperation? && outstandingOps == 1
      && var AtOperation(request, op) := chain[0].point;
      && inFlight == [op] && op in owned && op.continuation == chain[0]
      && program.act(stack[0]) == Perform(request)
      && (answers != [] ==>
            && answers[0].Completed?
            && (request.Accept? ==> op.acceptSocket == answers[0].socket))
    }

    // The request of the operation in flight.
    method InFlight() returns (request: Request)
      requires Suspended()
      ensures program.act(stack[0]) == Perform(request)
    {
      assert inFlight[0].continuation == chain[0];
      request := inFlight[0].continuation.point.request;
    }

    // The task has ended.
    ghost predicate Complete()
      reads this, owned
    {
      Linked() && chain == [] && root.point == AtFinal && inFlight == [] && outstandingOps == 0
    }

    // What is left to happen.
    ghost function Ahead(): Run
      requires Productive(program) && |stack| == |chain|
      reads this, root
    {
      if chain == [] then Finished(root.AwaitResume(), [], answers, 0) else EvalStack(program, stack, answers)
    }

    // The whole run: what has happened, and what is left to happen.
    ghost function Meaning(): Run
      requires Productive(program) && |stack| == |chain|
      reads this, root
    {
      Then(trace, steps, Ahead())
    }

    // The body finishes: the result is stored, and control passes to the continuation, whose
    // await_resume reads it.
    method Return(h: Promise<S>, outcome: Outcome) returns (next: Promise?<S>)
      requires Active() && h == chain[0]
      modifies this`chain, this`stack, owned
      ensures chain == old(chain)[1..] && (next == null <==> chain == [])
      ensures next == null ==> Complete() && stack == [] && root.AwaitResume() == outcome
      ensures next != null ==> Active() && next == chain[0] && stack == Returning(program, old(stack), outcome)
    {
      ghost var before := chain;
      assert LinkedAt(0) && (|chain| > 1 ==> LinkedAt(1));
      match outcome {
        case Returned(value) => h.result := value;
        case Threw(error) => h.exception := Some(error);
      }
      h.point := AtFinal;
      next := h.continuation;
      if next != null {
        var returned := next.point.task.AwaitResume();
        next.frame := program.resume(next.frame, returned);
        next.point := Running;
        stack := Returning(program, stack, returned);
      } else {
        stack := [];
      }
      chain := chain[1..];
      forall i | 0 <= i < |chain| ensures LinkedAt(i) {
        assert chain[i] == before[i + 1] && old(LinkedAt(i + 1));
      }
    }

    // co_await of a task: the caller becomes its continuation and the task starts to run.
    method Call(h: Promise<S>, callee: S) returns (task: Promise<S>)
      requires Active() && h == chain[0]
      modifies this`chain, this`stack, this`owned, h
      ensures owned == old(owned) + {task} && fresh(task)
      ensures Active() && chain == [task] + old(chain) && stack == [callee] + old(stack)
    {
      ghost var before := chain;
      task := new Promise(callee);
      task.continuation := h;
      h.point := AtTask(task);
      chain, stack, owned := [task] + chain, [callee] + stack, owned + {task};
      forall i | 0 <= i < |chain| ensures LinkedAt(i) {
        if i > 0 {
          assert chain[i] == before[i - 1] && old(LinkedAt(i - 1));
        }
      }
    }

    // The innermost coroutine runs on from its co_await with the outcome.
    method Continue(h: Promise<S>, outcome: Outcome)
      requires Linked() && |chain| > 0 && h == chain[0]
      modifies this`stack, h
      ensures Linked() && h.point == Running
      ensures stack == old(stack)[0 := program.resume(old(stack)[0], outcome)]
    {
      assert LinkedAt(0);
      h.frame := program.resume(h.frame, outcome);
      h.point := Running;
      stack := stack[0 := h.frame];
      forall i | 0 <= i < |chain| ensures LinkedAt(i) {
        assert old(LinkedAt(i)) && (i > 0 ==> chain[i] != h);
      }
    }

    // await_suspend of an operation: counts it and starts it; takes the count back if the
    // operating system refuses. An early refusal comes before the count.
    method Start(h: Promise<S>, request: Request) returns (started: bool, op: IoOperation<S>)
      modifies this`outstandingOps, this`inFlight
      ensures fresh(op) && op.continuation == h
      ensures started <==> answers == [] || answers[0].Completed?
      ensures started ==> answers == [] || op.acceptSocket == answers[0].socket
      ensures started ==> outstandingOps == old(outstandingOps) + 1 && inFlight == old(inFlight) + [op]
      ensures !started ==> outstandingOps == old(outstandingOps) && inFlight == old(inFlight)
    {
      op := new IoOperation(h);
      if answers != [] && answers[0].Refused? && answers[0].early && (request.Accept? || request.Connect?) {
        return false, op;
      }
      op.acceptSocket := if answers != [] && answers[0].Completed? then answers[0].socket else 0;
      outstandingOps := outstandingOps + 1;
      if answers != [] && answers[0].Refused? {
        outstandingOps := outstandingOps - 1;
        return false, op;
      }
      inFlight := inFlight + [op];
      return true, op;
    }

    // co_await of an operation: afterwards it is in flight, or the coroutine runs on with an
    // exception.
    method Issue(h: Promise<S>, request: Request) returns (suspended: bool)
      requires Active() && h == chain[0] && program.act(stack[0]) == Perform(request)
      modifies this`outstandingOps, this`inFlight, this`answers, this`stack, this`owned, h
      ensures fresh(owned - old(owned)) && owned >= old(owned)
      ensures suspended ==> Suspended() && answers == old(answers) && stack == old(stack)
      ensures !suspended ==>
        && Active() && old(answers) != [] && answers == old(answers)[1..]
        && stack == old(stack)[0 := program.resume(old(stack)[0], Interpret(request, old(answers)[0]))]
    {
      var op;
      suspended, op := Start(h, request);
      if suspended {
        owned := owned + {op};
        h.point := AtOperation(request, op);
        forall i | 0 <= i < |chain| ensures LinkedAt(i) {
          assert old(LinkedAt(i)) && (i > 0 ==> chain[i] != h);
        }
      } else {
        Continue(h, Threw(answers[0].reason));
        answers := answers[1..];
      }
    }

    // A completion packet arrives: the operation gets its result and the coroutine it names is
    // resumed, which counts the operation as done and reads that result.
    method Deliver(op: IoOperation<S>) returns (h: Promise<S>)
      requires Suspended() && inFlight == [op] && answers != []
      modifies this`outstandingOps, this`inFlight, this`answers, this`stack, chain[0], op
      ensures Active() && h == chain[0] && answers == old(answers)[1..]
      ensures stack == old(stack)[0 := program.resume(old(stack)[0], Interpret(program.act(old(stack)[0]).request, old(answers)[0]))]
    {
      inFlight := [];
      op.transferred, op.error := answers[0].bytes, answers[0].error;
      answers := answers[1..];
      h := op.continuation;
      outstandingOps := outstandingOps - 1;
      assert forall i :: 0 <= i < |chain| ==> old(LinkedAt(i)) ==> LinkedAt(i);
      Continue(h, Interpret(h.point.request, Completed(op.acceptSocket, op.transferred, op.error)));
    }

    // One more action, with the answers it used: what was left after it is left after that.
    ghost method Record(used: Trace, left: Run)
      modifies this`trace, this`steps
      ensures Then(trace, steps, left) == Then(old(trace), old(steps), Then(used, 1, left))
      ensures steps == old(steps) + 1
    {
      ThenThen(trace, steps, used, 1, left);
      trace, steps := trace + used, steps + 1;
    }

    // The action that performs an operation: it is in flight, or it has been refused and used up
    // an answer.
    method ActPerform(h: Promise<S>, request: Request) returns (next: Promise?<S>)
      requires Active() && h == chain[0] && program.act(stack[0]) == Perform(request)
      modifies this, owned
      ensures owned >= old(owned) && fresh(owned - old(owned)) && Linked()
      ensures Meaning() == old(Meaning())
      ensures if next != null then Active() && next == chain[0] else Suspended()
      ensures steps >= old(steps) && (next != null ==> steps > old(steps))
    {
      hide Then, EvalStack;
      StackPerform(program, stack, answers);
      ghost var used := if answers == [] then [] else [(request, answers[0])];
      var suspended := Issue(h, request);
      if suspended {
        return null;
      }
      Record(used, Ahead());
      return h;
    }

    // One action of the running coroutine: what has happened and what is left stay the same run.
    method Act(h: Promise<S>) returns (next: Promise?<S>)
      requires Active() && h == chain[0]
      modifies this, owned
      ensures owned >= old(owned) && fresh(owned - old(owned)) && Linked()
      ensures Meaning() == old(Meaning())
      ensures if next != null then Active() && next == chain[0] else Suspended() || Complete()
      ensures steps >= old(steps) && (next != null ==> steps > old(steps))
    {
      assert LinkedAt(0);
      hide Then, EvalStack;
      match program.act(h.frame) {
        case Finish(outcome) =>
          StackFinish(program, stack, answers);
          ThenFinished(outcome, answers);
          next := Return(h, outcome);
          Record([], Ahead());
        case Perform(request) =>
          next := ActPerform(h, request);
        case Await(callee) =>
          StackAwait(program, stack, answers);
          next := Call(h, callee);
          Record([], Ahead());
      }
    }

    // Resuming a coroutine: control is transferred from coroutine to coroutine until one waits
    // for an operation or the task has ended.
    method Resume(h: Promise<S>)
      requires Active() && h == chain[0]
      modifies this, owned
      ensures owned >= old(owned) && fresh(owned - old(owned)) && Linked()
      ensures Suspended() || Complete()
      ensures Meaning() == old(Meaning()) && steps >= old(steps)
    {
      hide Then, EvalStack;
      var current: Promise?<S> := h;
      while current != null
        invariant owned >= old(owned) && fresh(owned - old(owned)) && Linked()
        invariant Meaning() == old(Meaning()) && steps >= old(steps)
        invariant if current != null then Active() && current == chain[0] else Suspended() || Complete()
        decreases Ahead().steps, current != null
      {
        ThenSteps(trace, steps, Ahead());
        current := Act(current);
        ThenSteps(trace, steps, Ahead());
      }
    }

    // The body of the loop once a packet has been dequeued.
    method Dispatch(op: IoOperation<S>)
      requires Suspended() && inFlight == [op] && answers != []
      modifies this, owned
      ensures owned >= old(owned) && fresh(owned - old(owned)) && Linked()
      ensures Suspended() || Complete()
      ensures Meaning() == old(Meaning()) && Ahead().steps < old(Ahead().steps)
    {
      hide Then, EvalStack;
      StackPerform(program, stack, answers);
      ThenSteps(trace, steps, Ahead());
      ghost var used := [(program.act(stack[0]).request, answers[0])];
      var h := Deliver(op);
      Record(used, Ahead());
      Resume(h);
      ThenSteps(trace, steps, Ahead());
    }

    // IoEventLoop::Run, after the task has been started. It returns when no operation is
    // outstanding; `blocked` stands for a dequeue that never returns.
    method Run() returns (blocked: bool)
      requires Suspended() || Complete()
      modifies this, owned
      ensures owned >= old(owned) && fresh(owned - old(owned)) && Linked()
      ensures Meaning() == old(Meaning())
      ensures !blocked ==> Complete()
      ensures blocked ==> Suspended() && answers == []
    {
      while outstandingOps > 0
        invariant owned >= old(owned) && fresh(owned - old(owned)) && Linked()
        invariant Suspended() || Complete()
        invariant outstandingOps == |inFlight|
        invariant Meaning() == old(Meaning())
        decreases Ahead().steps, glitches
      {
        if glitches > 0 {
          glitches := glitches - 1;
          continue;
        }
        if answers == [] {
          return true;
        }
        Dispatch(inFlight[0]);
      }
      return false;
    }
  }

  // Starting a task and running the loop is the direct-style run of its body: the same requests
  // in the same order, and, if the loop returns, the same result or exception. If it does not
  // return, the operation in flight is the one the direct-style run waits for.
  method Execute<S(!new)>(program: Program<S>, start: S, answers: seq<Answer>, glitches: nat)
    returns (outcome: Option<Outcome>, pending: Option<Request>, ghost trace: Trace)
    requires Productive(program)
    ensures trace == Eval(program, start, answers).trace
    ensures var run := Eval(program, start, answers);
            outcome == if run.Finished? then Some(run.outcome) else None
    ensures var run := Eval(program, start, answers);
            pending == if run.Waiting? then Some(run.request) else None
  {
    var loop := new IoEventLoop(program, start, answers, glitches);
    loop.Resume(loop.root);
    var blocked := loop.Run();
    trace := loop.trace;
    if blocked {
      StackPerform(program, loop.stack, []);
      outcome, pending := None, None;
      var request := loop.InFlight();
      pending := Some(request);
    } else {
      outcome, pending := Some(loop.root.AwaitResume()), None;
    }
  }
}
