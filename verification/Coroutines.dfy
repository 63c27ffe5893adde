/**
 What coroutine code means when its awaits are read as ordinary calls.

 A coroutine body is a program over local states: each state either finishes, starts one
 operation and continues with its outcome, or awaits another coroutine and continues with that
 one's outcome. `Eval` runs such a body as nested synchronous calls against the answers of the
 operating system; `EvalStack` runs a whole stack of suspended callers. How the event loop does
 the same with heap-allocated promises is in EventLoop.dfy.
 */
module Coroutines {
  import opened Bytes

  type Error = nat

  // The four overlapped operations that can be awaited.
  datatype Request =
    | Accept(listener: int)
    | Connect(socket: int)
    | Recv(socket: int, length: nat)
    | Send(socket: int, data: seq<Byte>)

  // What the operating system does with a request: refuse to start it (for accept and connect
  // possibly before the call itself is reached), or complete it, with the bytes transferred.
  datatype Answer =
    | Refused(early: bool, reason: Error)
    | Completed(socket: int, bytes: seq<Byte>, error: Error)

  datatype Value = Nothing | Handle(socket: int) | Data(bytes: seq<Byte>)

  datatype Outcome = Returned(value: Value) | Threw(error: Error)

  // await_resume of the awaitable: receive and send look at the byte count only.
  function Interpret(request: Request, answer: Answer): Outcome {
    match answer
    case Refused(_, reason) => Threw(reason)
    case Completed(socket, bytes, error) =>
      match request
      case Accept(_) => if error != 0 then Threw(error) else Returned(Handle(socket))
      case Connect(_) => if error != 0 then Threw(error) else Returned(Nothing)
      case Recv(_, _) => Returned(Data(bytes))
      case Send(_, _) => Returned(Data(bytes))
  }

  // What a coroutine does next in a given local state.
  datatype Action<+S> =
    | Finish(outcome: Outcome)    // co_return, or an exception that leaves the body
    | Perform(request: Request)   // co_await an operation
    | Await(callee: S)            // co_await a task that starts in state callee

  // `performs` says of a state that running it to its end is sure to perform an operation;
  // `rank` bounds the awaits made before that.
  datatype Program<!S> = Program(act: S -> Action<S>, resume: (S, Outcome) -> S, rank: S -> nat, performs: S -> bool)

  // Between two operations only finitely many tasks are awaited. A body may await tasks in an
  // endless loop, as long as those perform operations.
  ghost predicate Productive<S(!new)>(p: Program<S>) {
    forall s: S :: ProductiveAt(p, s)
  }

  ghost predicate ProductiveAt<S(!new)>(p: Program<S>, s: S) {
    match p.act(s)
    case Finish(_) => !p.performs(s)
    case Perform(_) => true
    case Await(callee) =>
      && p.rank(callee) < p.rank(s)
      && (p.performs(callee) || ResumesLower(p, s))
      && (p.performs(s) ==> p.performs(callee) || ResumesPerforming(p, s))
  }

  ghost predicate ResumesLower<S(!new)>(p: Program<S>, s: S) {
    forall o: Outcome :: p.rank(p.resume(s, o)) < p.rank(s)
  }

  ghost predicate ResumesPerforming<S(!new)>(p: Program<S>, s: S) {
    forall o: Outcome :: p.performs(p.resume(s, o))
  }

  type Trace = seq<(Request, Answer)>

  // A run: finished with an outcome and answers to spare, or waiting for an answer. `steps`
  // counts the actions taken.
  datatype Run =
    | Finished(outcome: Outcome, trace: Trace, rest: seq<Answer>, steps: nat)
    | Waiting(request: Request, trace: Trace, steps: nat)

  // A run with something done before it.
  function Then(trace: Trace, steps: nat, run: Run): Run {
    match run
    case Finished(o, t, rest, n) => Finished(o, trace + t, rest, steps + n)
    case Waiting(request, t, n) => Waiting(request, trace + t, steps + n)
  }

  // Direct style: the body as a function that calls and returns.
  ghost function Eval<S(!new)>(p: Program<S>, s: S, answers: seq<Answer>): (run: Run)
    requires Productive(p)
    ensures run.Finished? ==> |run.rest| <= |answers|
    ensures run.Finished? && p.performs(s) ==> |run.rest| < |answers|
    decreases |answers|, p.rank(s)
  {
    assert ProductiveAt(p, s);
    match p.act(s)
    case Finish(outcome) => Finished(outcome, [], answers, 1)
    case Perform(request) =>
      if answers == [] then Waiting(request, [], 1)
      else
        Then([(request, answers[0])], 1, Eval(p, p.resume(s, Interpret(request, answers[0])), answers[1..]))
    case Await(callee) =>
      match Eval(p, callee, answers)
      case Waiting(request, trace, steps) => Waiting(request, trace, steps + 1)
      case Finished(outcome, trace, rest, steps) => Then(trace, steps + 1, Eval(p, p.resume(s, outcome), rest))
  }

  // The same for a body and the callers waiting for it, innermost first.
  ghost function EvalStack<S(!new)>(p: Program<S>, stack: seq<S>, answers: seq<Answer>): Run
    requires Productive(p) && |stack| > 0
    decreases |stack|
  {
    var run := Eval(p, stack[0], answers);
    if run.Waiting? || |stack| == 1 then run
    else Then(run.trace, run.steps, EvalStack(p, Returning(p, stack, run.outcome), run.rest))
  }

  // The stack once its innermost body has finished.
  function Returning<S>(p: Program<S>, stack: seq<S>, outcome: Outcome): seq<S>
    requires |stack| > 1
  {
    [p.resume(stack[1], outcome)] + stack[2..]
  }

  lemma ThenNothing(run: Run)
    ensures Then([], 0, run) == run
  {
  }

  lemma ThenFinished(outcome: Outcome, rest: seq<Answer>)
    ensures Then([], 1, Finished(outcome, [], rest, 0)) == Finished(outcome, [], rest, 1)
  {
  }

  lemma ThenSteps(trace: Trace, steps: nat, run: Run)
    ensures Then(trace, steps, run).steps == steps + run.steps
  {
  }

  lemma ThenThen(t1: Trace, n1: nat, t2: Trace, n2: nat, run: Run)
    ensures Then(t1, n1, Then(t2, n2, run)) == Then(t1 + t2, n1 + n2, run)
  {
    assert t1 + (t2 + run.trace) == (t1 + t2) + run.trace;
  }

  // ----- each action of the innermost body, seen on the whole stack -----

  lemma StackFinish<S(!new)>(p: Program<S>, stack: seq<S>, answers: seq<Answer>)
    requires Productive(p) && |stack| > 0 && p.act(stack[0]).Finish?
    ensures var o := p.act(stack[0]).outcome;
            EvalStack(p, stack, answers)
            == if |stack| == 1 then Finished(o, [], answers, 1)
               else Then([], 1, EvalStack(p, Returning(p, stack, o), answers))
  {
  }

  lemma StackPerform<S(!new)>(p: Program<S>, stack: seq<S>, answers: seq<Answer>)
    requires Productive(p) && |stack| > 0 && p.act(stack[0]).Perform?
    ensures var request := p.act(stack[0]).request;
            EvalStack(p, stack, answers)
            == if answers == [] then Waiting(request, [], 1)
               else Then([(request, answers[0])], 1,
                         EvalStack(p, stack[0 := p.resume(stack[0], Interpret(request, answers[0]))], answers[1..]))
  {
    if answers != [] {
      var request := p.act(stack[0]).request;
      var resumed := stack[0 := p.resume(stack[0], Interpret(request, answers[0]))];
      var inner := Eval(p, resumed[0], answers[1..]);
      if inner.Finished? && |stack| > 1 {
        assert Returning(p, resumed, inner.outcome) == Returning(p, stack, inner.outcome);
        ThenThen([(request, answers[0])], 1, inner.trace, inner.steps,
                 EvalStack(p, Returning(p, stack, inner.outcome), inner.rest));
      }
    }
  }

  lemma StackAwait<S(!new)>(p: Program<S>, stack: seq<S>, answers: seq<Answer>)
    requires Productive(p) && |stack| > 0 && p.act(stack[0]).Await?
    ensures EvalStack(p, stack, answers) == Then([], 1, EvalStack(p, [p.act(stack[0]).callee] + stack, answers))
  {
    var pushed := [p.act(stack[0]).callee] + stack;
    var inner := Eval(p, pushed[0], answers);
    if inner.Finished? {
      var back := Returning(p, pushed, inner.outcome);
      assert back == stack[0 := p.resume(stack[0], inner.outcome)];
      var outer := Eval(p, back[0], inner.rest);
      if outer.Finished? && |stack| > 1 {
        assert Returning(p, back, outer.outcome) == Returning(p, stack, outer.outcome);
        ThenThen(inner.trace, inner.steps, outer.trace, outer.steps,
                 EvalStack(p, Returning(p, stack, outer.outcome), outer.rest));
      }
    }
  }

  // What a body makes of a completion: an accept or connect that completed with an error throws
  // it; without one an accept gives the new socket and a connect nothing; a receive and a send
  // give the bytes transferred and look at no error.
  lemma PerformCompleted<S(!new)>(p: Program<S>, s: S, socket: int, bytes: seq<Byte>, error: Error, rest: seq<Answer>)
    returns (o: Outcome)
    requires Productive(p) && p.act(s).Perform?
    ensures var answer := Completed(socket, bytes, error);
            Eval(p, s, [answer] + rest) == Then([(p.act(s).request, answer)], 1, Eval(p, p.resume(s, o), rest))
    ensures o.Threw? <==> (p.act(s).request.Accept? || p.act(s).request.Connect?) && error != 0
    ensures o.Threw? ==> o.error == error
    ensures o.Returned? && p.act(s).request.Accept? ==> o.value == Handle(socket)
    ensures o.Returned? && p.act(s).request.Connect? ==> o.value == Nothing
    ensures p.act(s).request.Recv? || p.act(s).request.Send? ==> o == Returned(Data(bytes))
  {
    o := Interpret(p.act(s).request, Completed(socket, bytes, error));
    assert ([Completed(socket, bytes, error)] + rest)[1..] == rest;
  }

  // An operation that is refused throws the reason, whichever it is.
  lemma PerformRefused<S(!new)>(p: Program<S>, s: S, early: bool, reason: Error, rest: seq<Answer>)
    requires Productive(p) && p.act(s).Perform?
    ensures var answer := Refused(early, reason);
            Eval(p, s, [answer] + rest)
            == Then([(p.act(s).request, answer)], 1, Eval(p, p.resume(s, Threw(reason)), rest))
  {
    assert ([Refused(early, reason)] + rest)[1..] == rest;
  }

  // More answers never change what happened before them.
  lemma {:induction false} EvalMonotone<S(!new)>(p: Program<S>, s: S, answers: seq<Answer>, more: seq<Answer>)
    requires Productive(p)
    ensures var run, longer := Eval(p, s, answers), Eval(p, s, answers + more);
            && run.trace <= longer.trace
            && (run.Finished? ==> longer == run.(rest := run.rest + more))
    decreases |answers|, p.rank(s)
  {
    match p.act(s)
    case Finish(_) =>
    case Perform(request) =>
      if answers == [] {
        assert answers + more == more;
      } else {
        assert (answers + more)[1..] == answers[1..] + more;
        EvalMonotone(p, p.resume(s, Interpret(request, answers[0])), answers[1..], more);
      }
    case Await(callee) =>
      assert ProductiveAt(p, s);
      EvalMonotone(p, callee, answers, more);
      var inner := Eval(p, callee, answers);
      if inner.Finished? {
        EvalMonotone(p, p.resume(s, inner.outcome), inner.rest, more);
      }
  }

  // The answers in a trace, in order.
  function Answers(trace: Trace): (answers: seq<Answer>)
    ensures |answers| == |trace|
  {
    seq(|trace|, i requires 0 <= i < |trace| => trace[i].1)
  }

  // A run uses the answers from the front, one for each operation: those in its trace and those
  // left over are exactly the answers given, and a run that waits has used them all.
  lemma {:induction false} EvalUsesAnswers<S(!new)>(p: Program<S>, s: S, answers: seq<Answer>)
    requires Productive(p)
    ensures var run := Eval(p, s, answers);
            answers == Answers(run.trace) + (if run.Finished? then run.rest else [])
    decreases |answers|, p.rank(s)
  {
    assert ProductiveAt(p, s);
    match p.act(s)
    case Finish(_) =>
    case Perform(request) =>
      if answers != [] {
        var next := p.resume(s, Interpret(request, answers[0]));
        EvalUsesAnswers(p, next, answers[1..]);
        AnswersConcat([(request, answers[0])], Eval(p, next, answers[1..]).trace);
      }
    case Await(callee) =>
      EvalUsesAnswers(p, callee, answers);
      var inner := Eval(p, callee, answers);
      if inner.Finished? {
        var next := p.resume(s, inner.outcome);
        EvalUsesAnswers(p, next, inner.rest);
        AnswersConcat(inner.trace, Eval(p, next, inner.rest).trace);
      }
  }

  lemma AnswersConcat(a: Trace, b: Trace)
    ensures Answers(a + b) == Answers(a) + Answers(b)
  {
  }
}
