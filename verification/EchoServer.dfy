/** The server coroutines of WinsockCoroutine as a program of the event loop. */
module EchoServer {
  import opened Bytes
  import opened Coroutines
  import EventLoop

  const BUFFER_SIZE := 512

  // AcceptAndServe (Serve...) and HandleClient (Handle...), at the places where they continue.
  datatype State =
    | ServeStart(listener: int)
    | ServeAccepted(client: int)
    | ServeEnd
    | HandleStart(client: int)
    | HandleRecv(client: int)
    | HandleSend(client: int, received: seq<Byte>)
    | HandleEnd
    | Failing(error: Error)  // an exception on its way out of either body

  // What Associate says of a socket: nothing, or the exception it throws.
  type Association = int -> Option<Error>

  function Act(association: Association, s: State): Action<State> {
    match s
    case ServeStart(listener) => Perform(Accept(listener))
    case ServeAccepted(client) => Await(HandleStart(client))
    case ServeEnd => Finish(Returned(Nothing))
    case HandleStart(client) =>
      (match association(client)
       case Some(error) => Finish(Threw(error))
       case None => Perform(Recv(client, BUFFER_SIZE)))
    case HandleRecv(client) => Perform(Recv(client, BUFFER_SIZE))
    case HandleSend(client, received) => Perform(Send(client, received))
    case HandleEnd => Finish(Returned(Nothing))
    case Failing(error) => Finish(Threw(error))
  }

  function Next(s: State, o: Outcome): State {
    if o.Threw? then Failing(o.error)
    else
      match s
      case ServeStart(_) => if o.value.Handle? then ServeAccepted(o.value.socket) else ServeEnd
      case ServeAccepted(_) => ServeEnd
      case HandleStart(client) =>
        if o.value.Data? && o.value.bytes != [] then HandleSend(client, o.value.bytes) else HandleEnd
      case HandleRecv(client) =>
        if o.value.Data? && o.value.bytes != [] then HandleSend(client, o.value.bytes) else HandleEnd
      case HandleSend(client, _) => HandleRecv(client)
      case _ => s
  }

  function Server(association: Association): Program<State> {
    Program((s: State) => Act(association, s), (s: State, o: Outcome) => Next(s, o),
            (s: State) => if s.ServeAccepted? then 1 else 0,
            (s: State) => s.ServeStart? || s.HandleRecv? || s.HandleSend?)
  }

  // The server performs an operation after finitely many awaits, and running any of the states
  // that issue one is sure to perform it.
  lemma ServerProductive(association: Association)
    ensures Productive(Server(association))
  {
    forall s: State ensures ProductiveAt(Server(association), s) {
    }
  }

  // The bytes that completed receives on a client delivered.
  function Received(client: int, trace: Trace): seq<Byte> {
    if trace == [] then []
    else
      (match trace[0]
       case (Recv(socket, _), Completed(_, bytes, _)) => if socket == client then bytes else []
       case _ => [])
      + Received(client, trace[1..])
  }

  // The bytes submitted to it for sending.
  function Submitted(client: int, trace: Trace): seq<Byte> {
    if trace == [] then []
    else
      (match trace[0]
       case (Send(socket, data), _) => if socket == client then data else []
       case _ => [])
      + Submitted(client, trace[1..])
  }

  // What a run of HandleClient may look like.
  ghost predicate Echoes(client: int, run: Run) {
    EchoesAfter(client, [], run)
  }

  // The same when `received` has been received and not yet sent back before the run.
  ghost predicate EchoesAfter(client: int, received: seq<Byte>, run: Run) {
    && (forall i :: 0 <= i < |run.trace| ==>
          (run.trace[i].0.Recv? || run.trace[i].0.Send?) && run.trace[i].0.socket == client)
    && (run.Waiting? ==> (run.request.Recv? || run.request.Send?) && run.request.socket == client)
    && Submitted(client, run.trace) <= received + Received(client, run.trace)
    && (run.Waiting? && run.request.Recv? ==> Submitted(client, run.trace) == received + Received(client, run.trace))
    && (run.Finished? && run.outcome.Returned? ==> Submitted(client, run.trace) == received + Received(client, run.trace))
    && (run.Waiting? && run.request.Send? ==>
          Submitted(client, run.trace) + run.request.data == received + Received(client, run.trace))
  }

  lemma TraceCons(client: int, x: (Request, Answer), t: Trace)
    ensures Received(client, [x] + t) == Received(client, [x]) + Received(client, t)
    ensures Submitted(client, [x] + t) == Submitted(client, [x]) + Submitted(client, t)
  {
    assert ([x] + t)[1..] == t && [x][1..] == [];
  }

  // One more exchange at the front, when the bytes still to be sent back add up.
  lemma EchoesCons(client: int, received: seq<Byte>, x: (Request, Answer), received': seq<Byte>, rest: Run)
    requires EchoesAfter(client, received', rest)
    requires (x.0.Recv? || x.0.Send?) && x.0.socket == client
    requires received + Received(client, [x]) == Submitted(client, [x]) + received'
    ensures EchoesAfter(client, received, Then([x], 1, rest))
  {
    hide Received, Submitted;
    TraceCons(client, x, rest.trace);
    var before, after := Submitted(client, [x]), Received(client, rest.trace);
    assert received + (Received(client, [x]) + after) == (received + Received(client, [x])) + after;
    assert (before + received') + after == before + (received' + after);
    if rest.Waiting? && rest.request.Send? {
      var now := Submitted(client, rest.trace);
      assert before + now + rest.request.data == before + (now + rest.request.data);
    }
  }

  // A run that throws after the exchanges so far.
  lemma ThrowsOn(association: Association, client: int, received: seq<Byte>, error: Error, answers: seq<Answer>)
    requires Productive(Server(association))
    ensures EchoesAfter(client, received, Eval(Server(association), Failing(error), answers))
  {
  }

  // For every sequence of answers, the client gets back what it sent: from a pending receive on.
  lemma {:induction false} RecvEchoes(association: Association, client: int, answers: seq<Answer>)
    requires Productive(Server(association))
    ensures Echoes(client, Eval(Server(association), HandleRecv(client), answers))
    decreases |answers|
  {
    if answers != [] {
      var x := (Recv(client, BUFFER_SIZE), answers[0]);
      var state := Next(HandleRecv(client), Interpret(x.0, x.1));
      var received := if answers[0].Completed? then answers[0].bytes else [];
      var rest := Eval(Server(association), state, answers[1..]);
      hide Received, Submitted;
      ReceivedOne(client, x);
      match state {
        case HandleSend(_, _) => SendEchoes(association, client, received, answers[1..]);
        case Failing(error) => ThrowsOn(association, client, received, error, answers[1..]);
        case _ => NothingTraced(client);
      }
      EchoesCons(client, [], x, received, rest);
    } else {
      NothingTraced(client);
    }
  }

  // From a pending send on, the same holds for what follows the bytes being sent.
  lemma {:induction false} SendEchoes(association: Association, client: int, received: seq<Byte>, answers: seq<Answer>)
    requires Productive(Server(association))
    ensures EchoesAfter(client, received, Eval(Server(association), HandleSend(client, received), answers))
    decreases |answers|
  {
    if answers != [] {
      var x := (Send(client, received), answers[0]);
      var state := Next(HandleSend(client, received), Interpret(x.0, x.1));
      var rest := Eval(Server(association), state, answers[1..]);
      hide Received, Submitted;
      ReceivedOne(client, x);
      match state {
        case HandleRecv(_) => RecvEchoes(association, client, answers[1..]);
        case Failing(error) => ThrowsOn(association, client, [], error, answers[1..]);
        case _ =>
      }
      EchoesCons(client, received, x, [], rest);
    } else {
      NothingTraced(client);
    }
  }

  lemma NothingTraced(client: int)
    ensures Received(client, []) == Submitted(client, []) == []
  {
  }

  lemma ReceivedOne(client: int, x: (Request, Answer))
    requires (x.0.Recv? || x.0.Send?) && x.0.socket == client
    ensures Received(client, [x]) == if x.0.Recv? && x.1.Completed? then x.1.bytes else []
    ensures Submitted(client, [x]) == if x.0.Send? then x.0.data else []
  {
    assert [x][1..] == [];
  }

  // The exchange after which HandleClient ends, and how: a refused operation throws its reason,
  // and a receive that completes with no bytes is the client's orderly end.
  ghost predicate Closes(x: (Request, Answer), outcome: Outcome) {
    || (x.1.Refused? && outcome == Threw(x.1.reason))
    || (x.1.Completed? && x.0.Recv? && x.1.bytes == [] && outcome == Returned(Nothing))
  }

  // A run ends with such an exchange, and goes on after every other one: it receives, up to 512
  // bytes at a time, and sends back what it received.
  ghost predicate Converses(client: int, run: Run) {
    && (run.Finished? ==> run.trace != [] && Closes(run.trace[|run.trace| - 1], run.outcome))
    && (forall i :: 0 <= i < |run.trace| && (i < |run.trace| - 1 || run.Waiting?) ==>
          Replies(client, run.trace[i], Asked(run, i + 1)))
  }

  // The request number i of a run, the one it waits for included.
  function Asked(run: Run, i: nat): Request
    requires i < |run.trace| || (run.Waiting? && i == |run.trace|)
  {
    if i < |run.trace| then run.trace[i].0 else run.request
  }

  // A conversation from its first receive on.
  ghost predicate Conversation(client: int, run: Run) {
    (run.trace != [] || run.Waiting?) && Asked(run, 0) == Recv(client, 512) && Converses(client, run)
  }

  // It does not depend on the steps counted and the answers left over.
  lemma SameConversation(client: int, a: Run, b: Run)
    requires Conversation(client, a) && a.trace == b.trace
    requires if a.Waiting? then b.Waiting? && b.request == a.request else b.Finished? && b.outcome == a.outcome
    ensures Conversation(client, b)
  {
    assert forall i :: 0 <= i < |a.trace| || (a.Waiting? && i == |a.trace|) ==> Asked(a, i) == Asked(b, i);
  }

  // What one exchange of a run and the next request have to do with each other.
  ghost predicate Replies(client: int, x: (Request, Answer), next: Request) {
    && x.1.Completed?
    && if x.0.Recv? then x.1.bytes != [] && next == Send(client, x.1.bytes) else next == Recv(client, 512)
  }

  // One more exchange at the front of a run.
  lemma ConversesCons(client: int, x: (Request, Answer), run: Run)
    requires Converses(client, run) && (run.trace != [] || run.Waiting?) && Replies(client, x, Asked(run, 0))
    ensures Converses(client, Then([x], 1, run))
  {
    hide Replies, Closes;
    var longer := Then([x], 1, run);
    forall i | 0 <= i < |longer.trace| && (i < |longer.trace| - 1 || run.Waiting?)
      ensures Replies(client, longer.trace[i], Asked(longer, i + 1))
    {
      assert Asked(longer, i + 1) == Asked(run, i);
      assert i > 0 ==> longer.trace[i] == run.trace[i - 1];
    }
  }

  // Every run of HandleClient is such a conversation, beginning with a receive...
  lemma {:induction false} RecvConverses(association: Association, client: int, answers: seq<Answer>)
    requires Productive(Server(association))
    ensures var run := Eval(Server(association), HandleRecv(client), answers);
            Conversation(client, run)
    decreases |answers|
  {
    if answers != [] {
      var x := (Recv(client, 512), answers[0]);
      var state := Next(HandleRecv(client), Interpret(x.0, x.1));
      var rest := Eval(Server(association), state, answers[1..]);
      assert Eval(Server(association), HandleRecv(client), answers) == Then([x], 1, rest);
      if state.HandleSend? {
        SendConverses(association, client, answers[0].bytes, answers[1..]);
        ConversesCons(client, x, rest);
      }
    }
  }

  // ... or, when there is something to send back, with that.
  lemma {:induction false} SendConverses(association: Association, client: int, received: seq<Byte>, answers: seq<Answer>)
    requires Productive(Server(association))
    ensures var run := Eval(Server(association), HandleSend(client, received), answers);
            (run.trace != [] || run.Waiting?) && Asked(run, 0) == Send(client, received) && Converses(client, run)
    decreases |answers|
  {
    if answers != [] {
      var x := (Send(client, received), answers[0]);
      var state := Next(HandleSend(client, received), Interpret(x.0, x.1));
      var rest := Eval(Server(association), state, answers[1..]);
      assert Eval(Server(association), HandleSend(client, received), answers) == Then([x], 1, rest);
      if state.HandleRecv? {
        RecvConverses(association, client, answers[1..]);
        ConversesCons(client, x, rest);
      }
    }
  }

  // The whole of HandleClient: what Associate throws, or the echo loop.
  lemma HandleClientEchoes(association: Association, client: int, answers: seq<Answer>)
    requires Productive(Server(association))
    ensures var run := Eval(Server(association), HandleStart(client), answers);
            match association(client)
            case Some(error) => run == Finished(Threw(error), [], answers, 1)
            case None => Echoes(client, run) && Conversation(client, run)
  {
    RecvEchoes(association, client, answers);
    RecvConverses(association, client, answers);
    if association(client).None? {
      assert Eval(Server(association), HandleStart(client), answers)
          == Eval(Server(association), HandleRecv(client), answers);
    }
  }

  // AcceptAndServe ends as HandleClient does.
  lemma ServeHandles(association: Association, client: int, answers: seq<Answer>)
    requires Productive(Server(association))
    ensures var program := Server(association);
            var handled := Eval(program, HandleStart(client), answers);
            var served := Eval(program, ServeAccepted(client), answers);
            && served.trace == handled.trace
            && (handled.Waiting? ==> served.Waiting? && served.request == handled.request)
            && (handled.Finished? ==>
                  && served.Finished? && served.rest == handled.rest
                  && served.outcome == if handled.outcome.Threw? then handled.outcome else Returned(Nothing))
  {
    var program := Server(association);
    assert ProductiveAt(program, ServeAccepted(client));
    var handled := Eval(program, HandleStart(client), answers);
    if handled.Finished? {
      var state := Next(ServeAccepted(client), handled.outcome);
      assert Eval(program, state, handled.rest).trace == [];
      assert handled.trace + [] == handled.trace;
    }
  }

  // AcceptAndServe once its accept has succeeded: every exchange after it echoes the client.
  lemma ServerEchoes(association: Association, listener: int, answers: seq<Answer>)
    requires Productive(Server(association)) && answers != []
    requires Interpret(Accept(listener), answers[0]).Returned?
    ensures var run := Eval(Server(association), ServeStart(listener), answers);
            var client := answers[0].socket;
            && run.trace != [] && run.trace[0] == (Accept(listener), answers[0])
            && match association(client)
               case Some(error) => |run.trace| == 1 && run.Finished? && run.outcome == Threw(error)
               case None =>
                 && Echoes(client, run.(trace := run.trace[1..]))
                 && Conversation(client, run.(trace := run.trace[1..]))
  {
    var program := Server(association);
    var client := answers[0].socket;
    HandleClientEchoes(association, client, answers[1..]);
    ServeHandles(association, client, answers[1..]);
    var accepted := Eval(program, ServeAccepted(client), answers[1..]);
    var x := (Accept(listener), answers[0]);
    assert Eval(program, ServeStart(listener), answers) == Then([x], 1, accepted);
    assert ([x] + accepted.trace)[1..] == accepted.trace;
    if association(client).None? {
      var run := Eval(program, ServeStart(listener), answers);
      hide Conversation, Eval;
      SameConversation(client, Eval(program, HandleStart(client), answers[1..]), run.(trace := run.trace[1..]));
    }
  }

  // What a run looks like from outside the event loop.
  function Seen(outcome: Option<Outcome>, pending: Option<Request>, trace: Trace): Run
    requires outcome.None? <==> pending.Some?
  {
    if outcome.Some? then Finished(outcome.value, trace, [], 0) else Waiting(pending.value, trace, 0)
  }

  // Server::Run on the event loop, for every order and number of completions. It accepts, and a
  // refused or failed accept is the exception of the task, as is what Associate throws. After that
  // it receives and sends back until a receive completes with no bytes, which is the only orderly
  // end, or an operation is refused, which is the only other exception. So the client is sent a
  // prefix of what it sent, all of it while a receive is pending and after an orderly end, and with
  // the pending send all of it otherwise.
  method Serve(association: Association, listener: int, answers: seq<Answer>, glitches: nat)
    returns (outcome: Option<Outcome>, pending: Option<Request>, ghost trace: Trace)
    ensures outcome.None? <==> pending.Some?
    ensures Answers(trace) <= answers && (pending.Some? ==> Answers(trace) == answers)
    ensures answers == [] ==> pending == Some(Accept(listener))
    ensures answers != [] ==> trace != [] && trace[0] == (Accept(listener), answers[0])
    ensures answers != [] && answers[0].Refused? ==> outcome == Some(Threw(answers[0].reason)) && |trace| == 1
    ensures answers != [] && answers[0].Completed? && answers[0].error != 0 ==>
      outcome == Some(Threw(answers[0].error)) && |trace| == 1
    ensures answers != [] && answers[0].Completed? && answers[0].error == 0 ==>
      var client := answers[0].socket;
      match association(client)
      case Some(error) => outcome == Some(Threw(error)) && |trace| == 1
      case None =>
        && Conversation(client, Seen(outcome, pending, trace[1..]))
        && Submitted(client, trace) <= Received(client, trace)
        && (outcome.Some? && outcome.value.Returned? ==> Submitted(client, trace) == Received(client, trace))
        && (pending.Some? && pending.value.Recv? ==> Submitted(client, trace) == Received(client, trace))
        && (pending.Some? && pending.value.Send? ==>
              Submitted(client, trace) + pending.value.data == Received(client, trace))
  {
    var program := Server(association);
    ServerProductive(association);
    EvalUsesAnswers(program, ServeStart(listener), answers);
    outcome, pending, trace := EventLoop.Execute(program, ServeStart(listener), answers, glitches);
    ServeAccepts(association, listener, answers);
    if answers != [] && answers[0].Completed? && answers[0].error == 0 {
      ServerEchoes(association, listener, answers);
      hide Submitted, Received;
      var client := answers[0].socket;
      if association(client).None? {
        var run := Eval(program, ServeStart(listener), answers);
        SameConversation(client, run.(trace := run.trace[1..]), Seen(outcome, pending, trace[1..]));
      }
      AcceptCarriesNothing(client, listener, answers[0], trace);
    }
  }

  // The accept at the start of the server.
  lemma ServeAccepts(association: Association, listener: int, answers: seq<Answer>)
    requires Productive(Server(association))
    ensures var run := Eval(Server(association), ServeStart(listener), answers);
            && (answers == [] ==> run.Waiting? && run.request == Accept(listener))
            && (answers != [] ==> run.trace != [] && run.trace[0] == (Accept(listener), answers[0]))
            && (answers != [] && answers[0].Refused? ==>
                  |run.trace| == 1 && run.Finished? && run.outcome == Threw(answers[0].reason))
            && (answers != [] && answers[0].Completed? && answers[0].error != 0 ==>
                  |run.trace| == 1 && run.Finished? && run.outcome == Threw(answers[0].error))
  {
  }

  lemma AcceptCarriesNothing(client: int, listener: int, answer: Answer, trace: Trace)
    requires trace != [] && trace[0] == (Accept(listener), answer)
    ensures Received(client, trace) == Received(client, trace[1..])
    ensures Submitted(client, trace) == Submitted(client, trace[1..])
  {
  }
}
