/**
 The two DoAuthentication loops against each other: security contexts produce tokens, SendMsg
 and ReceiveMsg carry them over two byte streams.

 A context is a function from the tokens it has been given so far to its next token and to
 whether it is done. ReceiveMsg waits until a whole frame has arrived.
 */
module TokenExchange {
  import opened Bytes
  import opened Framing

  // cbMaxMessage: the size of the token buffers.
  const MAX_TOKEN: nat := 12000

  type Token = seq<Byte>
  datatype Reply = Reply(token: Token, done: bool)
  datatype Contexts = Contexts(client: seq<Token> -> Reply, server: seq<Token> -> Reply)

  // Tokens fit the buffers.
  ghost predicate Bounded(x: Contexts) {
    forall given: seq<Token> :: |x.client(given).token| <= MAX_TOKEN && |x.server(given).token| <= MAX_TOKEN
  }

  // ----- the contexts talking to each other directly -----

  // What the client has sent after n turns, and the server after n turns.
  function ClientTokens(x: Contexts, n: nat): (tokens: seq<Token>)
    ensures |tokens| == n
    decreases n, 0
  {
    if n == 0 then [] else ClientTokens(x, n - 1) + [x.client(ServerTokens(x, n - 1)).token]
  }

  function ServerTokens(x: Contexts, n: nat): (tokens: seq<Token>)
    ensures |tokens| == n
    decreases n, 1
  {
    if n == 0 then [] else ServerTokens(x, n - 1) + [x.server(ClientTokens(x, n)).token]
  }

  // The client's reply to n tokens, and the server's.
  function Client(x: Contexts, n: nat): Reply {
    x.client(ServerTokens(x, n))
  }

  function Server(x: Contexts, n: nat): Reply {
    x.server(ClientTokens(x, n))
  }

  // The contexts agree on how the talk ends when the client is done after `last` tokens: until
  // then both have something to say whenever the other waits, and both finish with that turn,
  // the server having heard everything and the client too.
  ghost predicate Agree(x: Contexts, last: nat) {
    && Client(x, last).done
    && (forall i :: 0 <= i < last ==> !Client(x, i).done && Client(x, i).token != [])
    && (forall i :: 0 < i <= last ==> Server(x, i).token != [])
    && (forall i :: 0 < i < last ==> !Server(x, i).done)
    && if last > 0 && Server(x, last).done then Client(x, last).token == []
       else Client(x, last).token != [] && Server(x, last + 1).done && Server(x, last + 1).token == []
  }

  // ----- the two loops -----

  datatype State = State(
    clientGot: seq<Token>, clientSent: nat, clientDone: bool,   // turns taken by the client
    serverGot: seq<Token>, serverDone: bool,
    toServer: seq<Byte>, toClient: seq<Byte>)                   // bytes on the way

  const Initial := State([], 0, false, [], false, [], [])

  datatype Step = ClientStart | ClientTurn | ServerTurn

  predicate Enabled(s: State, step: Step) {
    match step
    case ClientStart => s.clientSent == 0
    case ClientTurn => s.clientSent > 0 && !s.clientDone && Framed(s.toClient)
    case ServerTurn => !s.serverDone && Framed(s.toServer)
  }

  function Apply(x: Contexts, s: State, step: Step): State
    requires Bounded(x) && Enabled(s, step)
  {
    match step
    case ClientStart =>
      var reply := x.client([]);
      s.(clientSent := 1, clientDone := reply.done, toServer := s.toServer + Frame(reply.token))
    case ClientTurn =>
      var (token, rest) := Unframe(s.toClient);
      var reply := x.client(s.clientGot + [token]);
      s.(clientGot := s.clientGot + [token], clientSent := s.clientSent + 1, clientDone := reply.done,
         toClient := rest, toServer := s.toServer + Frame(reply.token))
    case ServerTurn =>
      var (token, rest) := Unframe(s.toServer);
      var reply := x.server(s.serverGot + [token]);
      s.(serverGot := s.serverGot + [token], serverDone := reply.done,
         toServer := rest, toClient := s.toClient + Frame(reply.token))
  }

  // Whatever the contexts do: tokens arrive once, in order and unchanged, and at most one token
  // is on the way.
  ghost predicate Inv(x: Contexts, s: State)
    requires Bounded(x)
  {
    if s.clientSent == 0 then s == Initial
    else
      var n := s.clientSent - 1;
      && s.clientGot == ServerTokens(x, n) && s.clientDone == Client(x, n).done
      && ((|s.serverGot| == n && s.serverGot == ClientTokens(x, n) && s.toClient == []
           && s.serverDone == (n > 0 && Server(x, n).done) && s.toServer == Frame(Client(x, n).token))
          || (s.serverGot == ClientTokens(x, n + 1) && s.toServer == []
              && s.serverDone == Server(x, n + 1).done && s.toClient == Frame(Server(x, n + 1).token)))
  }

  lemma FramedFrame(token: Token)
    requires |token| <= MAX_TOKEN
    ensures Framed(Frame(token)) <==> token != []
    ensures token != [] ==> Unframe(Frame(token)) == (token, [])
  {
    if token != [] {
      UnframeFrame(token, []);
      assert Frame(token) + [] == Frame(token);
    }
  }

  lemma InvStep(x: Contexts, s: State, step: Step)
    requires Bounded(x) && Inv(x, s) && Enabled(s, step)
    ensures Inv(x, Apply(x, s, step))
  {
    if s.clientSent > 0 {
      var n := s.clientSent - 1;
      hide Frame, Framed, Unframe;
      FramedFrame(Client(x, n).token);
      FramedFrame(Server(x, n + 1).token);
      FramedFrame([]);
      assert [] + Frame(Client(x, n + 1).token) == Frame(Client(x, n + 1).token);
      assert [] + Frame(Server(x, n + 1).token) == Frame(Server(x, n + 1).token);
    }
  }

  // The turns taken so far were possible: nobody who waited had been done, or was sent nothing.
  ghost predicate Past(x: Contexts, s: State)
  {
    s.clientSent > 0 ==>
      var n := s.clientSent - 1;
      && (forall i :: 0 <= i < n ==> !Client(x, i).done && Client(x, i).token != [])
      && (forall i :: 0 < i <= n ==> Server(x, i).token != [])
      && (forall i :: 0 < i < n ==> !Server(x, i).done)
      && (|s.serverGot| == n + 1 ==> Client(x, n).token != [] && (n > 0 ==> !Server(x, n).done))
  }

  lemma PastClientTurn(x: Contexts, s: State)
    requires Bounded(x) && Inv(x, s) && Past(x, s) && Enabled(s, ClientTurn)
    ensures Past(x, Apply(x, s, ClientTurn))
  {
    FramedFrame(Server(x, s.clientSent).token);
    FramedFrame([]);
    hide Frame, Framed, Unframe, Client, Server;
  }

  lemma PastServerTurn(x: Contexts, s: State)
    requires Bounded(x) && Inv(x, s) && Past(x, s) && Enabled(s, ServerTurn)
    ensures Past(x, Apply(x, s, ServerTurn))
  {
    if s.clientSent > 0 {
      FramedFrame(Client(x, s.clientSent - 1).token);
      FramedFrame([]);
      hide Frame, Framed, Unframe, Client, Server;
    }
  }

  lemma PastStep(x: Contexts, s: State, step: Step)
    requires Bounded(x) && Inv(x, s) && Past(x, s) && Enabled(s, step)
    ensures Past(x, Apply(x, s, step))
  {
    match step
    case ClientStart =>
    case ClientTurn => PastClientTurn(x, s);
    case ServerTurn => PastServerTurn(x, s);
  }

  // ----- whole runs -----

  ghost predicate Run(x: Contexts, s: State, steps: seq<Step>, t: State)
    requires Bounded(x)
    decreases |steps|
  {
    if steps == [] then s == t else Enabled(s, steps[0]) && Run(x, Apply(x, s, steps[0]), steps[1..], t)
  }

  lemma {:induction false} RunKeepsInv(x: Contexts, s: State, steps: seq<Step>, t: State)
    requires Bounded(x) && Inv(x, s) && Past(x, s) && Run(x, s, steps, t)
    ensures Inv(x, t) && Past(x, t) && t.clientSent + |t.serverGot| == s.clientSent + |s.serverGot| + |steps|
    decreases |steps|
  {
    hide Inv, Past, Frame, Framed, Unframe;
    if steps != [] {
      InvStep(x, s, steps[0]);
      PastStep(x, s, steps[0]);
      RunKeepsInv(x, Apply(x, s, steps[0]), steps[1..], t);
    }
  }

  // Both sides have finished and every token has been read.
  predicate Final(s: State) {
    s.clientSent > 0 && s.clientDone && s.serverDone && s.toServer == [] && s.toClient == []
  }

  predicate Stuck(s: State) {
    !Enabled(s, ClientStart) && !Enabled(s, ClientTurn) && !Enabled(s, ServerTurn)
  }

  // With contexts that agree, a state that is not final can always go on, and runs are bounded.
  lemma Progress(x: Contexts, s: State, last: nat) returns (step: Step)
    requires Bounded(x) && Inv(x, s) && Past(x, s) && Agree(x, last) && !Final(s)
    ensures Enabled(s, step)
  {
    if s.clientSent == 0 {
      return ClientStart;
    }
    Lasts(x, s, last);
    var n := s.clientSent - 1;
    hide Frame, Framed, Unframe, Client, Server;
    FramedFrame(Client(x, n).token);
    FramedFrame(Server(x, n + 1).token);
    FramedFrame([]);
    NoFrame();
    step := if Enabled(s, ServerTurn) then ServerTurn else ClientTurn;
  }

  lemma NoFrame()
    ensures Frame([]) == []
  {
  }

  // The client takes no turn after its last one.
  lemma Lasts(x: Contexts, s: State, last: nat)
    requires Bounded(x) && Inv(x, s) && Past(x, s) && Agree(x, last)
    ensures s.clientSent <= last + 1 && |s.serverGot| <= last + 1
  {
    assert s.clientSent > last + 1 ==> !Client(x, last).done;
  }

  // The loops finish together with nothing left on the way exactly when the contexts agree:
  // then every run is bounded and can only stop there; otherwise no run gets there.
  lemma {:induction false} AgreementSuffices(x: Contexts, last: nat, steps: seq<Step>, t: State)
    requires forall given: seq<Token> :: |x.client(given).token| <= 12000 && |x.server(given).token| <= 12000
    requires Agree(x, last) && Run(x, Initial, steps, t)
    ensures |steps| <= 2 * last + 2
    ensures Stuck(t) ==> Final(t) && t.clientGot == ServerTokens(x, last) && t.clientSent == last + 1
    ensures Final(t) ==> t.serverGot == ClientTokens(x, |t.serverGot|) && |t.serverGot| in {last, last + 1}
  {
    assert Inv(x, Initial) && Past(x, Initial);
    RunKeepsInv(x, Initial, steps, t);
    Lasts(x, t, last);
    if !Final(t) {
      var step := Progress(x, t, last);
    } else {
      FinalAgrees(x, t);
      AgreeOnce(x, last, t.clientSent - 1);
    }
  }

  lemma AgreementNecessary(x: Contexts, steps: seq<Step>, t: State)
    requires forall given: seq<Token> :: |x.client(given).token| <= 12000 && |x.server(given).token| <= 12000
    requires Run(x, Initial, steps, t) && Final(t)
    ensures Agree(x, t.clientSent - 1)
  {
    assert Inv(x, Initial) && Past(x, Initial);
    RunKeepsInv(x, Initial, steps, t);
    FinalAgrees(x, t);
  }

  lemma FinalAgrees(x: Contexts, t: State)
    requires Bounded(x) && Inv(x, t) && Past(x, t) && Final(t)
    ensures Agree(x, t.clientSent - 1)
  {
    FramedFrame(Client(x, t.clientSent - 1).token);
    FramedFrame(Server(x, t.clientSent).token);
  }

  // Contexts that agree exist: a challenge between two tokens of the client.
  lemma ThreeTokens()
    ensures exists x: Contexts ::
      Bounded(x) && Agree(x, 1) && ClientTokens(x, 2) == [[1], [3]] && ServerTokens(x, 1) == [[2]]
  {
    var x := Contexts(
      (given: seq<Token>) => if given == [] then Reply([1], false) else Reply([3], true),
      (given: seq<Token>) => if |given| < 2 then Reply([2], false) else Reply([], true));
    assert ServerTokens(x, 0) == [] && ClientTokens(x, 1) == [[1]];
    assert ServerTokens(x, 1) == [[2]] && ClientTokens(x, 2) == [[1], [3]];
    assert Agree(x, 1);
  }

  lemma AgreeOnce(x: Contexts, a: nat, b: nat)
    requires Agree(x, a) && Agree(x, b)
    ensures a == b
  {
  }
}
