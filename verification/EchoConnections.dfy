/**
 Who owns a connection in the IOCP echo server: the accept loop, any number of workers, the
 operations in flight and the packets in the completion queue, as a state machine.

 Everything that can touch a connection is a job with that connection's address. An address may
 be used again after the connection was deleted.
 */
module EchoConnections {
  import opened Bytes

  const BUFFER_SIZE: nat := 4096

  type Address = nat

  datatype OpType = Recv | Send

  datatype Connection = Connection(
    recvBuffer: seq<Byte>,   // RecvOp.Buffer
    sendBuffer: seq<Byte>,   // SendOp.Buffer
    received: seq<Byte>,     // all bytes received so far
    sent: seq<Byte>)         // all bytes sent so far

  datatype Job =
    | Free                                                     // a thread waiting for work
    | Adopted(conn: Address)                                   // allocated by the accept loop
    | Posting(conn: Address, op: OpType, len: nat)             // operation prepared, before WSARecv or WSASend
    | Flying(conn: Address, op: OpType, len: nat)              // with the operating system
    | Done(conn: Address, op: OpType, bytes: nat, ok: bool)    // a packet, queued or being handled

  // Where RecvOp.WsaBuf.buf points once PostRecv has assigned RecvOp: to the buffer of RecvOp, as
  // intended, or, as written, still to the buffer of the temporary it was assigned from.
  datatype Target = OwnBuffer | Temporary

  datatype State = State(
    target: Target,          // the same for every receive of a program
    live: map<Address, Connection>,
    inFlight: seq<Job>,
    queued: seq<Job>,
    workers: seq<Job>,
    acceptor: Job,
    fault: bool)             // something touched a deleted connection or left a buffer

  datatype Step =
    | Accept(conn: Address)
    | Associate
    | FirstPost
    | CompleteRecv(i: nat, data: seq<Byte>)   // no data: the client has closed the connection
    | CompleteSend(i: nat)
    | Abort(i: nat, bytes: nat)
    | Dequeue(w: nat, j: nat)                 // any worker, any packet
    | Handle(w: nat)
    | Post(w: nat)

  predicate Flies(s: State, i: nat, op: OpType) {
    i < |s.inFlight| && s.inFlight[i].Flying? && s.inFlight[i].op == op
  }

  predicate Enabled(s: State, step: Step) {
    match step
    case Accept(conn) => s.acceptor.Free? && conn !in s.live
    case Associate => s.acceptor.Adopted?
    case FirstPost => s.acceptor.Posting?
    case CompleteRecv(i, data) => Flies(s, i, Recv) && |data| <= s.inFlight[i].len
    case CompleteSend(i) => Flies(s, i, Send)
    case Abort(i, _) => i < |s.inFlight| && s.inFlight[i].Flying?
    case Dequeue(w, j) => w < |s.workers| && s.workers[w].Free? && j < |s.queued| && s.queued[j].Done?
    case Handle(w) => w < |s.workers| && s.workers[w].Done?
    case Post(w) => w < |s.workers| && s.workers[w].Posting?
  }

  function Zeros(): seq<Byte> {
    seq(BUFFER_SIZE, _ => 0)
  }

  // Bytes put at the front of a buffer.
  function Fill(buffer: seq<Byte>, data: seq<Byte>): seq<Byte>
    requires |data| <= |buffer|
  {
    data + buffer[|data|..]
  }

  function Without(jobs: seq<Job>, i: nat): seq<Job>
    requires i < |jobs|
  {
    jobs[..i] + jobs[i + 1..]
  }

  // A receive that completes with data.
  predicate Delivers(step: Step) {
    step.CompleteRecv? && step.data != []
  }

  // Received bytes go where nothing is any more.
  predicate Strays(target: Target, step: Step) {
    target.Temporary? && Delivers(step)
  }

  // What each step does to the connection it touches; None if it would leave a buffer.
  function Touch(target: Target, c: Connection, step: Step, job: Job): Option<Connection> {
    match step
    case Associate => Some(c.(recvBuffer := Zeros()))
    case CompleteRecv(_, data) =>
      if |data| > |c.recvBuffer| || Strays(target, step) then None
      else Some(c.(recvBuffer := Fill(c.recvBuffer, data), received := c.received + data))
    case CompleteSend(_) =>
      if !job.Flying? || job.len > |c.sendBuffer| then None else Some(c.(sent := c.sent + c.sendBuffer[..job.len]))
    case Handle(_) =>
      if job.Done? && job.op.Recv? then
        // PostSend: a fresh SendOp, then the received bytes are copied into it.
        if job.bytes > |c.recvBuffer| || job.bytes > BUFFER_SIZE then None
        else Some(c.(sendBuffer := Fill(Zeros(), c.recvBuffer[..job.bytes])))
      else
        // PostRecv: a fresh RecvOp.
        Some(c.(recvBuffer := Zeros()))
    case _ => Some(c)
  }

  // The state with the connection of a job touched.
  function Touched(s: State, step: Step, job: Job): State
    requires !job.Free?
  {
    if job.conn in s.live && Touch(s.target, s.live[job.conn], step, job).Some? then
      s.(live := s.live[job.conn := Touch(s.target, s.live[job.conn], step, job).value])
    else
      s.(fault := true)
  }

  // `not ok or bytes == 0`: the worker deletes the connection.
  predicate Closes(job: Job) {
    job.Done? && (!job.ok || job.bytes == 0)
  }

  function Apply(s: State, step: Step): State
    requires Enabled(s, step)
  {
    match step
    case Accept(conn) =>
      s.(live := s.live[conn := Connection(Zeros(), Zeros(), [], [])], acceptor := Adopted(conn))
    case Associate =>
      Touched(s, step, s.acceptor).(acceptor := Posting(s.acceptor.conn, Recv, BUFFER_SIZE))
    case FirstPost =>
      Touched(s, step, s.acceptor).(
        acceptor := Free, inFlight := s.inFlight + [Flying(s.acceptor.conn, s.acceptor.op, s.acceptor.len)])
    case CompleteRecv(i, data) =>
      Touched(s, step, s.inFlight[i]).(
        inFlight := Without(s.inFlight, i), queued := s.queued + [Done(s.inFlight[i].conn, Recv, |data|, true)])
    case CompleteSend(i) =>
      Touched(s, step, s.inFlight[i]).(
        inFlight := Without(s.inFlight, i), queued := s.queued + [Done(s.inFlight[i].conn, Send, s.inFlight[i].len, true)])
    case Abort(i, bytes) =>
      Touched(s, step, s.inFlight[i]).(
        inFlight := Without(s.inFlight, i),
        queued := s.queued + [Done(s.inFlight[i].conn, s.inFlight[i].op, bytes, false)])
    case Dequeue(w, j) =>
      s.(workers := s.workers[w := s.queued[j]], queued := Without(s.queued, j))
    case Handle(w) =>
      var job := s.workers[w];
      if Closes(job) then
        s.(live := s.live - {job.conn}, fault := s.fault || job.conn !in s.live, workers := s.workers[w := Free])
      else
        Touched(s, step, job).(workers :=
          s.workers[w := if job.op.Recv? then Posting(job.conn, Send, job.bytes) else Posting(job.conn, Recv, BUFFER_SIZE)])
    case Post(w) =>
      var job := s.workers[w];
      Touched(s, step, job).(
        workers := s.workers[w := Free], inFlight := s.inFlight + [Flying(job.conn, job.op, job.len)])
  }

  function Initial(target: Target, workers: nat): State {
    State(target, map[], [], [], seq(workers, _ => Free), Free, false)
  }

  // ----- one job per connection -----

  predicate Concerns(job: Job, conn: Address) {
    !job.Free? && job.conn == conn
  }

  function Count(jobs: seq<Job>, conn: Address): nat {
    if jobs == [] then 0 else (if Concerns(jobs[0], conn) then 1 else 0) + Count(jobs[1..], conn)
  }

  // Everything that will still touch the connection, or is touching it.
  function Jobs(s: State, conn: Address): nat {
    Count(s.inFlight, conn) + Count(s.queued, conn) + Count(s.workers, conn) + Count([s.acceptor], conn)
  }

  lemma {:induction false} CountConcat(a: seq<Job>, b: seq<Job>, conn: Address)
    ensures Count(a + b, conn) == Count(a, conn) + Count(b, conn)
  {
    if a == [] {
      assert a + b == b;
    } else {
      assert (a + b)[1..] == a[1..] + b;
      CountConcat(a[1..], b, conn);
    }
  }

  function One(job: Job, conn: Address): nat {
    if Concerns(job, conn) then 1 else 0
  }

  lemma CountOne(job: Job, conn: Address)
    ensures Count([job], conn) == One(job, conn)
  {
    assert [job][1..] == [];
  }

  lemma CountWithout(jobs: seq<Job>, i: nat, conn: Address)
    requires i < |jobs|
    ensures Count(Without(jobs, i), conn) + One(jobs[i], conn) == Count(jobs, conn)
  {
    assert jobs == jobs[..i] + ([jobs[i]] + jobs[i + 1..]);
    CountConcat(jobs[..i], [jobs[i]] + jobs[i + 1..], conn);
    CountConcat([jobs[i]], jobs[i + 1..], conn);
    CountConcat(jobs[..i], jobs[i + 1..], conn);
    CountOne(jobs[i], conn);
  }

  lemma CountAppend(jobs: seq<Job>, job: Job, conn: Address)
    ensures Count(jobs + [job], conn) == Count(jobs, conn) + One(job, conn)
  {
    CountConcat(jobs, [job], conn);
    CountOne(job, conn);
  }

  lemma CountReplace(jobs: seq<Job>, i: nat, job: Job, conn: Address)
    requires i < |jobs|
    ensures Count(jobs[i := job], conn) + One(jobs[i], conn) == Count(jobs, conn) + One(job, conn)
  {
    CountWithout(jobs, i, conn);
    CountWithout(jobs[i := job], i, conn);
    assert Without(jobs[i := job], i) == Without(jobs, i);
  }

  // A connection no job concerns is not among them.
  lemma {:induction false} CountZero(jobs: seq<Job>, conn: Address)
    ensures Count(jobs, conn) == 0 <==> forall i :: 0 <= i < |jobs| ==> !Concerns(jobs[i], conn)
  {
    if jobs != [] {
      CountZero(jobs[1..], conn);
      assert forall i :: 0 <= i < |jobs| ==> jobs[i] == if i == 0 then jobs[0] else jobs[1..][i - 1];
    }
  }

  ghost predicate SingleFlight(s: State) {
    forall conn :: Jobs(s, conn) == if conn in s.live then 1 else 0
  }

  // The bytes of a connection at each stage of its one job.
  ghost predicate Fits(live: map<Address, Connection>, job: Job) {
    !job.Free? ==>
      && job.conn in live
      && var c := live[job.conn];
      && |c.recvBuffer| == |c.sendBuffer| == BUFFER_SIZE
      && c.sent <= c.received
      && match job
         case Free => true
         case Adopted(_) => c.received == []
         case Posting(_, op, len) => len <= BUFFER_SIZE && Owes(c, op, len)
         case Flying(_, op, len) => len <= BUFFER_SIZE && Owes(c, op, len)
         case Done(_, op, bytes, ok) =>
           ok ==> && bytes <= BUFFER_SIZE
                  && c.received == c.sent + (if op.Recv? then c.recvBuffer[..bytes] else [])
  }

  // While an operation is out: the send buffer holds what was received and not yet sent.
  ghost predicate Owes(c: Connection, op: OpType, len: nat)
    requires len <= BUFFER_SIZE == |c.sendBuffer|
  {
    c.received == c.sent + (if op.Send? then c.sendBuffer[..len] else [])
  }

  ghost predicate AllFit(live: map<Address, Connection>, jobs: seq<Job>) {
    forall i :: 0 <= i < |jobs| ==> Fits(live, jobs[i])
  }

  ghost predicate Inv(s: State) {
    && !s.fault && SingleFlight(s)
    && AllFit(s.live, s.inFlight) && AllFit(s.live, s.queued) && AllFit(s.live, s.workers) && AllFit(s.live, [s.acceptor])
  }

  lemma InvInitially(target: Target, workers: nat)
    ensures Inv(Initial(target, workers))
  {
    var s := Initial(target, workers);
    forall conn: Address ensures Jobs(s, conn) == 0 {
      CountZero(s.workers, conn);
      CountZero([s.acceptor], conn);
    }
  }

  // ----- a step replaces one job by another -----

  function Before(s: State, step: Step): Job
    requires Enabled(s, step)
  {
    match step
    case Accept(_) => s.acceptor
    case Associate => s.acceptor
    case FirstPost => s.acceptor
    case CompleteRecv(i, _) => s.inFlight[i]
    case CompleteSend(i) => s.inFlight[i]
    case Abort(i, _) => s.inFlight[i]
    case Dequeue(_, j) => s.queued[j]
    case Handle(w) => s.workers[w]
    case Post(w) => s.workers[w]
  }

  function After(s: State, step: Step): Job
    requires Enabled(s, step)
  {
    var job := Before(s, step);
    match step
    case Accept(conn) => Adopted(conn)
    case Associate => Posting(job.conn, Recv, BUFFER_SIZE)
    case FirstPost => Flying(job.conn, job.op, job.len)
    case CompleteRecv(_, data) => Done(job.conn, Recv, |data|, true)
    case CompleteSend(_) => Done(job.conn, Send, job.len, true)
    case Abort(_, bytes) => Done(job.conn, job.op, bytes, false)
    case Dequeue(_, _) => job
    case Handle(_) =>
      if Closes(job) then Free
      else if job.op.Recv? then Posting(job.conn, Send, job.bytes)
      else Posting(job.conn, Recv, BUFFER_SIZE)
    case Post(_) => Flying(job.conn, job.op, job.len)
  }

  lemma JobsStep(s: State, step: Step, conn: Address)
    requires Enabled(s, step)
    ensures Jobs(Apply(s, step), conn) + One(Before(s, step), conn) == Jobs(s, conn) + One(After(s, step), conn)
  {
    hide Count;
    var job, job' := Before(s, step), After(s, step);
    CountOne(job, conn);
    CountOne(job', conn);
    match step
    case Accept(_) =>
    case Associate =>
    case FirstPost =>
      CountOne(Free, conn);
      CountAppend(s.inFlight, job', conn);
    case Dequeue(w, j) =>
      CountReplace(s.workers, w, job, conn);
      CountWithout(s.queued, j, conn);
    case Handle(w) => CountReplace(s.workers, w, job', conn);
    case Post(w) =>
      CountReplace(s.workers, w, Free, conn);
      CountAppend(s.inFlight, job', conn);
    case _ =>
      CountWithout(s.inFlight, step.i, conn);
      CountAppend(s.queued, job', conn);
  }

  // The connection a step changes, if any, is the one its job is for.
  function Changed(s: State, step: Step): Address
    requires Enabled(s, step)
  {
    if step.Accept? then step.conn else if Before(s, step).Free? then 0 else Before(s, step).conn
  }

  ghost predicate SameElsewhere(live: map<Address, Connection>, live': map<Address, Connection>, conn: Address) {
    forall k | k != conn :: (k in live <==> k in live') && (k in live ==> live[k] == live'[k])
  }

  // Jobs for other connections are not affected.
  lemma FitElsewhere(live: map<Address, Connection>, live': map<Address, Connection>, conn: Address, jobs: seq<Job>)
    requires AllFit(live, jobs) && SameElsewhere(live, live', conn) && Count(jobs, conn) == 0
    ensures AllFit(live', jobs)
  {
    CountZero(jobs, conn);
  }

  // The step's own job stays within its connection and leaves it as the next stage needs it.
  lemma JobStep(s: State, step: Step)
    requires Enabled(s, step) && !s.fault && !step.Accept? && Fits(s.live, Before(s, step)) && !Strays(s.target, step)
    ensures !Apply(s, step).fault && Fits(Apply(s, step).live, After(s, step))
    ensures SameElsewhere(s.live, Apply(s, step).live, Changed(s, step))
  {
  }

  lemma FitReplaced(live: map<Address, Connection>, live': map<Address, Connection>, conn: Address,
                    jobs: seq<Job>, i: nat, job: Job)
    requires AllFit(live, jobs) && SameElsewhere(live, live', conn) && i < |jobs|
    requires Count(jobs, conn) == One(jobs[i], conn) && Fits(live', job)
    ensures AllFit(live', jobs[i := job]) && AllFit(live', Without(jobs, i))
  {
    var others := Without(jobs, i);
    CountWithout(jobs, i, conn);
    CountZero(others, conn);
    forall j | 0 <= j < |jobs| && j != i ensures Fits(live', jobs[j]) {
      assert jobs[j] == others[if j < i then j else j - 1];
    }
    forall j | 0 <= j < |others| ensures Fits(live', others[j]) {
      assert others[j] == jobs[if j < i then j else j + 1];
    }
  }

  lemma SingleFlightStep(s: State, step: Step)
    requires Enabled(s, step) && SingleFlight(s) && !s.fault && Fits(s.live, Before(s, step)) && !Strays(s.target, step)
    ensures SingleFlight(Apply(s, step))
  {
    var t := Apply(s, step);
    forall conn: Address ensures Jobs(t, conn) == if conn in t.live then 1 else 0 {
      JobsStep(s, step, conn);
      assert Jobs(s, conn) == if conn in s.live then 1 else 0;
      hide Jobs;
    }
  }

  // No other job concerns the connection that a step works on.
  lemma Alone(s: State, step: Step)
    requires Enabled(s, step) && SingleFlight(s) && Fits(s.live, Before(s, step)) && (step.Accept? || !Before(s, step).Free?)
    ensures var conn := Changed(s, step);
            Jobs(s, conn) == One(Before(s, step), conn)
  {
    var conn := Changed(s, step);
    assert Jobs(s, conn) == if conn in s.live then 1 else 0;
  }

  // What is known about a step before its effect on the other jobs is considered.
  ghost predicate Settled(s: State, step: Step)
    requires Enabled(s, step)
  {
    var t, conn := Apply(s, step), Changed(s, step);
    && Jobs(s, conn) == One(Before(s, step), conn)
    && SameElsewhere(s.live, t.live, conn) && Fits(t.live, After(s, step)) && !t.fault
  }

  lemma Settle(s: State, step: Step)
    requires Inv(s) && Enabled(s, step) && !Strays(s.target, step)
    ensures Fits(s.live, Before(s, step)) && Settled(s, step)
  {
    assert Fits(s.live, [s.acceptor][0]);
    Alone(s, step);
    if !step.Accept? {
      JobStep(s, step);
    }
  }

  lemma InFlightFits(s: State, step: Step)
    requires Inv(s) && Enabled(s, step) && Settled(s, step)
    ensures AllFit(Apply(s, step).live, Apply(s, step).inFlight)
  {
    var t, job', conn := Apply(s, step), After(s, step), Changed(s, step);
    hide Count, Fits;
    Holds(s, step);
    if step.CompleteRecv? || step.CompleteSend? || step.Abort? {
      FitReplaced(s.live, t.live, conn, s.inFlight, step.i, job');
    } else {
      FitElsewhere(s.live, t.live, conn, s.inFlight);
    }
  }

  lemma QueuedFits(s: State, step: Step)
    requires Inv(s) && Enabled(s, step) && Settled(s, step)
    ensures AllFit(Apply(s, step).live, Apply(s, step).queued)
  {
    var t, job', conn := Apply(s, step), After(s, step), Changed(s, step);
    hide Count, Fits;
    Holds(s, step);
    if step.Dequeue? {
      FitReplaced(s.live, t.live, conn, s.queued, step.j, job');
    } else {
      FitElsewhere(s.live, t.live, conn, s.queued);
    }
  }

  lemma WorkersFit(s: State, step: Step)
    requires Inv(s) && Enabled(s, step) && Settled(s, step)
    ensures AllFit(Apply(s, step).live, Apply(s, step).workers)
  {
    var t, job', conn := Apply(s, step), After(s, step), Changed(s, step);
    Holds(s, step);
    if step.Handle? || step.Post? {
      FitReplaced(s.live, t.live, conn, s.workers, step.w, if step.Handle? then job' else Free);
    } else {
      FitElsewhere(s.live, t.live, conn, s.workers);
    }
  }

  lemma AcceptorFits(s: State, step: Step)
    requires Inv(s) && Enabled(s, step) && Settled(s, step)
    ensures AllFit(Apply(s, step).live, [Apply(s, step).acceptor])
  {
    Holds(s, step);
    if !step.Accept? && !step.Associate? && !step.FirstPost? {
      FitElsewhere(s.live, Apply(s, step).live, Changed(s, step), [s.acceptor]);
    }
  }

  // The one job for the changed connection is where the step found it, and nowhere else.
  lemma Holds(s: State, step: Step)
    requires Enabled(s, step) && Settled(s, step)
    ensures var conn := Changed(s, step);
            && (!(step.CompleteRecv? || step.CompleteSend? || step.Abort?) ==> Count(s.inFlight, conn) == 0)
            && (!step.Dequeue? ==> Count(s.queued, conn) == 0)
            && (!(step.Handle? || step.Post?) ==> Count(s.workers, conn) == 0)
            && (!(step.Accept? || step.Associate? || step.FirstPost?) ==> Count([s.acceptor], conn) == 0)
            && (step.CompleteRecv? || step.CompleteSend? || step.Abort? ==> Count(s.inFlight, conn) == One(s.inFlight[step.i], conn))
            && (step.Dequeue? ==> Count(s.queued, conn) == One(s.queued[step.j], conn))
            && (step.Handle? || step.Post? ==> Count(s.workers, conn) == One(s.workers[step.w], conn))
  {
    var conn := Changed(s, step);
    hide Count, Fits;
    CountOne(s.acceptor, conn);
    if step.CompleteRecv? || step.CompleteSend? || step.Abort? {
      CountWithout(s.inFlight, step.i, conn);
    } else if step.Dequeue? {
      CountWithout(s.queued, step.j, conn);
    } else if step.Handle? || step.Post? {
      CountWithout(s.workers, step.w, conn);
    }
  }

  // Every step whose bytes do not stray keeps the invariant.
  lemma InvStep(s: State, step: Step)
    requires Inv(s) && Enabled(s, step) && !Strays(s.target, step)
    ensures Inv(Apply(s, step))
  {
    Settle(s, step);
    SingleFlightStep(s, step);
    InFlightFits(s, step);
    QueuedFits(s, step);
    WorkersFit(s, step);
    AcceptorFits(s, step);
  }

  // ----- what holds in every reachable state -----

  ghost predicate Run(s: State, steps: seq<Step>, t: State)
    decreases |steps|
  {
    if steps == [] then s == t else Enabled(s, steps[0]) && Run(Apply(s, steps[0]), steps[1..], t)
  }

  // A step that strays is a fault, and a fault stays.
  lemma FaultStep(s: State, step: Step)
    requires Enabled(s, step) && (s.fault || Strays(s.target, step))
    ensures Apply(s, step).fault && Apply(s, step).target == s.target
  {
  }

  lemma {:induction false} FaultStays(s: State, steps: seq<Step>, t: State)
    requires s.fault && Run(s, steps, t)
    ensures t.fault && |t.workers| == |s.workers|
    decreases |steps|
  {
    hide Apply;
    if steps != [] {
      FaultStep(s, steps[0]);
      TargetStays(s, steps[0]);
      FaultStays(Apply(s, steps[0]), steps[1..], t);
    }
  }

  lemma TargetStays(s: State, step: Step)
    requires Enabled(s, step)
    ensures Apply(s, step).target == s.target && |Apply(s, step).workers| == |s.workers|
  {
  }

  // What a fault is: in any state whatever, to touch a connection that was deleted, by posting,
  // completing, handling or deleting it again.
  lemma DeadTouchFaults(s: State, step: Step)
    requires Enabled(s, step) && !step.Accept? && !step.Dequeue? && !step.Handle?
    requires Before(s, step).conn !in s.live
    ensures Apply(s, step).fault
  {
  }

  lemma DeadHandleFaults(s: State, w: nat)
    requires Enabled(s, Handle(w)) && s.workers[w].conn !in s.live
    ensures Apply(s, Handle(w)).fault
  {
  }

  // A failed operation, at any time, whatever it has transferred: any free worker deletes the
  // connection.
  lemma AbortRun(s: State, i: nat, bytes: nat, w: nat) returns (t: State)
    requires Inv(s) && i < |s.inFlight| && s.inFlight[i].Flying? && w < |s.workers| && s.workers[w].Free?
    ensures Run(s, [Abort(i, bytes), Dequeue(w, |s.queued|), Handle(w)], t)
    ensures s.inFlight[i].conn in s.live && s.inFlight[i].conn !in t.live
  {
    var first, second, third := Abort(i, bytes), Dequeue(w, |s.queued|), Handle(w);
    assert Fits(s.live, s.inFlight[i]);
    InvStep(s, first);
    var a := Apply(s, first);
    assert a.queued[|s.queued|].conn == s.inFlight[i].conn && !a.queued[|s.queued|].ok && a.workers == s.workers;
    InvStep(a, second);
    var b := Apply(a, second);
    assert b.workers[w] == a.queued[|s.queued|];
    HandleDecides(b, w);
    t := Apply(b, third);
    hide Inv, Fits;
    RunCons(b, third, [], t);
    RunCons(a, second, [third], t);
    RunCons(s, first, [second, third], t);
    assert [third] + [] == [third] && [second] + [third] == [second, third];
    assert [first] + [second, third] == [first, second, third];
  }

  ghost predicate SomeStrays(target: Target, steps: seq<Step>) {
    exists i :: 0 <= i < |steps| && Strays(target, steps[i])
  }

  // A run keeps the invariant until bytes stray; from then on it is at fault.
  lemma {:induction false} RunKeepsInv(s: State, steps: seq<Step>, t: State)
    requires Inv(s) && Run(s, steps, t)
    ensures if SomeStrays(s.target, steps) then t.fault else Inv(t)
    ensures |t.workers| == |s.workers|
    decreases |steps|
  {
    hide Inv, Apply;
    if steps != [] {
      var next, rest := Apply(s, steps[0]), steps[1..];
      TargetStays(s, steps[0]);
      if Strays(s.target, steps[0]) {
        FaultStep(s, steps[0]);
        FaultStays(next, rest, t);
      } else {
        InvStep(s, steps[0]);
        RunKeepsInv(next, rest, t);
        assert forall i :: 0 < i < |steps| ==> steps[i] == rest[i - 1];
        assert SomeStrays(s.target, steps) ==> SomeStrays(s.target, rest);
        if SomeStrays(s.target, rest) {
          var i :| 0 <= i < |rest| && Strays(s.target, rest[i]);
          assert Strays(s.target, steps[i + 1]);
        }
      }
    }
  }

  // When receives land in RecvOp.Buffer, no run touches a deleted connection, reads or writes
  // outside a buffer, or deletes twice. As written, a run is free of that if and only if none of
  // its receives completes with data.
  lemma NoFault(target: Target, workers: nat, steps: seq<Step>, t: State)
    requires Run(Initial(target, workers), steps, t)
    ensures t.fault <==> target.Temporary? && exists i :: 0 <= i < |steps| && steps[i].CompleteRecv? && steps[i].data != []
    ensures !t.fault ==> Inv(t) && |t.workers| == workers
  {
    InvInitially(target, workers);
    RunKeepsInv(Initial(target, workers), steps, t);
    assert (exists i :: 0 <= i < |steps| && Delivers(steps[i])) ==>
      (exists i :: 0 <= i < |steps| && Delivers(steps[i]) && (target.Temporary? ==> Strays(target, steps[i])));
  }

  // It does happen, as written: the first bytes of the first client.
  lemma FirstBytesStray(workers: nat, data: seq<Byte>)
    requires 0 < |data| <= BUFFER_SIZE
    ensures exists t ::
      Run(Initial(Temporary, workers), [Accept(1), Associate, FirstPost, CompleteRecv(0, data)], t) && t.fault
  {
    var start, last := Initial(Temporary, workers), CompleteRecv(0, data);
    var accepted := Apply(start, Accept(1));
    var associated := Apply(accepted, Associate);
    var posted := Apply(associated, FirstPost);
    FaultStep(posted, last);
    RunCons(posted, last, [], Apply(posted, last));
    RunCons(associated, FirstPost, [last], Apply(posted, last));
    RunCons(accepted, Associate, [FirstPost, last], Apply(posted, last));
    RunCons(start, Accept(1), [Associate, FirstPost, last], Apply(posted, last));
    assert [last] + [] == [last] && [FirstPost] + [last] == [FirstPost, last];
    assert [Associate] + [FirstPost, last] == [Associate, FirstPost, last];
    assert [Accept(1)] + [Associate, FirstPost, last] == [Accept(1), Associate, FirstPost, last];
  }

  lemma RunCons(s: State, step: Step, steps: seq<Step>, t: State)
    requires Enabled(s, step) && Run(Apply(s, step), steps, t)
    ensures Run(s, [step] + steps, t)
  {
    assert ([step] + steps)[1..] == steps;
  }

  // Whoever handles a connection has it to itself: no other worker, no operation in flight, no
  // packet in the queue, and not the accept loop.
  lemma Exclusive(s: State, w: nat)
    requires Inv(s) && w < |s.workers| && !s.workers[w].Free?
    ensures var conn := s.workers[w].conn;
            && conn in s.live
            && (forall i :: 0 <= i < |s.workers| && i != w ==> !Concerns(s.workers[i], conn))
            && (forall i :: 0 <= i < |s.inFlight| ==> !Concerns(s.inFlight[i], conn))
            && (forall i :: 0 <= i < |s.queued| ==> !Concerns(s.queued[i], conn))
            && !Concerns(s.acceptor, conn)
  {
    var conn := s.workers[w].conn;
    assert Fits(s.live, s.workers[w]);
    assert Jobs(s, conn) == 1;
    CountWithout(s.workers, w, conn);
    CountZero(Without(s.workers, w), conn);
    CountZero(s.inFlight, conn);
    CountZero(s.queued, conn);
    CountOne(s.acceptor, conn);
    forall i | 0 <= i < |s.workers| && i != w ensures !Concerns(s.workers[i], conn) {
      assert s.workers[i] == Without(s.workers, w)[if i < w then i else i - 1];
    }
  }

  // Deleting a connection leaves nothing behind that could touch it.
  lemma DeletedHasNoJobs(s: State, w: nat)
    requires Inv(s) && Enabled(s, Handle(w)) && (!s.workers[w].ok || s.workers[w].bytes == 0)
    ensures var t, conn := Apply(s, Handle(w)), s.workers[w].conn;
            conn in s.live && conn !in t.live && Jobs(t, conn) == 0
  {
    assert Fits(s.live, s.workers[w]);
    InvStep(s, Handle(w));
    var t, conn := Apply(s, Handle(w)), s.workers[w].conn;
    assert Jobs(t, conn) == if conn in t.live then 1 else 0;
  }

  // What a worker makes of a packet: a failed operation or one without bytes deletes the
  // connection, and nothing else does; received data is prepared to be sent back, from the first
  // byte to the last; after a send, up to 4096 more bytes are received.
  lemma HandleDecides(s: State, w: nat)
    requires Inv(s) && Enabled(s, Handle(w))
    ensures var t, Done(conn, op, bytes, ok) := Apply(s, Handle(w)), s.workers[w];
            && conn in s.live && (conn !in t.live <==> !ok || bytes == 0)
            && t.live.Keys == (if conn in t.live then s.live.Keys else s.live.Keys - {conn})
            && (conn !in t.live ==> t.workers[w].Free?)
            && (conn in t.live && op.Recv? ==>
                  && t.workers[w] == Posting(conn, Send, bytes) && bytes <= 4096
                  && |t.live[conn].sendBuffer| == |s.live[conn].recvBuffer| == 4096
                  && t.live[conn].sendBuffer == s.live[conn].recvBuffer[..bytes] + seq(4096 - bytes, _ => 0))
            && (conn in t.live && op.Send? ==>
                  && t.workers[w] == Posting(conn, Recv, 4096) && t.live[conn].sent == s.live[conn].sent
                  && t.live[conn].recvBuffer == seq(4096, _ => 0))
  {
    assert Fits(s.live, s.workers[w]);
  }

  // Only a worker that handles such a packet deletes a connection, and only the accept loop makes one.
  lemma LiveStep(s: State, step: Step)
    requires Inv(s) && Enabled(s, step) && !step.Handle?
    ensures Apply(s, step).live.Keys == s.live.Keys + if step.Accept? then {step.conn} else {}
  {
    assert Fits(s.live, [s.acceptor][0]) && (!step.Accept? ==> Fits(s.live, Before(s, step)));
  }

  // A worker with received data: handled, posted and completed, all that was received has been sent.
  lemma SendsBack(s: State, w: nat) returns (t: State)
    requires Inv(s) && w < |s.workers| && s.workers[w].Done?
    requires s.workers[w].op.Recv? && s.workers[w].ok && s.workers[w].bytes > 0
    ensures Run(s, [Handle(w), Post(w), CompleteSend(|s.inFlight|)], t) && SentAll(s, t, s.workers[w].conn)
  {
    var conn, bytes, i := s.workers[w].conn, s.workers[w].bytes, |s.inFlight|;
    HandleDecides(s, w);
    InvStep(s, Handle(w));
    var a := Apply(s, Handle(w));
    assert a.workers[w] == Posting(conn, Send, bytes) && a.inFlight == s.inFlight;
    PostFlies(a, w);
    InvStep(a, Post(w));
    var b := Apply(a, Post(w));
    SendCompletes(b, i);
    t := Apply(b, CompleteSend(i));
    assert a.live[conn].received == s.live[conn].received by {
      assert Fits(s.live, s.workers[w]);
    }
    assert b.live == a.live;
    hide Inv, Apply, Enabled;
    RunCons(b, CompleteSend(i), [], t);
    RunCons(a, Post(w), [CompleteSend(i)], t);
    RunCons(s, Handle(w), [Post(w), CompleteSend(i)], t);
    assert [CompleteSend(i)] + [] == [CompleteSend(i)] && [Post(w)] + [CompleteSend(i)] == [Post(w), CompleteSend(i)];
    assert [Handle(w)] + [Post(w), CompleteSend(i)] == [Handle(w), Post(w), CompleteSend(i)];
  }

  // Afterwards everything received by then has been sent.
  predicate SentAll(s: State, t: State, conn: Address) {
    && conn in s.live && conn in t.live
    && t.live[conn].received == t.live[conn].sent == s.live[conn].received
  }

  lemma PostFlies(s: State, w: nat)
    requires Inv(s) && Enabled(s, Post(w))
    ensures var t, job := Apply(s, Post(w)), s.workers[w];
            t.live == s.live && t.inFlight == s.inFlight + [Flying(job.conn, job.op, job.len)]
  {
    assert Fits(s.live, s.workers[w]);
  }

  lemma SendCompletes(s: State, i: nat)
    requires Inv(s) && Enabled(s, CompleteSend(i))
    ensures SentAll(s, Apply(s, CompleteSend(i)), s.inFlight[i].conn)
  {
    assert Fits(s.live, s.inFlight[i]);
  }

  // A new client: its receive is out, for up to 4096 bytes.
  lemma AcceptRun(s: State, conn: Address) returns (t: State)
    requires Inv(s) && s.acceptor.Free? && conn !in s.live
    ensures Inv(t) && Run(s, [Accept(conn), Associate, FirstPost], t)
    ensures conn in t.live && t.live[conn].received == t.live[conn].sent == []
    ensures t.live[conn].recvBuffer == seq(4096, _ => 0)
    ensures t.acceptor.Free? && t.inFlight == s.inFlight + [Flying(conn, Recv, 4096)]
  {
    InvStep(s, Accept(conn));
    var a := Apply(s, Accept(conn));
    InvStep(a, Associate);
    var b := Apply(a, Associate);
    InvStep(b, FirstPost);
    t := Apply(b, FirstPost);
    hide Inv, SingleFlight, AllFit;
    RunCons(b, FirstPost, [], t);
    RunCons(a, Associate, [FirstPost], t);
    RunCons(s, Accept(conn), [Associate, FirstPost], t);
    assert [FirstPost] + [] == [FirstPost] && [Associate] + [FirstPost] == [Associate, FirstPost];
    assert [Accept(conn)] + [Associate, FirstPost] == [Accept(conn), Associate, FirstPost];
  }

  // What arrives while a receive is out, taken by a free worker.
  lemma RecvTaken(s: State, i: nat, data: seq<Byte>, w: nat) returns (t: State)
    requires Inv(s) && Enabled(s, CompleteRecv(i, data)) && !Strays(s.target, CompleteRecv(i, data))
    requires w < |s.workers| && s.workers[w].Free?
    ensures Inv(t) && Run(s, [CompleteRecv(i, data), Dequeue(w, |s.queued|)], t)
    ensures var conn := s.inFlight[i].conn;
            && w < |t.workers| && t.workers[w] == Done(conn, Recv, |data|, true) && |t.inFlight| == |s.inFlight| - 1
            && conn in s.live && conn in t.live && s.live[conn].sent == s.live[conn].received
            && t.live[conn].received == s.live[conn].received + data
  {
    var conn, first, second := s.inFlight[i].conn, CompleteRecv(i, data), Dequeue(w, |s.queued|);
    assert Fits(s.live, s.inFlight[i]);
    InvStep(s, first);
    var a := Apply(s, first);
    assert a.queued[|s.queued|] == Done(conn, Recv, |data|, true) && a.workers == s.workers;
    InvStep(a, second);
    t := Apply(a, second);
    assert t.live == a.live;
    hide Inv, Fits;
    RunCons(a, second, [], t);
    RunCons(s, first, [second], t);
    assert [second] + [] == [second] && [first] + [second] == [first, second];
  }

  lemma {:induction false} RunConcat(s: State, first: seq<Step>, t: State, second: seq<Step>, u: State)
    requires Run(s, first, t) && Run(t, second, u)
    ensures Run(s, first + second, u)
    decreases |first|
  {
    hide Apply;
    if first == [] {
      assert first + second == second;
    } else {
      assert (first + second)[1..] == first[1..] + second;
      RunConcat(Apply(s, first[0]), first[1..], t, second, u);
    }
  }

  // Whatever a client sends while a receive is out is sent back to it, by any free worker: there
  // is a run that does that, and nothing but the five steps of it is needed.
  lemma EchoRun(s: State, i: nat, data: seq<Byte>, w: nat) returns (t: State)
    requires Inv(s) && Enabled(s, CompleteRecv(i, data)) && data != [] && s.target.OwnBuffer?
    requires w < |s.workers| && s.workers[w].Free?
    ensures Run(s, [CompleteRecv(i, data), Dequeue(w, |s.queued|), Handle(w), Post(w), CompleteSend(|s.inFlight| - 1)], t)
    ensures var conn := s.inFlight[i].conn;
            && conn in s.live && conn in t.live && s.live[conn].sent == s.live[conn].received
            && t.live[conn].received == t.live[conn].sent == s.live[conn].sent + data
  {
    var taken := RecvTaken(s, i, data, w);
    var arrives := [CompleteRecv(i, data), Dequeue(w, |s.queued|)];
    hide Inv, Apply, Enabled;
    t := SendsBack(taken, w);
    var sends := [Handle(w), Post(w), CompleteSend(|s.inFlight| - 1)];
    RunConcat(s, arrives, taken, sends, t);
    assert arrives + sends
        == [CompleteRecv(i, data), Dequeue(w, |s.queued|), Handle(w), Post(w), CompleteSend(|s.inFlight| - 1)];
  }

  // When the client closes, any free worker deletes its connection.
  lemma CloseRun(s: State, i: nat, w: nat) returns (t: State)
    requires Inv(s) && Enabled(s, CompleteRecv(i, [])) && w < |s.workers| && s.workers[w].Free?
    ensures Run(s, [CompleteRecv(i, []), Dequeue(w, |s.queued|), Handle(w)], t)
    ensures s.inFlight[i].conn in s.live && s.inFlight[i].conn !in t.live
  {
    var taken := RecvTaken(s, i, [], w);
    HandleDecides(taken, w);
    t := Apply(taken, Handle(w));
    var arrives, closes := [CompleteRecv(i, []), Dequeue(w, |s.queued|)], [Handle(w)];
    hide Inv, Apply;
    RunCons(taken, Handle(w), [], t);
    assert [Handle(w)] + [] == closes;
    RunConcat(s, arrives, taken, closes, t);
    assert arrives + closes == [CompleteRecv(i, []), Dequeue(w, |s.queued|), Handle(w)];
  }

  // What a client is sent is what it sent, in order; all of it while a receive is out.
  lemma EchoFidelity(s: State, conn: Address)
    requires Inv(s) && conn in s.live
    ensures s.live[conn].sent <= s.live[conn].received
    ensures forall i :: 0 <= i < |s.inFlight| && Flies(s, i, Recv) && s.inFlight[i].conn == conn ==>
              s.live[conn].sent == s.live[conn].received
    ensures forall i :: 0 <= i < |s.inFlight| && Flies(s, i, Send) && s.inFlight[i].conn == conn ==>
              s.inFlight[i].len <= |s.live[conn].sendBuffer| &&
              s.live[conn].sent + s.live[conn].sendBuffer[..s.inFlight[i].len] == s.live[conn].received
  {
    assert Jobs(s, conn) == 1;
    CountZero(s.inFlight, conn);
    CountZero(s.queued, conn);
    CountZero(s.workers, conn);
    CountOne(s.acceptor, conn);
    assert Fits(s.live, [s.acceptor][0]);
  }
}
