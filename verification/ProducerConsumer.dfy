/**
 The threads of ConditionVariables as a state machine: any number of producers and consumers,
 the main thread that stops them, one critical section and two condition variables.

 Every step is one that a thread can take between two points where another thread may run.
 Waking happens after the critical section has been left, sleeping threads may wake up on their
 own, and a woken thread has to enter the critical section again. The two kinds of threads have
 the same shape, so a step names its side.
 */
module ProducerConsumer {
  import opened CircularQueue

  datatype Side = Producers | Consumers

  datatype Pc =
    | Idle       // a producer before its next item
    | Entering   // before EnterCriticalSection
    | Checking   // inside, at the test of the wait loop
    | Asleep     // in SleepConditionVariableCS
    | Woken      // woken, before it has the critical section again
    | Leaving    // inside, item inserted or removed, before LeaveCriticalSection
    | Waking     // outside, before WakeConditionVariable on the other side
    | Exited

  datatype MainPc =
    | Reading           // in getchar
    | Stopping          // inside, before StopRequested is set
    | Stopped           // inside, after it
    | WakingProducers   // before WakeAllConditionVariable(BufferNotFull)
    | WakingConsumers   // before WakeAllConditionVariable(BufferNotEmpty)
    | Joining

  datatype Holder = Free | Thread(side: Side, i: nat) | Main

  datatype State = State(
    queue: Globals,
    lastItem: nat,        // items drawn so far; an item is its number
    stop: bool,
    lock: Holder,
    producers: seq<Pc>,
    items: seq<int>,      // each producer's Item
    consumers: seq<Pc>,
    main: MainPc,
    inserted: seq<int>,   // everything inserted so far
    removed: seq<int>)    // everything removed so far
  {
    function Threads(side: Side): seq<Pc> {
      if side.Producers? then producers else consumers
    }

    function Put(side: Side, i: nat, pc: Pc): State
      requires i < |Threads(side)|
    {
      if side.Producers? then this.(producers := producers[i := pc]) else this.(consumers := consumers[i := pc])
    }

    predicate Is(side: Side, i: nat, pc: Pc) {
      i < |Threads(side)| && Threads(side)[i] == pc
    }

    // The condition of the wait loop.
    predicate MustWait(side: Side) {
      !stop && queue.size == if side.Producers? then BUFFER_SIZE else 0
    }

    // The condition to leave the thread procedure.
    predicate MustExit(side: Side) {
      stop && (side.Consumers? ==> queue.size == 0)
    }

    // How many threads of this side have something to do: free cells or items.
    function Supply(side: Side): int {
      if side.Producers? then BUFFER_SIZE - queue.size else queue.size
    }

  }

  predicate NoneAsleep(pcs: seq<Pc>) {
    forall j | 0 <= j < |pcs| :: !pcs[j].Asleep?
  }

  function Other(side: Side): Side {
    if side.Producers? then Consumers else Producers
  }

  datatype Step =
    | Produce(i: nat)
    | Enter(side: Side, i: nat)
    | Sleep(side: Side, i: nat)
    | Exit(side: Side, i: nat)
    | Work(side: Side, i: nat)            // insert or remove
    | Leave(side: Side, i: nat)
    | Wake(side: Side, i: nat, j: nat)    // thread i wakes thread j of the other side
    | WakeNone(side: Side, i: nat)        // nobody waits on the other side
    | Spurious(side: Side, j: nat)
    | MainEnter | MainStop | MainLeave | WakeAllProducers | WakeAllConsumers

  predicate Enabled(s: State, step: Step) {
    match step
    case Produce(i) => s.Is(Producers, i, Idle) && i < |s.items|
    case Enter(side, i) => (s.Is(side, i, Entering) || s.Is(side, i, Woken)) && s.lock.Free?
    case Sleep(side, i) => s.Is(side, i, Checking) && s.MustWait(side)
    case Exit(side, i) => s.Is(side, i, Checking) && s.MustExit(side)
    case Work(side, i) => s.Is(side, i, Checking) && !s.MustWait(side) && !s.MustExit(side)
                          && s.queue.Valid() && (side.Producers? ==> i < |s.items|)
    case Leave(side, i) => s.Is(side, i, Leaving)
    case Wake(side, i, j) => s.Is(side, i, Waking) && s.Is(Other(side), j, Asleep)
    case WakeNone(side, i) => s.Is(side, i, Waking) && NoneAsleep(s.Threads(Other(side)))
    case Spurious(side, j) => s.Is(side, j, Asleep)
    case MainEnter => s.main.Reading? && s.lock.Free?
    case MainStop => s.main.Stopping?
    case MainLeave => s.main.Stopped?
    case WakeAllProducers => s.main.WakingProducers?
    case WakeAllConsumers => s.main.WakingConsumers?
  }

  // Where the loop of a thread begins.
  function First(side: Side): Pc {
    if side.Producers? then Idle else Entering
  }

  function WakeAll(pcs: seq<Pc>): seq<Pc> {
    seq(|pcs|, i requires 0 <= i < |pcs| => if pcs[i].Asleep? then Woken else pcs[i])
  }

  function Apply(s: State, step: Step): State
    requires Enabled(s, step)
  {
    match step
    case Produce(i) =>
      s.Put(Producers, i, Entering).(lastItem := s.lastItem + 1, items := s.items[i := s.lastItem + 1])
    case Enter(side, i) => s.Put(side, i, Checking).(lock := Thread(side, i))
    case Sleep(side, i) => s.Put(side, i, Asleep).(lock := Free)
    case Exit(side, i) => s.Put(side, i, Exited).(lock := Free)
    case Work(side, i) =>
      if side.Producers? then
        s.Put(side, i, Leaving).(queue := s.queue.Insert(s.items[i]), inserted := s.inserted + [s.items[i]])
      else
        s.Put(side, i, Leaving).(queue := s.queue.Remove(), removed := s.removed + [s.queue.Front()])
    case Leave(side, i) => s.Put(side, i, Waking).(lock := Free)
    case Wake(side, i, j) => s.Put(side, i, First(side)).Put(Other(side), j, Woken)
    case WakeNone(side, i) => s.Put(side, i, First(side))
    case Spurious(side, j) => s.Put(side, j, Woken)
    case MainEnter => s.(main := Stopping, lock := Main)
    case MainStop => s.(main := Stopped, stop := true)
    case MainLeave => s.(main := WakingProducers, lock := Free)
    case WakeAllProducers => s.(main := WakingConsumers, producers := WakeAll(s.producers))
    case WakeAllConsumers => s.(main := Joining, consumers := WakeAll(s.consumers))
  }

  function Initial(producers: nat, consumers: nat): State {
    State(Globals(seq(BUFFER_SIZE, _ => 0), 0, 0, 0, 0), 0, false, Free,
          seq(producers, _ => Idle), seq(producers, _ => 0), seq(consumers, _ => Entering), Reading, [], [])
  }

  // ----- counting threads -----

  predicate AwakePc(pc: Pc) {
    !pc.Asleep? && !pc.Exited?
  }

  // Will still wake a thread of the other side.
  predicate WillWakePc(pc: Pc) {
    pc.Leaving? || pc.Waking?
  }

  function Count(pcs: seq<Pc>, what: Pc -> bool): nat {
    if pcs == [] then 0 else (if what(pcs[0]) then 1 else 0) + Count(pcs[1..], what)
  }

  lemma {:induction false} CountUpdate(pcs: seq<Pc>, i: nat, pc: Pc, what: Pc -> bool)
    requires i < |pcs|
    ensures Count(pcs[i := pc], what) - (if what(pc) then 1 else 0) == Count(pcs, what) - (if what(pcs[i]) then 1 else 0)
  {
    if i > 0 {
      assert pcs[i := pc][1..] == pcs[1..][i - 1 := pc];
      CountUpdate(pcs[1..], i - 1, pc, what);
    }
  }

  lemma {:induction false} CountAll(pcs: seq<Pc>, what: Pc -> bool)
    ensures Count(pcs, what) <= |pcs|
    ensures Count(pcs, what) == |pcs| <==> forall i :: 0 <= i < |pcs| ==> what(pcs[i])
    ensures Count(pcs, what) == 0 <==> forall i :: 0 <= i < |pcs| ==> !what(pcs[i])
  {
    if pcs != [] {
      CountAll(pcs[1..], what);
      assert forall i :: 0 <= i < |pcs| ==> pcs[i] == if i == 0 then pcs[0] else pcs[1..][i - 1];
    }
  }

  lemma {:induction false} CountWakeAll(pcs: seq<Pc>)
    ensures Count(WakeAll(pcs), AwakePc) >= Count(pcs, AwakePc)
    ensures Count(WakeAll(pcs), WillWakePc) == Count(pcs, WillWakePc)
  {
    if pcs != [] {
      assert WakeAll(pcs)[1..] == WakeAll(pcs[1..]);
      CountWakeAll(pcs[1..]);
    }
  }

  // ----- the invariant -----

  // The queue is a FIFO and the totals count it.
  ghost predicate QueueInv(queue: Globals, inserted: seq<int>, removed: seq<int>) {
    && queue.Valid()
    && inserted == removed + queue.Contents()
    && queue.produced == Wrap(|inserted|) && queue.consumed == Wrap(|removed|)
  }

  // Has drawn an item and not yet inserted it.
  predicate HoldsPc(pc: Pc) {
    pc.Entering? || pc.Checking? || pc.Asleep? || pc.Woken?
  }

  // Every item was drawn once, and is inserted at most once: no two are the same, whether
  // inserted or still held by a producer.
  ghost predicate ItemInv(producers: seq<Pc>, items: seq<int>, lastItem: nat, inserted: seq<int>) {
    && |items| == |producers|
    && (forall k :: 0 <= k < |inserted| ==> 1 <= inserted[k] <= lastItem)
    && (forall k, l :: 0 <= k < l < |inserted| ==> inserted[k] != inserted[l])
    && (forall i :: 0 <= i < |producers| && HoldsPc(producers[i]) ==> 1 <= items[i] <= lastItem && items[i] !in inserted)
    && (forall i, j :: 0 <= i < j < |producers| && HoldsPc(producers[i]) && HoldsPc(producers[j]) ==> items[i] != items[j])
  }

  predicate InsidePc(pc: Pc) {
    pc.Checking? || pc.Leaving?
  }

  ghost predicate HeldBy(pcs: seq<Pc>, side: Side, lock: Holder) {
    forall i :: 0 <= i < |pcs| ==> (InsidePc(pcs[i]) <==> lock == Thread(side, i))
  }

  // The lock is held by whoever is inside.
  ghost predicate LockInv(s: State) {
    && |s.items| == |s.producers|
    && HeldBy(s.producers, Producers, s.lock) && HeldBy(s.consumers, Consumers, s.lock)
    && (s.lock.Thread? ==> s.lock.i < |s.Threads(s.lock.side)|)
    && (s.main.Stopping? || s.main.Stopped? <==> s.lock == Main)
  }

  ghost predicate NoneIdle(pcs: seq<Pc>) {
    forall i :: 0 <= i < |pcs| ==> !pcs[i].Idle?
  }

  ghost predicate NoneExited(pcs: seq<Pc>) {
    forall i :: 0 <= i < |pcs| ==> !pcs[i].Exited?
  }

  // Exits happen after the stop, consumers exit only with an empty queue, and the broadcasts of
  // the main thread reach everybody.
  ghost predicate StopInv(s: State) {
    && (s.stop <==> !s.main.Reading? && !s.main.Stopping?)
    && (!s.MustExit(Producers) ==> NoneExited(s.producers))
    && (!s.MustExit(Consumers) ==> NoneExited(s.consumers))
    && NoneIdle(s.consumers)
    && (s.main.WakingConsumers? || s.main.Joining? ==> NoneAsleep(s.producers))
    && (s.main.Joining? ==> NoneAsleep(s.consumers))
  }

  // No wake-up is lost: enough threads of a side are awake, or about to be woken, for what
  // there is to do.
  ghost predicate Covered(s: State, side: Side) {
    Count(s.Threads(side), AwakePc) + Count(s.Threads(Other(side)), WillWakePc)
    >= if s.Supply(side) < |s.Threads(side)| then s.Supply(side) else |s.Threads(side)|
  }

  ghost predicate Inv(s: State) {
    && QueueInv(s.queue, s.inserted, s.removed) && LockInv(s) && StopInv(s)
    && ItemInv(s.producers, s.items, s.lastItem, s.inserted)
    && Covered(s, Consumers)
    && (!s.stop ==> Covered(s, Producers))
  }

  // At the start everybody is awake.
  lemma CoveredInitially(producers: nat, consumers: nat, side: Side)
    ensures Covered(Initial(producers, consumers), side)
  {
    var s := Initial(producers, consumers);
    CountAll(s.Threads(side), AwakePc);
  }

  lemma InvInitially(producers: nat, consumers: nat)
    ensures Inv(Initial(producers, consumers))
  {
    CoveredInitially(producers, consumers, Producers);
    CoveredInitially(producers, consumers, Consumers);
    hide Covered, Count;
    assert Initial(producers, consumers).queue.Contents() == [];
  }

  // ----- what a step does, one part of the state at a time -----

  predicate Mover(step: Step) {
    !(step.MainEnter? || step.MainStop? || step.MainLeave? || step.WakeAllProducers? || step.WakeAllConsumers?)
  }

  // The thread a step moves, and where to.
  function Moves(s: State, step: Step): (m: (Side, nat, Pc))
    requires Enabled(s, step) && Mover(step)
    ensures m.1 < |s.Threads(m.0)|
  {
    match step
    case Produce(i) => (Producers, i, Entering)
    case Enter(side, i) => (side, i, Checking)
    case Sleep(side, i) => (side, i, Asleep)
    case Exit(side, i) => (side, i, Exited)
    case Work(side, i) => (side, i, Leaving)
    case Leave(side, i) => (side, i, Waking)
    case Wake(side, i, _) => (side, i, First(side))
    case WakeNone(side, i) => (side, i, First(side))
    case Spurious(side, j) => (side, j, Woken)
  }

  // A thread's step on the threads of one side, and on the rest of the state.
  lemma ThreadsAfter(s: State, step: Step, side: Side)
    requires Enabled(s, step) && Mover(step)
    ensures var (side', i, pc) := Moves(s, step);
            Apply(s, step).Threads(side)
            == if side == side' then s.Threads(side)[i := pc]
               else if step.Wake? then s.Threads(side)[step.j := Woken] else s.Threads(side)
  {
  }

  lemma RestAfter(s: State, step: Step)
    requires Enabled(s, step) && Mover(step)
    ensures var t := Apply(s, step);
            && t.stop == s.stop && t.main == s.main && |t.items| == |s.items|
            && t.lock == (if step.Enter? then Thread(step.side, step.i)
                          else if step.Sleep? || step.Exit? || step.Leave? then Free else s.lock)
            && t.queue.size == (if step.Work? then s.queue.size + (if step.side.Producers? then 1 else -1) else s.queue.size)
  {
  }

  lemma InsertKeeps(queue: Globals, inserted: seq<int>, removed: seq<int>, item: int)
    requires QueueInv(queue, inserted, removed) && queue.size != BUFFER_SIZE
    ensures QueueInv(queue.Insert(item), inserted + [item], removed)
  {
    InsertAppends(queue, item);
    WrapNext(|inserted|);
    assert removed + (queue.Contents() + [item]) == (removed + queue.Contents()) + [item];
  }

  lemma RemoveKeeps(queue: Globals, inserted: seq<int>, removed: seq<int>)
    requires QueueInv(queue, inserted, removed) && queue.size != 0
    ensures QueueInv(queue.Remove(), inserted, removed + [queue.Front()])
  {
    RemoveTakesFirst(queue);
    WrapNext(|removed|);
    assert removed + ([queue.Front()] + queue.Remove().Contents()) == (removed + [queue.Front()]) + queue.Remove().Contents();
  }

  lemma QueueStep(s: State, step: Step)
    requires QueueInv(s.queue, s.inserted, s.removed) && Enabled(s, step)
    ensures var t := Apply(s, step); QueueInv(t.queue, t.inserted, t.removed)
  {
    hide QueueInv;
    if step.Work? && step.side.Producers? {
      InsertKeeps(s.queue, s.inserted, s.removed, s.items[step.i]);
    } else if step.Work? {
      RemoveKeeps(s.queue, s.inserted, s.removed);
    } else {
      QueueUntouched(s, step);
    }
  }

  lemma QueueUntouched(s: State, step: Step)
    requires Enabled(s, step) && !step.Work?
    ensures var t := Apply(s, step); t.queue == s.queue && t.inserted == s.inserted && t.removed == s.removed
  {
  }

  // Drawing an item, inserting it, and every other move of a producer.
  lemma ItemDrawn(producers: seq<Pc>, items: seq<int>, lastItem: nat, inserted: seq<int>, i: nat)
    requires ItemInv(producers, items, lastItem, inserted) && i < |producers|
    ensures ItemInv(producers[i := Entering], items[i := lastItem + 1], lastItem + 1, inserted)
  {
  }

  lemma ItemInserted(producers: seq<Pc>, items: seq<int>, lastItem: nat, inserted: seq<int>, i: nat)
    requires ItemInv(producers, items, lastItem, inserted) && i < |producers| && HoldsPc(producers[i])
    ensures ItemInv(producers[i := Leaving], items, lastItem, inserted + [items[i]])
  {
  }

  lemma ItemKept(producers: seq<Pc>, items: seq<int>, lastItem: nat, inserted: seq<int>, i: nat, pc: Pc)
    requires ItemInv(producers, items, lastItem, inserted) && i < |producers| && (HoldsPc(pc) ==> HoldsPc(producers[i]))
    ensures ItemInv(producers[i := pc], items, lastItem, inserted)
  {
  }

  lemma ItemWoken(producers: seq<Pc>, items: seq<int>, lastItem: nat, inserted: seq<int>)
    requires ItemInv(producers, items, lastItem, inserted)
    ensures ItemInv(WakeAll(producers), items, lastItem, inserted)
  {
  }

  lemma ItemStep(s: State, step: Step)
    requires ItemInv(s.producers, s.items, s.lastItem, s.inserted) && Enabled(s, step)
    ensures var t := Apply(s, step); ItemInv(t.producers, t.items, t.lastItem, t.inserted)
  {
    hide ItemInv, WakeAll;
    if step.Produce? {
      ItemDrawn(s.producers, s.items, s.lastItem, s.inserted, step.i);
    } else if step.WakeAllProducers? {
      ItemWoken(s.producers, s.items, s.lastItem, s.inserted);
    } else if step.Work? && step.side.Producers? {
      ItemInserted(s.producers, s.items, s.lastItem, s.inserted, step.i);
    } else if step.Wake? && step.side.Consumers? {
      ItemKept(s.producers, s.items, s.lastItem, s.inserted, step.j, Woken);
    } else if Mover(step) {
      var (side, i, pc) := Moves(s, step);
      if side.Producers? {
        ItemKept(s.producers, s.items, s.lastItem, s.inserted, i, pc);
      }
    }
  }

  lemma HeldMove(pcs: seq<Pc>, side: Side, lock: Holder, i: nat, pc: Pc, lock': Holder)
    requires HeldBy(pcs, side, lock) && i < |pcs|
    requires
      || (InsidePc(pc) == InsidePc(pcs[i]) && lock' == lock)
      || (InsidePc(pc) && lock == Free && lock' == Thread(side, i))
      || (InsidePc(pcs[i]) && !InsidePc(pc) && lock' == Free)
    ensures HeldBy(pcs[i := pc], side, lock') && (InsidePc(pcs[i]) ==> lock == Thread(side, i))
  {
  }

  lemma HeldElsewhere(pcs: seq<Pc>, side: Side, lock: Holder, lock': Holder)
    requires HeldBy(pcs, side, lock)
    requires (lock.Thread? ==> lock.side != side) && (lock'.Thread? ==> lock'.side != side)
    ensures HeldBy(pcs, side, lock')
  {
  }

  lemma HeldWoken(pcs: seq<Pc>, side: Side, lock: Holder)
    requires HeldBy(pcs, side, lock)
    ensures HeldBy(WakeAll(pcs), side, lock)
  {
  }

  lemma LockStep(s: State, step: Step)
    requires LockInv(s) && Enabled(s, step)
    ensures LockInv(Apply(s, step))
  {
    if Mover(step) {
      LockMove(s, step);
    } else {
      hide HeldBy, WakeAll;
      match step
      case MainEnter => HeldElsewhere(s.producers, Producers, Free, Main); HeldElsewhere(s.consumers, Consumers, Free, Main);
      case MainLeave => HeldElsewhere(s.producers, Producers, Main, Free); HeldElsewhere(s.consumers, Consumers, Main, Free);
      case WakeAllProducers => HeldWoken(s.producers, Producers, s.lock);
      case WakeAllConsumers => HeldWoken(s.consumers, Consumers, s.lock);
      case _ =>
    }
  }

  lemma LockMove(s: State, step: Step)
    requires LockInv(s) && Enabled(s, step) && Mover(step)
    ensures LockInv(Apply(s, step))
  {
    var t := Apply(s, step);
    var (side, i, pc) := Moves(s, step);
    ThreadsAfter(s, step, Producers);
    ThreadsAfter(s, step, Consumers);
    RestAfter(s, step);
    hide HeldBy, Apply;
    HeldMove(s.Threads(side), side, s.lock, i, pc, t.lock);
    if step.Wake? {
      HeldMove(s.Threads(Other(side)), Other(side), s.lock, step.j, Woken, s.lock);
    } else if s.lock != t.lock {
      HeldElsewhere(s.Threads(Other(side)), Other(side), s.lock, t.lock);
    }
  }

  lemma StopMove(s: State, step: Step)
    requires QueueInv(s.queue, s.inserted, s.removed) && StopInv(s) && LockInv(s) && Enabled(s, step) && Mover(step)
    ensures StopInv(Apply(s, step))
  {
    hide QueueInv, HeldBy;
    ThreadsAfter(s, step, Producers);
    ThreadsAfter(s, step, Consumers);
    RestAfter(s, step);
    hide Apply;
  }

  lemma StopStep(s: State, step: Step)
    requires QueueInv(s.queue, s.inserted, s.removed) && StopInv(s) && LockInv(s) && Enabled(s, step)
    ensures StopInv(Apply(s, step))
  {
    hide QueueInv, HeldBy;
    if Mover(step) {
      StopMove(s, step);
    }
  }

  // With nobody asleep and nobody gone, everybody is awake.
  lemma EverybodyAwake(s: State, side: Side)
    requires NoneAsleep(s.Threads(side)) && NoneExited(s.Threads(side))
    ensures Count(s.Threads(side), AwakePc) == |s.Threads(side)|
  {
    CountAll(s.Threads(side), AwakePc);
  }

  // How many more threads of a side a step makes awake, or about to wake another one.
  function Gain(before: Pc, after: Pc, what: Pc -> bool): int {
    (if what(after) then 1 else 0) - (if what(before) then 1 else 0)
  }

  lemma Gains(s: State, step: Step, side: Side, what: Pc -> bool)
    requires Enabled(s, step) && Mover(step) && (what == AwakePc || what == WillWakePc)
    ensures var t := Apply(s, step);
            var (side', i, pc) := Moves(s, step);
            |t.Threads(side)| == |s.Threads(side)| &&
            Count(t.Threads(side), what) - Count(s.Threads(side), what)
            == (if side == side' then Gain(s.Threads(side)[i], pc, what)
                else if step.Wake? then Gain(Asleep, Woken, what) else 0)
  {
    var (side', i, pc) := Moves(s, step);
    ThreadsAfter(s, step, side);
    hide Apply;
    if side == side' {
      CountUpdate(s.Threads(side), i, pc, what);
    } else if step.Wake? {
      CountUpdate(s.Threads(side), step.j, Woken, what);
    }
  }

  // The steps of the threads of this side, of the other side, and of the main thread.
  lemma CoveredOwnMove(s: State, step: Step, side: Side)
    requires Inv(s) && Enabled(s, step) && Mover(step) && Moves(s, step).0 == side
    requires side.Producers? ==> !Apply(s, step).stop
    ensures Covered(Apply(s, step), side)
  {
    hide HeldBy, Count, QueueInv, Apply;
    RestAfter(s, step);
    Gains(s, step, side, AwakePc);
    Gains(s, step, Other(side), WillWakePc);
  }

  lemma CoveredOtherMove(s: State, step: Step, side: Side)
    requires Inv(s) && Enabled(s, step) && Mover(step) && Moves(s, step).0 == Other(side)
    requires side.Producers? ==> !Apply(s, step).stop
    ensures Covered(Apply(s, step), side)
  {
    hide HeldBy, Count, QueueInv, Apply;
    RestAfter(s, step);
    Gains(s, step, side, AwakePc);
    Gains(s, step, Other(side), WillWakePc);
    if step.WakeNone? && !s.MustExit(side) {
      EverybodyAwake(s, side);
    }
  }

  lemma CoveredMain(s: State, step: Step, side: Side)
    requires Inv(s) && Enabled(s, step) && !Mover(step)
    requires side.Producers? ==> !Apply(s, step).stop
    ensures Covered(Apply(s, step), side)
  {
    hide HeldBy, Count, QueueInv;
    if step.WakeAllProducers? {
      CountWakeAll(s.producers);
    } else if step.WakeAllConsumers? {
      CountWakeAll(s.consumers);
    }
  }

  lemma InvStep(s: State, step: Step)
    requires Inv(s) && Enabled(s, step)
    ensures Inv(Apply(s, step))
  {
    QueueStep(s, step);
    ItemStep(s, step);
    LockStep(s, step);
    StopStep(s, step);
    forall side: Side | side.Producers? ==> !Apply(s, step).stop
      ensures Covered(Apply(s, step), side)
    {
      if Mover(step) && Moves(s, step).0 == side {
        CoveredOwnMove(s, step, side);
      } else if Mover(step) {
        CoveredOtherMove(s, step, side);
      } else {
        CoveredMain(s, step, side);
      }
    }
  }

  // ----- what holds in every reachable state -----

  // A sequence of steps from one state to another.
  ghost predicate Run(s: State, steps: seq<Step>, t: State)
    decreases |steps|
  {
    if steps == [] then s == t else Enabled(s, steps[0]) && Run(Apply(s, steps[0]), steps[1..], t)
  }

  lemma {:induction false} RunKeepsInv(s: State, steps: seq<Step>, t: State)
    requires Inv(s) && Run(s, steps, t)
    ensures Inv(t) && |t.producers| == |s.producers| && |t.consumers| == |s.consumers|
    decreases |steps|
  {
    hide Inv, Apply;
    if steps != [] {
      InvStep(s, steps[0]);
      ThreadCounts(s, steps[0]);
      RunKeepsInv(Apply(s, steps[0]), steps[1..], t);
    }
  }

  lemma Reachable(producers: nat, consumers: nat, steps: seq<Step>, t: State)
    requires Run(Initial(producers, consumers), steps, t)
    ensures Inv(t) && |t.producers| == producers && |t.consumers| == consumers
  {
    InvInitially(producers, consumers);
    RunKeepsInv(Initial(producers, consumers), steps, t);
  }

  // Items leave the queue in the order in which they entered it, and the totals agree with it.
  lemma Fifo(s: State)
    requires Inv(s)
    ensures s.removed <= s.inserted && |s.inserted| == |s.removed| + s.queue.size
    ensures s.queue.produced == |s.inserted| % 0x1_0000_0000 && s.queue.consumed == |s.removed| % 0x1_0000_0000
    ensures s.queue.produced == (s.queue.consumed + s.queue.size) % 0x1_0000_0000 && s.queue.size <= 10
  {
    WrapSum(|s.removed|, s.queue.size);
  }

  predicate Draws(step: Step) {
    step.Produce?
  }

  predicate Inserts(step: Step) {
    step.Work? && step.side.Producers?
  }

  predicate Removes(step: Step) {
    step.Work? && step.side.Consumers?
  }

  function Tally(steps: seq<Step>, what: Step -> bool): nat {
    if steps == [] then 0 else (if what(steps[0]) then 1 else 0) + Tally(steps[1..], what)
  }

  lemma StepCounts(s: State, step: Step)
    requires Enabled(s, step)
    ensures var t := Apply(s, step);
            && t.lastItem == s.lastItem + (if Draws(step) then 1 else 0)
            && |t.inserted| == |s.inserted| + (if Inserts(step) then 1 else 0)
            && |t.removed| == |s.removed| + (if Removes(step) then 1 else 0)
            && (t.stop <==> s.stop || step == MainStop)
            && (!t.main.Reading? <==> !s.main.Reading? || step == MainEnter)
  {
  }

  // What a run has done, by its steps: items are drawn, inserted and removed one at a time, and
  // the stop is requested by the main thread only, once a key was pressed.
  lemma {:induction false} RunCounts(s: State, steps: seq<Step>, t: State)
    requires Run(s, steps, t)
    ensures t.lastItem == s.lastItem + Tally(steps, Draws)
    ensures |t.inserted| == |s.inserted| + Tally(steps, Inserts)
    ensures |t.removed| == |s.removed| + Tally(steps, Removes)
    ensures t.stop <==> s.stop || MainStop in steps
    ensures !t.main.Reading? <==> !s.main.Reading? || MainEnter in steps
    decreases |steps|
  {
    hide Apply, Enabled;
    if steps != [] {
      StepCounts(s, steps[0]);
      RunCounts(Apply(s, steps[0]), steps[1..], t);
      assert steps == [steps[0]] + steps[1..];
    }
  }

  // From the start, nothing has been drawn or inserted, and nobody has asked to stop.
  lemma CountsFromStart(producers: nat, consumers: nat, steps: seq<Step>, t: State)
    requires Run(Initial(producers, consumers), steps, t)
    ensures t.lastItem == Tally(steps, Draws)
    ensures |t.inserted| == Tally(steps, Inserts) && |t.removed| == Tally(steps, Removes)
    ensures (t.stop <==> MainStop in steps) && (t.stop ==> MainEnter in steps)
  {
    RunCounts(Initial(producers, consumers), steps, t);
    Reachable(producers, consumers, steps, t);
  }

  // The first producer and the first consumer, and what has passed between them.
  datatype Scene = Scene(producer: Pc, consumer: Pc, lock: Holder, inserted: seq<int>, removed: seq<int>)

  ghost predicate Shows(s: State, scene: Scene) {
    && Inv(s) && !s.stop && s.lock == scene.lock
    && s.Is(Producers, 0, scene.producer) && s.Is(Consumers, 0, scene.consumer)
    && s.inserted == scene.inserted && s.removed == scene.removed
    && (scene.inserted == [] ==> s.lastItem == if scene.producer.Idle? then 0 else 1)
    && (HoldsPc(scene.producer) ==> |s.items| > 0 && s.items[0] == 1)
  }

  // One step from a scene to the next.
  lemma Draw(s: State)
    requires Shows(s, Scene(Idle, Asleep, Free, [], []))
    ensures Enabled(s, Produce(0)) && Shows(Apply(s, Produce(0)), Scene(Entering, Asleep, Free, [], []))
  {
    InvStep(s, Produce(0));
    hide Inv;
  }

  lemma EnterBoth(s: State, scene: Scene, side: Side)
    requires Shows(s, scene) && scene.lock == Free
    requires if side.Producers? then scene.producer == Entering else scene.consumer in {Entering, Woken}
    ensures Enabled(s, Enter(side, 0))
    ensures var next := if side.Producers? then scene.(producer := Checking) else scene.(consumer := Checking);
            Shows(Apply(s, Enter(side, 0)), next.(lock := Thread(side, 0)))
  {
    InvStep(s, Enter(side, 0));
    hide Inv;
  }

  lemma FallAsleep(s: State)
    requires Shows(s, Scene(Idle, Checking, Thread(Consumers, 0), [], []))
    ensures Enabled(s, Sleep(Consumers, 0)) && Shows(Apply(s, Sleep(Consumers, 0)), Scene(Idle, Asleep, Free, [], []))
  {
    CheckingDecides(s, Consumers, 0);
    Fifo(s);
    InvStep(s, Sleep(Consumers, 0));
    hide Inv;
  }

  lemma InsertOne(s: State)
    requires Shows(s, Scene(Checking, Asleep, Thread(Producers, 0), [], []))
    ensures Enabled(s, Work(Producers, 0))
    ensures Shows(Apply(s, Work(Producers, 0)), Scene(Leaving, Asleep, Thread(Producers, 0), [1], []))
  {
    CheckingDecides(s, Producers, 0);
    Fifo(s);
    WorkMoves(s, Producers, 0);
    InvStep(s, Work(Producers, 0));
    hide Inv;
  }

  lemma LeaveAndWake(s: State)
    requires Shows(s, Scene(Leaving, Asleep, Thread(Producers, 0), [1], []))
    ensures Enabled(s, Leave(Producers, 0)) && Enabled(Apply(s, Leave(Producers, 0)), Wake(Producers, 0, 0))
    ensures Shows(Apply(Apply(s, Leave(Producers, 0)), Wake(Producers, 0, 0)), Scene(Idle, Woken, Free, [1], []))
  {
    InvStep(s, Leave(Producers, 0));
    var t := Apply(s, Leave(Producers, 0));
    assert Inv(t) && Enabled(t, Wake(Producers, 0, 0));
    InvStep(t, Wake(Producers, 0, 0));
    hide Inv;
  }

  lemma RemoveOne(s: State)
    requires Shows(s, Scene(Idle, Checking, Thread(Consumers, 0), [1], []))
    ensures Enabled(s, Work(Consumers, 0))
    ensures Shows(Apply(s, Work(Consumers, 0)), Scene(Idle, Leaving, Thread(Consumers, 0), [1], [1]))
  {
    CheckingDecides(s, Consumers, 0);
    Fifo(s);
    WorkMoves(s, Consumers, 0);
    InvStep(s, Work(Consumers, 0));
    hide Inv;
  }

  lemma RunCons(s: State, step: Step, steps: seq<Step>, t: State)
    requires Enabled(s, step) && Run(Apply(s, step), steps, t)
    ensures Run(s, [step] + steps, t)
  {
    assert ([step] + steps)[1..] == steps;
  }

  // A consumer that finds nothing and goes to sleep is woken by the first item, and gets it.
  lemma ItemPasses(producers: nat, consumers: nat) returns (steps: seq<Step>, t: State)
    requires producers > 0 && consumers > 0
    ensures Run(Initial(producers, consumers), steps, t)
    ensures steps == [Enter(Consumers, 0), Sleep(Consumers, 0), Produce(0), Enter(Producers, 0), Work(Producers, 0),
                      Leave(Producers, 0), Wake(Producers, 0, 0), Enter(Consumers, 0), Work(Consumers, 0)]
    ensures t.inserted == t.removed == [1] && t.queue.size == 0 && t.queue.produced == t.queue.consumed == 1
  {
    hide Shows, Apply, Enabled, Initial;
    ShowsInitially(producers, consumers);
    var s := Initial(producers, consumers);
    var slept := SleepsFirst(s);
    var woken := WakesUp(slept);
    t := TakesIt(woken);
    var before, between := [Enter(Consumers, 0), Sleep(Consumers, 0)],
      [Produce(0), Enter(Producers, 0), Work(Producers, 0), Leave(Producers, 0), Wake(Producers, 0, 0)];
    var after := [Enter(Consumers, 0), Work(Consumers, 0)];
    RunConcat(slept, between, woken, after, t);
    RunConcat(s, before, slept, between + after, t);
    steps := before + (between + after);
  }

  lemma ShowsInitially(producers: nat, consumers: nat)
    requires producers > 0 && consumers > 0
    ensures Shows(Initial(producers, consumers), Scene(Idle, Entering, Free, [], []))
  {
    InvInitially(producers, consumers);
    hide Inv;
  }

  lemma TakesIt(s: State) returns (t: State)
    requires Shows(s, Scene(Idle, Woken, Free, [1], []))
    ensures Run(s, [Enter(Consumers, 0), Work(Consumers, 0)], t)
    ensures t.inserted == t.removed == [1] && t.queue.size == 0 && t.queue.produced == t.queue.consumed == 1
  {
    hide Apply, Enabled, Inv;
    EnterBoth(s, Scene(Idle, Woken, Free, [1], []), Consumers);
    var a := Apply(s, Enter(Consumers, 0));
    RemoveOne(a);
    t := Apply(a, Work(Consumers, 0));
    Fifo(t);
    RunCons(a, Work(Consumers, 0), [], t);
    RunCons(s, Enter(Consumers, 0), [Work(Consumers, 0)] + [], t);
    assert [Enter(Consumers, 0)] + ([Work(Consumers, 0)] + []) == [Enter(Consumers, 0), Work(Consumers, 0)];
  }

  lemma SleepsFirst(s: State) returns (t: State)
    requires Shows(s, Scene(Idle, Entering, Free, [], []))
    ensures Run(s, [Enter(Consumers, 0), Sleep(Consumers, 0)], t) && Shows(t, Scene(Idle, Asleep, Free, [], []))
  {
    hide Shows, Apply, Enabled;
    EnterBoth(s, Scene(Idle, Entering, Free, [], []), Consumers);
    var a := Apply(s, Enter(Consumers, 0));
    FallAsleep(a);
    t := Apply(a, Sleep(Consumers, 0));
    RunCons(a, Sleep(Consumers, 0), [], t);
    RunCons(s, Enter(Consumers, 0), [Sleep(Consumers, 0)] + [], t);
    assert [Enter(Consumers, 0)] + ([Sleep(Consumers, 0)] + []) == [Enter(Consumers, 0), Sleep(Consumers, 0)];
  }

  lemma WakesUp(s: State) returns (t: State)
    requires Shows(s, Scene(Idle, Asleep, Free, [], []))
    ensures Run(s, [Produce(0), Enter(Producers, 0), Work(Producers, 0), Leave(Producers, 0), Wake(Producers, 0, 0)], t)
    ensures Shows(t, Scene(Idle, Woken, Free, [1], []))
  {
    hide Shows, Apply, Enabled;
    Draw(s);
    var a := Apply(s, Produce(0));
    EnterBoth(a, Scene(Entering, Asleep, Free, [], []), Producers);
    var b := Apply(a, Enter(Producers, 0));
    InsertOne(b);
    var c := Apply(b, Work(Producers, 0));
    LeaveAndWake(c);
    var d := Apply(c, Leave(Producers, 0));
    t := Apply(d, Wake(Producers, 0, 0));
    var wake, leave := [Wake(Producers, 0, 0)] + [], [Leave(Producers, 0)];
    RunCons(d, Wake(Producers, 0, 0), [], t);
    RunCons(c, Leave(Producers, 0), wake, t);
    RunCons(b, Work(Producers, 0), leave + wake, t);
    RunCons(a, Enter(Producers, 0), [Work(Producers, 0)] + (leave + wake), t);
    RunCons(s, Produce(0), [Enter(Producers, 0)] + ([Work(Producers, 0)] + (leave + wake)), t);
    assert [Produce(0)] + ([Enter(Producers, 0)] + ([Work(Producers, 0)] + (leave + wake)))
        == [Produce(0), Enter(Producers, 0), Work(Producers, 0), Leave(Producers, 0), Wake(Producers, 0, 0)];
  }

  lemma {:induction false} RunConcat(s: State, first: seq<Step>, t: State, second: seq<Step>, u: State)
    requires Run(s, first, t) && Run(t, second, u)
    ensures Run(s, first + second, u)
    decreases |first|
  {
    hide Apply, Enabled;
    if first == [] {
      assert first + second == second;
    } else {
      assert (first + second)[1..] == first[1..] + second;
      RunConcat(Apply(s, first[0]), first[1..], t, second, u);
    }
  }

  // What a thread at its wait loop can do, and no other thing: sleep while there is nothing to do
  // and nobody has asked to stop, leave once they have (a consumer only when the queue is empty),
  // or work.
  lemma CheckingDecides(s: State, side: Side, i: nat)
    requires Inv(s) && s.Is(side, i, Checking)
    ensures Enabled(s, Sleep(side, i)) <==> !s.stop && s.queue.size == if side.Producers? then 10 else 0
    ensures Enabled(s, Exit(side, i)) <==> s.stop && (side.Producers? || s.queue.size == 0)
    ensures Enabled(s, Work(side, i)) <==> if side.Producers? then !s.stop && s.queue.size < 10 else s.queue.size > 0
  {
    hide HeldBy, Count, ItemInv, Apply, NoneIdle, NoneExited, NoneAsleep, Covered;
  }

  // A producer inserts the item it has drawn, and a consumer removes the oldest one not removed.
  lemma WorkMoves(s: State, side: Side, i: nat)
    requires Inv(s) && Enabled(s, Work(side, i))
    ensures var t := Apply(s, Work(side, i));
            if side.Producers? then t.inserted == s.inserted + [s.items[i]] && t.removed == s.removed
            else |s.removed| < |s.inserted| && t.inserted == s.inserted && t.removed == s.removed + [s.inserted[|s.removed|]]
  {
    hide HeldBy, Count, ItemInv, NoneIdle, NoneExited, NoneAsleep, Covered;
    if side.Consumers? {
      assert s.inserted[|s.removed|] == s.queue.Contents()[0];
    }
  }

  // No item is consumed twice, and none that was not produced.
  lemma ConsumedOnce(s: State)
    requires Inv(s)
    ensures forall k :: 0 <= k < |s.removed| ==> 1 <= s.removed[k] <= s.lastItem
    ensures forall k, l :: 0 <= k < l < |s.removed| ==> s.removed[k] != s.removed[l]
  {
    assert forall k :: 0 <= k < |s.removed| ==> s.removed[k] == s.inserted[k];
  }

  // A queue with items never has every consumer asleep without somebody about to wake one; a
  // queue with room never has every producer asleep without somebody about to wake one.
  lemma NoLostWakeUp(s: State, side: Side)
    requires Inv(s) && |s.Threads(side)| > 0 && s.Supply(side) > 0 && (side.Producers? ==> !s.stop)
    ensures (exists i :: 0 <= i < |s.Threads(side)| && AwakePc(s.Threads(side)[i]))
         || (exists i :: 0 <= i < |s.Threads(Other(side))| && WillWakePc(s.Threads(Other(side))[i]))
  {
    CountAll(s.Threads(side), AwakePc);
    CountAll(s.Threads(Other(side)), WillWakePc);
  }

  // A thread that sleeps may wake up by itself at any time. That changes nothing but that it has
  // to enter the critical section again.
  lemma SpuriousWake(s: State, side: Side, i: nat)
    requires Inv(s) && s.Is(side, i, Asleep)
    ensures Enabled(s, Spurious(side, i))
    ensures var t := Apply(s, Spurious(side, i));
            && t.Is(side, i, Woken) && t == s.Put(side, i, Woken) && Inv(t)
            && !Enabled(t, Work(side, i)) && !Enabled(t, Exit(side, i)) && (Enabled(t, Enter(side, i)) <==> s.lock.Free?)
  {
    InvStep(s, Spurious(side, i));
    hide Inv;
  }

  // The main thread waits for the key and for the lock, and for nothing else.
  lemma MainGoesOn(s: State) returns (step: Step)
    requires Inv(s) && !s.main.Joining? && (s.main.Reading? ==> s.lock.Free?)
    ensures step in {MainEnter, MainStop, MainLeave, WakeAllProducers, WakeAllConsumers} && Enabled(s, step)
  {
    step := match s.main
      case Reading => MainEnter
      case Stopping => MainStop
      case Stopped => MainLeave
      case WakingProducers => WakeAllProducers
      case WakingConsumers => WakeAllConsumers;
  }

  ghost predicate AllExited(s: State) {
    s.main.Joining? && forall side, i :: 0 <= i < |s.Threads(side)| ==> s.Threads(side)[i].Exited?
  }

  // Some thread can always step, without help from a spurious wake-up or from the keyboard.
  lemma Progress(s: State) returns (step: Step)
    requires Inv(s) && |s.producers| > 0 && |s.consumers| > 0 && !AllExited(s)
    ensures Enabled(s, step) && !step.Spurious? && !step.MainEnter?
  {
    if s.lock.Thread? {
      step := InsideStep(s, s.lock.side, s.lock.i);
    } else if s.lock.Main? {
      step := if s.main.Stopping? then MainStop else MainLeave;
    } else if side, i :| 0 <= i < |s.Threads(side)| && !s.Threads(side)[i].Asleep? && !s.Threads(side)[i].Exited? {
      step := OutsideStep(s, side, i);
    } else {
      AwakeSomewhere(s);
      step := if s.main.WakingProducers? then WakeAllProducers else WakeAllConsumers;
    }
  }

  lemma InsideStep(s: State, side: Side, i: nat) returns (step: Step)
    requires Inv(s) && s.lock == Thread(side, i)
    ensures Enabled(s, step) && !step.Spurious? && !step.MainEnter?
  {
    assert InsidePc(s.Threads(side)[i]);
    if s.Threads(side)[i].Leaving? {
      step := Leave(side, i);
    } else if s.MustWait(side) {
      step := Sleep(side, i);
    } else if s.MustExit(side) {
      step := Exit(side, i);
    } else {
      step := Work(side, i);
    }
  }

  lemma OutsideStep(s: State, side: Side, i: nat) returns (step: Step)
    requires Inv(s) && s.lock.Free? && i < |s.Threads(side)|
    requires !s.Threads(side)[i].Asleep? && !s.Threads(side)[i].Exited?
    ensures Enabled(s, step) && !step.Spurious? && !step.MainEnter?
  {
    assert !InsidePc(s.Threads(side)[i]);
    var pc := s.Threads(side)[i];
    if pc.Idle? {
      step := Produce(i);
    } else if pc.Waking? {
      if NoneAsleep(s.Threads(Other(side))) {
        step := WakeNone(side, i);
      } else {
        var j: nat :| j < |s.Threads(Other(side))| && s.Threads(Other(side))[j].Asleep?;
        step := Wake(side, i, j);
      }
    } else {
      step := Enter(side, i);
    }
  }

  // With nobody inside and nobody awake, the main thread has broadcasts left to do.
  lemma AwakeSomewhere(s: State)
    requires Inv(s) && |s.producers| > 0 && |s.consumers| > 0 && !AllExited(s) && s.lock.Free?
    requires forall side, i :: 0 <= i < |s.Threads(side)| ==> s.Threads(side)[i].Asleep? || s.Threads(side)[i].Exited?
    ensures s.main.WakingProducers? || s.main.WakingConsumers?
  {
    forall side: Side
      ensures Count(s.Threads(side), AwakePc) == 0 && Count(s.Threads(side), WillWakePc) == 0
    {
      CountAll(s.Threads(side), AwakePc);
      CountAll(s.Threads(side), WillWakePc);
    }
    assert s.Threads(Producers) == s.producers && s.Threads(Consumers) == s.consumers;
    assert Covered(s, Consumers) && (!s.stop ==> Covered(s, Producers));
  }

  // ----- after the stop -----

  lemma NothingInsertedAfterStop(s: State, step: Step)
    requires s.stop && Enabled(s, step)
    ensures Apply(s, step).inserted == s.inserted && Apply(s, step).stop
  {
  }

  // Once a consumer has exited, everything produced has been consumed.
  lemma Drained(s: State, i: nat)
    requires Inv(s) && s.Is(Consumers, i, Exited)
    ensures s.stop && s.queue.size == 0 && s.removed == s.inserted
    ensures s.queue.produced == s.queue.consumed == |s.inserted| % 0x1_0000_0000
  {
    assert s.queue.Contents() == [];
  }

  function Rank(pc: Pc): nat {
    match pc
    case Exited => 0
    case Checking => 1
    case Entering => 2
    case Woken => 2
    case Asleep => 3
    case Idle => 3
    case Waking => 4
    case Leaving => 5
  }

  function Ranks(pcs: seq<Pc>): nat {
    if pcs == [] then 0 else Rank(pcs[0]) + Ranks(pcs[1..])
  }

  // An upper bound on the steps left after the stop.
  function StepsLeft(s: State): nat {
    5 * s.queue.size + Ranks(s.producers) + Ranks(s.consumers)
    + match s.main case Stopped => 3 case WakingProducers => 2 case WakingConsumers => 1 case _ => 0
  }

  lemma {:induction false} RanksUpdate(pcs: seq<Pc>, i: nat, pc: Pc)
    requires i < |pcs|
    ensures Ranks(pcs[i := pc]) == Ranks(pcs) - Rank(pcs[i]) + Rank(pc)
  {
    if i > 0 {
      assert pcs[i := pc][1..] == pcs[1..][i - 1 := pc];
      RanksUpdate(pcs[1..], i - 1, pc);
    }
  }

  lemma {:induction false} RanksWakeAll(pcs: seq<Pc>)
    ensures Ranks(WakeAll(pcs)) <= Ranks(pcs)
  {
    if pcs != [] {
      assert WakeAll(pcs)[1..] == WakeAll(pcs[1..]);
      RanksWakeAll(pcs[1..]);
    }
  }

  lemma StepsDecrease(s: State, step: Step)
    requires Inv(s) && s.stop && Enabled(s, step)
    ensures StepsLeft(Apply(s, step)) < StepsLeft(s)
  {
    if Mover(step) {
      MoveDecreases(s, step);
    } else {
      RanksWakeAll(s.producers);
      RanksWakeAll(s.consumers);
    }
  }

  lemma MoveDecreases(s: State, step: Step)
    requires s.queue.Valid() && s.stop && Enabled(s, step) && Mover(step)
    ensures StepsLeft(Apply(s, step)) < StepsLeft(s)
  {
    var (side, i, pc) := Moves(s, step);
    ThreadsAfter(s, step, Producers);
    ThreadsAfter(s, step, Consumers);
    RestAfter(s, step);
    hide Apply, Ranks;
    RanksUpdate(s.Threads(side), i, pc);
    if step.Wake? {
      RanksUpdate(s.Threads(Other(side)), step.j, Woken);
    }
  }

  // The stop sequence ends: every run after the stop is at most StepsLeft long, and when no
  // step but a spurious wake-up is left, all threads have exited and everything was consumed.
  lemma {:induction false} ShutdownEnds(s: State, steps: seq<Step>, t: State)
    requires Inv(s) && s.stop && |s.producers| > 0 && |s.consumers| > 0 && Run(s, steps, t)
    ensures |steps| + StepsLeft(t) <= StepsLeft(s) && t.inserted == s.inserted
    ensures (forall step :: Enabled(t, step) ==> step.Spurious?)
            ==> && AllExited(t) && t.main.Joining? && t.stop && t.queue.size == 0 && t.removed == s.inserted
                && t.queue.produced == t.queue.consumed == |s.inserted| % 0x1_0000_0000
    decreases |steps|
  {
    hide Inv, Apply, StepsLeft;
    if steps != [] {
      StepsDecrease(s, steps[0]);
      NothingInsertedAfterStop(s, steps[0]);
      InvStep(s, steps[0]);
      ThreadCounts(s, steps[0]);
      ShutdownEnds(Apply(s, steps[0]), steps[1..], t);
    } else if forall step :: Enabled(t, step) ==> step.Spurious? {
      if !AllExited(t) {
        var step := Progress(t);
      }
      assert t.Threads(Consumers)[0].Exited?;
      Drained(t, 0);
    }
  }

  lemma ThreadCounts(s: State, step: Step)
    requires Enabled(s, step)
    ensures |Apply(s, step).producers| == |s.producers| && |Apply(s, step).consumers| == |s.consumers|
  {
  }
}
