/**
 The circular buffer of ConditionVariables: the globals that its critical sections change, as a
 value, and the same critical sections working in place on the array.
 */
module CircularQueue {

  const BUFFER_SIZE: nat := 10

  // ULONG arithmetic.
  function Wrap(n: int): nat {
    n % 0x1_0000_0000
  }

  lemma WrapNext(n: nat)
    ensures Wrap(Wrap(n) + 1) == Wrap(n + 1)
  {
  }

  lemma WrapSum(m: nat, n: nat)
    ensures Wrap(m + n) == Wrap(Wrap(m) + n)
  {
  }

  datatype Globals = Globals(
    buffer: seq<int>,
    start: nat,     // QueueStartOffset
    size: nat,      // QueueSize
    produced: nat,  // TotalItemsProduced
    consumed: nat)  // TotalItemsConsumed
  {
    predicate Valid() {
      |buffer| == BUFFER_SIZE && start < BUFFER_SIZE && size <= BUFFER_SIZE
    }

    // The queued items, oldest first.
    function Contents(): (items: seq<int>)
      requires Valid()
      ensures |items| == size
    {
      seq(size, i requires 0 <= i => buffer[(start + i) % BUFFER_SIZE])
    }

    function Insert(item: int): Globals
      requires Valid() && size < BUFFER_SIZE
    {
      this.(buffer := buffer[(start + size) % BUFFER_SIZE := item], size := size + 1, produced := Wrap(produced + 1))
    }

    function Front(): int
      requires Valid()
    {
      buffer[start]
    }

    function Remove(): Globals
      requires Valid() && size > 0
    {
      this.(size := size - 1, start := if start + 1 == BUFFER_SIZE then 0 else start + 1, consumed := Wrap(consumed + 1))
    }
  }

  // Inserting appends, wherever the queue wraps around.
  lemma InsertAppends(g: Globals, item: int)
    requires g.Valid() && g.size < BUFFER_SIZE
    ensures g.Insert(item).Valid() && g.Insert(item).Contents() == g.Contents() + [item]
  {
  }

  // Removing takes the oldest item.
  lemma RemoveTakesFirst(g: Globals)
    requires g.Valid() && g.size > 0
    ensures g.Remove().Valid() && g.Contents() == [g.Front()] + g.Remove().Contents()
  {
  }

  // The globals themselves.
  class Queue {
    const Buffer: array<int>
    var QueueStartOffset: nat
    var QueueSize: nat
    var TotalItemsProduced: nat
    var TotalItemsConsumed: nat

    constructor ()
      ensures View().Valid() && View().Contents() == [] && fresh(Buffer) && Buffer.Length == 10
      ensures TotalItemsProduced == TotalItemsConsumed == 0
    {
      Buffer := new int[BUFFER_SIZE];
      QueueStartOffset, QueueSize, TotalItemsProduced, TotalItemsConsumed := 0, 0, 0, 0;
    }

    function View(): Globals
      reads this, Buffer
    {
      Globals(Buffer[..], QueueStartOffset, QueueSize, TotalItemsProduced, TotalItemsConsumed)
    }

    // The producer's critical section, once there is room.
    method Insert(item: int)
      requires View().Valid() && QueueSize < BUFFER_SIZE
      modifies this, Buffer
      ensures View() == old(View().Insert(item))
      ensures View().Valid() && View().Contents() == old(View().Contents()) + [item]
      ensures QueueSize == old(QueueSize) + 1 <= 10 && TotalItemsConsumed == old(TotalItemsConsumed)
      ensures old(TotalItemsProduced) < 0xFFFF_FFFF ==> TotalItemsProduced == old(TotalItemsProduced) + 1
      ensures old(TotalItemsProduced) == 0xFFFF_FFFF ==> TotalItemsProduced == 0
    {
      InsertAppends(View(), item);
      Buffer[(QueueStartOffset + QueueSize) % BUFFER_SIZE] := item;
      QueueSize := QueueSize + 1;
      TotalItemsProduced := Wrap(TotalItemsProduced + 1);
    }

    // The consumer's critical section, once there is an item.
    method Remove() returns (item: int)
      requires View().Valid() && QueueSize > 0
      modifies this
      ensures View() == old(View().Remove()) && item == old(View().Front())
      ensures View().Valid() && [item] + View().Contents() == old(View().Contents())
      ensures QueueSize == old(QueueSize) - 1 && TotalItemsProduced == old(TotalItemsProduced)
      ensures old(TotalItemsConsumed) < 0xFFFF_FFFF ==> TotalItemsConsumed == old(TotalItemsConsumed) + 1
      ensures old(TotalItemsConsumed) == 0xFFFF_FFFF ==> TotalItemsConsumed == 0
    {
      RemoveTakesFirst(View());
      item := Buffer[QueueStartOffset];
      QueueSize := QueueSize - 1;
      QueueStartOffset := QueueStartOffset + 1;
      TotalItemsConsumed := Wrap(TotalItemsConsumed + 1);
      if QueueStartOffset == BUFFER_SIZE {
        QueueStartOffset := 0;
      }
    }
  }
}
