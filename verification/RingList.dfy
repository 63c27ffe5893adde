/** The intrusive list of XSocket: entries on a ring through a sentinel. */
module RingList {
  import opened Bytes
  import opened Memory

  class ListEntry {
    var forward: ListEntry?
    var backward: ListEntry?
    var size: nat
    var index: nat
    var data: array<Byte>

    constructor ()
      ensures forward == null && backward == null && size == 0 && index == 0 && fresh(data)
    {
      forward, backward, size, index := null, null, 0, 0;
      data := new Byte[0];
    }

    method Attach(size: nat, data: array<Byte>)
      modifies `index, `size, `data
      ensures this.index == 0 && this.size == size && this.data == data
    {
      this.index, this.size, this.data := 0, size, data;
    }

    predicate Valid()
      reads this
    {
      index <= size == data.Length
    }

    function DataLeft(): int
      reads this
    {
      size - index
    }

    // CopyTo compares the room with the entry's size, not with what is left in it. The copy stays
    // inside the entry exactly when the entry is untouched or no more is asked for than it has
    // left; a copy that would leave it is reported and not made.
    method CopyTo(dst: array<Byte>, at: nat, room: nat) returns (inside: bool, copied: nat)
      requires Valid() && at + room <= dst.Length && dst != data
      modifies `index, dst
      ensures Valid() && copied == Min(room, size) && (inside ==> index == old(index) + copied)
      ensures inside <==> old(index) == 0 || room <= old(DataLeft())
      ensures inside ==> copied == Min(room, old(DataLeft()))
      ensures inside ==> dst[..at + copied] == old(dst[..at]) + data[old(index)..index]
      ensures !inside ==> index == old(index) && dst[..] == old(dst[..])
    {
      copied := Min(room, size);
      inside := index + copied <= size;
      if inside {
        CopyMemory(dst, at, data, index, copied);
        index := index + copied;
      }
    }
  }

  class List {
    const head: ListEntry
    ghost var entries: seq<ListEntry>

    constructor ()
      ensures Valid() && entries == [] && fresh(head) && fresh(head.data)
    {
      head := new ListEntry();
      entries := [];
      new;
      head.forward, head.backward := head, head;
    }

    // The ring: the sentinel at position 0, then the entries.
    ghost function Ring(): seq<ListEntry>
      reads this
    {
      [head] + entries
    }

    ghost function Nodes(): set<ListEntry>
      reads this
    {
      set e | e in Ring()
    }

    ghost function Next(i: nat): nat
      requires i <= |entries|
      reads this
    {
      if i == |entries| then 0 else i + 1
    }

    // All positions are distinct, and forward and backward lead round the ring in both
    // directions.
    ghost predicate Valid()
      reads this, Ring()`forward, Ring()`backward
    {
      && (forall i, j :: 0 <= i < j <= |entries| ==> Ring()[i] != Ring()[j])
      && (forall i :: 0 <= i <= |entries| ==> LinkedAt(i))
    }

    ghost predicate LinkedAt(i: nat)
      requires i <= |entries|
      reads this, Ring()`forward, Ring()`backward
    {
      Ring()[i].forward == Ring()[Next(i)] && Ring()[Next(i)].backward == Ring()[i]
    }

    // Following n forward links from the sentinel; n backward links.
    ghost function Forward(n: nat): ListEntry?
      reads *
    {
      if n == 0 then head
      else
        var e := Forward(n - 1);
        if e == null then null else e.forward
    }

    ghost function Backward(n: nat): ListEntry?
      reads *
    {
      if n == 0 then head
      else
        var e := Backward(n - 1);
        if e == null then null else e.backward
    }

    // Walking the links visits the entries in order, and returns to the sentinel after the last.
    lemma {:induction false} Walk(n: nat)
      requires Valid() && n <= |entries| + 1
      ensures Forward(n) == Ring()[if n == |entries| + 1 then 0 else n]
      ensures Backward(n) == Ring()[if n == 0 || n == |entries| + 1 then 0 else |entries| + 1 - n]
    {
      if n > 0 {
        Walk(n - 1);
        assert LinkedAt(n - 1) && LinkedAt(|entries| + 1 - n);
      }
    }

    predicate IsEmpty()
      reads this, head
    {
      head.forward == head && head.backward == head
    }

    lemma EmptyIff()
      requires Valid()
      ensures IsEmpty() <==> entries == []
    {
      assert LinkedAt(0);
    }

    method Peek() returns (first: ListEntry)
      requires Valid() && entries != []
      ensures first == entries[0]
    {
      assert LinkedAt(0);
      first := head.forward;
    }

    method RemoveHead()
      requires Valid() && entries != []
      modifies this`entries, Nodes()
      ensures Valid() && entries == old(entries)[1..]
      ensures forall e :: e in old(Ring()) ==> e.size == old(e.size) && e.index == old(e.index) && e.data == old(e.data)
    {
      assert LinkedAt(0) && LinkedAt(1);
      var first := head.forward;
      var previous := first.backward;
      previous.forward := first.forward;
      first.forward.backward := first.backward;
      ghost var before := Ring();
      entries := entries[1..];
      assert forall k :: 0 <= k <= |entries| ==> Ring()[k] == before[if k == 0 then 0 else k + 1];
      forall i, j | 0 <= i < j <= |entries| ensures Ring()[i] != Ring()[j] {
        assert before[if i == 0 then 0 else i + 1] != before[j + 1];
      }
      forall i | 0 <= i <= |entries| ensures LinkedAt(i) {
        assert old(LinkedAt(if i == 0 then 0 else i + 1));
      }
    }

    method AppendTail(entry: ListEntry)
      requires Valid() && entry !in Ring()
      modifies this`entries, Nodes(), entry
      ensures Valid() && entries == old(entries) + [entry]
      ensures forall e :: e in Ring() ==> e.size == old(e.size) && e.index == old(e.index) && e.data == old(e.data)
    {
      ghost var n := |entries|;
      assert LinkedAt(n);
      var last := head.backward;
      var next := last.forward;
      last.forward := entry;
      next.backward := entry;
      entry.forward := next;
      entry.backward := last;
      ghost var before := Ring();
      entries := entries + [entry];
      assert forall k :: 0 <= k <= n + 1 ==> Ring()[k] == if k <= n then before[k] else entry;
      forall i, j | 0 <= i < j <= n + 1 ensures Ring()[i] != Ring()[j] {
        assert j <= n ==> before[i] != before[j];
      }
      forall i | 0 <= i <= |entries| ensures LinkedAt(i) {
        assert i < n ==> old(LinkedAt(i));
      }
    }
  }
}
