/** The transport of XSocket: a byte queue kept as a list of the buffers that were written. */
module Transport {
  import opened Bytes
  import opened ByteFifo
  import opened Memory
  import opened RingList

  datatype Hresult = S_OK | E_FAIL | E_OUTOFMEMORY

  class Transport {
    const list: List
    ghost var items: seq<Item>           // the entries as values
    ghost var buffers: set<array<Byte>>  // the arrays the entries own

    constructor ()
      ensures Valid() && items == [] && buffers == {} && fresh(list) && fresh(list.Nodes())
    {
      list := new List();
      items, buffers := [], {};
    }

    // The entries of the list hold the items.
    ghost predicate Held()
      reads this, list, list.Ring(), buffers
    {
      && list.Valid() && |items| == |list.entries|
      && (forall i :: 0 <= i < |items| ==> EntryAt(i))
    }

    ghost predicate EntryAt(i: nat)
      requires i < |items| == |list.entries|
      reads this, list, list.Ring(), buffers
    {
      var e := list.Ring()[i + 1];
      e.data in buffers && e.Valid() && items[i] == Item(e.data[..], e.index)
    }

    ghost predicate Valid()
      reads this, list, list.Ring(), buffers
    {
      Held() && WellFormed(items)
    }

    // The entry goes to the end of the list.
    method Append(entry: ListEntry, ghost bytes: seq<Byte>)
      requires Held() && entry !in list.Ring() && entry.Valid() && entry.index == 0 && entry.data[..] == bytes
      modifies this, list, list.Nodes(), entry
      ensures Held() && items == old(items) + [Item(bytes, 0)] && buffers == old(buffers) + {entry.data}
      ensures entry.data == old(entry.data) && list.Nodes() == old(list.Nodes()) + {entry}
    {
      ghost var before := list.Ring();
      list.AppendTail(entry);
      assert list.Ring() == before + [entry];
      items, buffers := items + [Item(bytes, 0)], buffers + {entry.data};
      forall i | 0 <= i < |items| ensures EntryAt(i) {
        if i + 1 < |items| {
          assert old(EntryAt(i)) && list.Ring()[i + 1] == before[i + 1];
        }
      }
    }

    // The entry WriteData makes: a copy of the caller's bytes.
    method NewEntry(data: array<Byte>, dataLength: nat) returns (entry: ListEntry)
      requires dataLength <= data.Length
      ensures fresh(entry) && fresh(entry.data) && entry.Valid()
      ensures entry.index == 0 && entry.data[..] == data[..dataLength]
    {
      entry := new ListEntry();
      var buffer := new Byte[dataLength];
      CopyMemory(buffer, 0, data, 0, dataLength);
      entry.Attach(dataLength, buffer);
    }

    // WriteData: appends a copy of the bytes; nothing for a null pointer or without memory.
    method WriteData(data: array?<Byte>, dataLength: nat, memory: bool) returns (hr: Hresult)
      requires Valid() && (data != null ==> dataLength <= data.Length)
      modifies this, list, list.Nodes()
      ensures Valid() && fresh(buffers - old(buffers)) && fresh(list.Nodes() - old(list.Nodes()))
      ensures hr == if data != null && !memory then E_OUTOFMEMORY else S_OK
      ensures data == null || !memory ==> items == old(items)
      ensures data != null && memory ==>
        && items == old(items) + [Item(data[..dataLength], 0)]
        && Contents(items) == Contents(old(items)) + data[..dataLength]
    {
      if data == null {
        return S_OK;
      }
      if !memory {
        return E_OUTOFMEMORY;
      }
      ContentsAppend(items, Item(data[..dataLength], 0));
      hide Contents, WellFormed;
      var entry := NewEntry(data, dataLength);
      Append(entry, data[..dataLength]);
      hr := S_OK;
    }

    // CopyTo out of the first entry.
    method Take(first: ListEntry, data: array<Byte>, at: nat, room: nat) returns (inside: bool, copied: nat)
      requires Held() && items != [] && first == list.entries[0]
      requires at + room <= data.Length && data !in buffers
      modifies this`items, first`index, data
      ensures Held() && copied == Min(room, |old(items)[0].data|)
      ensures inside <==> old(items)[0].index + copied <= |old(items)[0].data|
      ensures !inside ==> items == old(items) && data[..] == old(data[..])
      ensures inside ==>
        var item := old(items)[0];
        && items == old(items)[0 := item.(index := item.index + copied)]
        && data[..at + copied] == old(data[..at]) + item.data[item.index..item.index + copied]
    {
      assert EntryAt(0) && first == list.Ring()[1];
      inside, copied := first.CopyTo(data, at, room);
      if inside {
        items := items[0 := items[0].(index := first.index)];
      }
      forall i | 0 <= i < |items| ensures EntryAt(i) {
        assert old(EntryAt(i)) && (i > 0 ==> list.Ring()[i + 1] != first);
      }
    }

    // RemoveHead.
    method Drop()
      requires Held() && items != []
      modifies this`items, list`entries, list.Nodes()
      ensures Held() && items == old(items)[1..] && list.Nodes() <= old(list.Nodes())
    {
      ghost var before := list.Ring();
      list.RemoveHead();
      items := items[1..];
      forall i | 0 <= i < |items| ensures EntryAt(i) {
        assert old(EntryAt(i + 1)) && list.Ring()[i + 1] == before[i + 2];
      }
    }

    // One turn of the loop of ReadData: a copy out of the first entry, which goes when it is used up.
    method Turn(data: array<Byte>, at: nat, room: nat) returns (inside: bool, copied: nat)
      requires Held() && items != [] && at + room <= data.Length && data !in buffers
      modifies this`items, list`entries, list.Nodes(), data
      ensures Held() && list.Nodes() <= old(list.Nodes())
      ensures copied == Min(room, |old(items)[0].data|)
      ensures inside <==> old(items)[0].index + copied <= |old(items)[0].data|
      ensures !inside ==> items == old(items) && data[..] == old(data[..])
      ensures inside ==>
        var item := old(items)[0];
        && items == Advance(old(items), copied)
        && data[..at + copied] == old(data[..at]) + item.data[item.index..item.index + copied]
    {
      assert EntryAt(0);
      var first := list.Peek();
      assert first == list.Ring()[1];
      inside, copied := Take(first, data, at, room);
      assert EntryAt(0);
      if inside && first.DataLeft() == 0 {
        Drop();
      }
    }

    // The loop of ReadData is Drain; a copy that would leave its entry is the first one.
    method Loop(dataLength: nat, data: array<Byte>) returns (read: nat, inside: bool)
      requires Valid() && dataLength <= data.Length && data !in buffers
      modifies this`items, list`entries, list.Nodes(), data
      ensures Valid() && list.Nodes() <= old(list.Nodes()) && read <= dataLength
      ensures inside ==> Drain(old(items), dataLength) == Some(Drained(data[..read], items))
      ensures !inside ==> !Readable(old(items), dataLength)
      ensures !inside ==> read == 0 && items == old(items) && data[..] == old(data[..])
    {
      hide Contents, Drain, After, WellFormed, Readable, Advance;
      read, inside := 0, true;
      ghost var was := items;
      AfterNothing(Drain(items, dataLength));
      var empty := list.IsEmpty();
      list.EmptyIff();
      while read < dataLength && !empty
        invariant Valid() && list.Nodes() <= old(list.Nodes()) && empty == (items == []) && read <= dataLength
        invariant Drain(was, dataLength) == After(data[..read], Drain(items, dataLength - read))
        invariant Readable(items, dataLength - read) || (read == 0 && items == was && data[..] == old(data[..]))
        decreases |items|, dataLength - read
      {
        ghost var room, before, out := dataLength - read, items, data[..read];
        CopyReadable(before, room);
        var copied;
        inside, copied := Turn(data, read, dataLength - read);
        if !inside {
          return;
        }
        DrainInside(before, copied, room);
        AfterAfter(out, before[0].data[before[0].index..before[0].index + copied], Drain(items, room - copied));
        read := read + copied;
        empty := list.IsEmpty();
        list.EmptyIff();
      }
      DrainEnd(items, dataLength - read);
      AfterEnd(data[..read], items);
    }

    // ReadData: for a readable length, as many bytes as there are, up to the length asked for, in
    // the order written.
    method ReadData(dataLength: nat, data: array?<Byte>) returns (hr: Hresult, read: nat, inside: bool)
      requires Valid() && (data != null ==> dataLength <= data.Length && data !in buffers)
      modifies this`items, list`entries, list.Nodes(), data
      ensures Valid() && list.Nodes() <= old(list.Nodes())
      ensures hr == if data == null then E_FAIL else S_OK
      ensures inside <==> data == null || Readable(old(items), dataLength)
      ensures data == null || !inside ==> read == 0 && items == old(items)
      ensures data != null && !inside ==> data[..] == old(data[..])
      ensures data != null && inside ==>
        && read == Min(dataLength, |Contents(old(items))|) <= data.Length
        && data[..read] == Contents(old(items))[..read] && Contents(items) == Contents(old(items))[read..]
        && Drain(old(items), dataLength) == Some(Drained(data[..read], items))
    {
      if data == null {
        return E_FAIL, 0, true;
      }
      DrainReadable(items, dataLength);
      hide Contents, Drain, Readable, WellFormed;
      read, inside := Loop(dataLength, data);
      hr := S_OK;
    }
  }

  // One operation on a transport, with an array of the caller's own.
  method Step(t: Transport, op: Op) returns (outs: seq<seq<Byte>>, inside: bool)
    requires t.Valid()
    modifies t, t.list, t.list.Nodes()
    ensures t.Valid() && fresh(t.list.Nodes() - old(t.list.Nodes()))
    ensures Do(old(t.items), op) == if inside then Some(Stepped(outs, t.items)) else None
    ensures !inside ==> t.items == old(t.items)
  {
    match op
    case Write(bytes, memory) =>
      var data := new Byte[|bytes|];
      Store(data, 0, bytes);
      assert data[..|bytes|] == bytes;
      var _ := t.WriteData(data, |bytes|, memory);
      return [], true;
    case Read(length) =>
      DoServes(t.items, op);
      var data := new Byte[length];
      hide Drain, Contents;
      var _, read, within := t.ReadData(length, data);
      return [data[..read]], within;
  }

  // The operations in order, until a read would leave its entry.
  method Run(t: Transport, ops: seq<Op>) returns (outs: seq<seq<Byte>>, done: nat)
    requires t.Valid()
    modifies t, t.list, t.list.Nodes()
    ensures t.Valid() && fresh(t.list.Nodes() - old(t.list.Nodes()))
    ensures Play(old(t.items), ops) == Played(outs, t.items, done)
  {
    hide Do, Contents, WellFormed;
    ghost var was := t.items;
    outs, done := [], 0;
    assert ops[0..] == ops;
    JoinFront(Play(was, ops));
    while done < |ops|
      invariant t.Valid() && done <= |ops| && fresh(t.list.Nodes() - old(t.list.Nodes()))
      invariant Play(was, ops) == Join(outs, done, Play(t.items, ops[done..]))
    {
      assert ops[done..][0] == ops[done] && ops[done..][1..] == ops[done + 1..];
      var more, inside := Step(t, ops[done]);
      if !inside {
        JoinNothing(outs, done, t.items);
        return;
      }
      JoinJoin(outs, done, more, Play(t.items, ops[done + 1..]));
      outs, done := outs + more, done + 1;
    }
    JoinNothing(outs, done, t.items);
  }

  // A session on a transport. What was held and written is what was read and is still held; each
  // read got what the plain byte queue gives it; and the session ends early exactly when there is
  // a read that is not readable when it is made, at the first one.
  method Session(t: Transport, ops: seq<Op>) returns (outs: seq<seq<Byte>>, done: nat)
    requires t.Valid()
    modifies t, t.list, t.list.Nodes()
    ensures t.Valid() && done <= |ops|
    ensures Contents(old(t.items)) + Written(ops[..done]) == Flatten(outs) + Contents(t.items)
    ensures Ideal(Contents(old(t.items)), ops[..done]) == Queue(outs, Contents(t.items))
    ensures done < |ops| ==> ops[done].Read? && !Readable(t.items, ops[done].length)
    ensures done == |ops| <==> forall k :: 0 <= k < |ops| ==> AllowedAt(old(t.items), ops, k)
  {
    Fifo(t.items, ops);
    PlayRefines(t.items, ops);
    PlaysOut(t.items, ops);
    hide Play, Contents, Ideal, Written, Readable, AllowedAt, Flatten;
    outs, done := Run(t, ops);
  }
}
