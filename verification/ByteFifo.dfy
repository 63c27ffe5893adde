/**
 The byte queue of XSocket as values: entries with a read position, the loop of ReadData on them,
 whole sessions of writes and reads, and the plain byte queue they stand for.
 */
module ByteFifo {
  import opened Bytes

  // A buffer that was written, and how much of it has been read.
  datatype Item = Item(data: seq<Byte>, index: nat)

  // Only the first entry may have been read from, and not to its end.
  predicate WellFormed(items: seq<Item>) {
    forall i :: 0 <= i < |items| ==>
      items[i].index == 0 || (i == 0 && items[i].index < |items[i].data|)
  }

  function Left(item: Item): seq<Byte>
    requires item.index <= |item.data|
  {
    item.data[item.index..]
  }

  // The bytes written and not yet read.
  function Contents(items: seq<Item>): seq<Byte>
    requires WellFormed(items)
  {
    if items == [] then [] else Left(items[0]) + Contents(items[1..])
  }

  lemma {:induction false} ContentsAppend(items: seq<Item>, item: Item)
    requires WellFormed(items) && item.index == 0
    ensures WellFormed(items + [item]) && Contents(items + [item]) == Contents(items) + item.data
  {
    if items == [] {
      assert [] + [item] == [item] && [item][1..] == [];
      assert Contents([item]) == item.data + Contents([]);
    } else {
      var head, rest := Left(items[0]), items[1..];
      ContentsAppend(rest, item);
      assert (items + [item])[1..] == rest + [item];
      hide WellFormed;
      assert head + (Contents(rest) + item.data) == (head + Contents(rest)) + item.data;
    }
  }

  // Whether a read of this many bytes stays inside the first entry: it is untouched, or no more
  // is asked for than it has left.
  predicate Readable(items: seq<Item>, length: nat)
    requires WellFormed(items)
  {
    items == [] || items[0].index == 0 || length <= |Left(items[0])|
  }

  // The first entry with its next n bytes read; it is removed when none is left.
  function Advance(items: seq<Item>, n: nat): seq<Item>
    requires items != [] && items[0].index + n <= |items[0].data|
  {
    var first := items[0].(index := items[0].index + n);
    (if first.index == |first.data| then [] else [first]) + items[1..]
  }

  datatype Drained = Drained(out: seq<Byte>, items: seq<Item>)

  // Bytes copied in front of what the rest of the loop copies.
  function After(copied: seq<Byte>, rest: Option<Drained>): Option<Drained> {
    match rest
    case None => None
    case Some(Drained(out, items)) => Some(Drained(copied + out, items))
  }

  lemma AfterNothing(rest: Option<Drained>)
    ensures After([], rest) == rest
  {
    assert rest.Some? ==> [] + rest.value.out == rest.value.out;
  }

  lemma AfterAfter(a: seq<Byte>, b: seq<Byte>, rest: Option<Drained>)
    ensures After(a, After(b, rest)) == After(a + b, rest)
  {
    if rest.Some? {
      assert a + (b + rest.value.out) == a + b + rest.value.out;
    }
  }

  lemma AfterEnd(copied: seq<Byte>, items: seq<Item>)
    ensures After(copied, Some(Drained([], items))) == Some(Drained(copied, items))
  {
    assert copied + [] == copied;
  }

  // The loop of ReadData. CopyTo compares the room with the entry's size, not with what is left
  // in it; None is a copy that leaves the entry.
  function Drain(items: seq<Item>, room: nat): Option<Drained>
    decreases |items|, room
  {
    if items == [] || room == 0 then Some(Drained([], items))
    else
      var first, n := items[0], Min(room, |items[0].data|);
      if first.index + n > |first.data| then None
      else After(first.data[first.index..first.index + n], Drain(Advance(items, n), room - n))
  }

  // Taking n elements from the front part of a sequence.
  lemma TakeFront<T>(a: seq<T>, b: seq<T>, n: nat)
    requires n <= |a|
    ensures (a + b)[..n] == a[..n] && (a + b)[n..] == a[n..] + b
  {
  }

  lemma AdvanceWellFormed(items: seq<Item>, n: nat)
    requires WellFormed(items) && items != [] && items[0].index + n <= |items[0].data|
    ensures WellFormed(Advance(items, n)) && WellFormed(items[1..])
  {
  }

  // Reading n bytes of the first entry takes them from the front of the contents.
  lemma AdvanceKeeps(items: seq<Item>, n: nat)
    requires items != [] && items[0].index + n <= |items[0].data|
    requires WellFormed(items) && WellFormed(Advance(items, n)) && WellFormed(items[1..])
    ensures n <= |Contents(items)| && Contents(items)[..n] == items[0].data[items[0].index..items[0].index + n]
    ensures Contents(Advance(items, n)) == Contents(items)[n..]
  {
    hide WellFormed;
    var first, rest := items[0], items[1..];
    TakeFront(Left(first), Contents(rest), n);
    TakeMore(first.data, first.index, n);
    var moved := first.(index := first.index + n);
    assert Left(first)[n..] == Left(moved) && Contents(items) == Left(first) + Contents(rest);
    if moved.index == |moved.data| {
      assert Left(moved) == [] && Advance(items, n) == rest;
    } else {
      assert ([moved] + rest)[1..] == rest;
    }
  }

  // A copy stays inside the entry exactly for a readable length, and the rest is readable then.
  lemma CopyReadable(items: seq<Item>, room: nat)
    requires WellFormed(items) && items != [] && room > 0
    ensures var first, n := items[0], Min(room, |items[0].data|);
            && (Readable(items, room) <==> first.index + n <= |first.data|)
            && (Readable(items, room) ==>
                  && WellFormed(Advance(items, n)) && Readable(Advance(items, n), room - n)
                  && (|Advance(items, n)| < |items| || (|Advance(items, n)| == |items| && n == room)))
  {
  }

  // The loop when there is nothing to do, and when its first copy leaves the entry.
  lemma DrainEnd(items: seq<Item>, room: nat)
    requires WellFormed(items) && (items == [] || room == 0)
    ensures Readable(items, room) && Drain(items, room) == Some(Drained([], items))
    ensures Min(room, |Contents(items)|) == 0
  {
  }

  lemma DrainOutside(items: seq<Item>, room: nat)
    requires WellFormed(items) && items != [] && room > 0
    requires items[0].index + Min(room, |items[0].data|) > |items[0].data|
    ensures Drain(items, room) == None
  {
  }

  lemma DrainInside(items: seq<Item>, n: nat, room: nat)
    requires items != [] && room > 0
    requires n == Min(room, |items[0].data|) && items[0].index + n <= |items[0].data|
    ensures Drain(items, room)
      == After(items[0].data[items[0].index..items[0].index + n], Drain(Advance(items, n), room - n))
  {
  }

  // One turn of the loop, on the contents.
  lemma DrainTurn(items: seq<Item>, n: nat, room: nat)
    requires WellFormed(items) && items != [] && room > 0
    requires n == Min(room, |items[0].data|) && items[0].index + n <= |items[0].data|
    ensures WellFormed(Advance(items, n)) && n <= |Contents(items)|
    ensures Drain(items, room) == After(Contents(items)[..n], Drain(Advance(items, n), room - n))
    ensures Contents(Advance(items, n)) == Contents(items)[n..]
  {
    AdvanceWellFormed(items, n);
    AdvanceKeeps(items, n);
    DrainInside(items, n, room);
    hide Drain, After, Contents, WellFormed;
  }

  // The first n bytes and then the others of a read, on the plain queue.
  lemma TakeTwice(all: seq<Byte>, n: nat, room: nat, rest: Drained)
    requires n <= room && n <= |all| && rest.out == all[n..][..Min(room - n, |all| - n)]
    ensures After(all[..n], Some(rest)) == Some(Drained(all[..Min(room, |all|)], rest.items))
    ensures all[n..][Min(room - n, |all| - n)..] == all[Min(room, |all|)..]
  {
    assert all[..n] + rest.out == all[..Min(room, |all|)];
  }

  // The loop stays inside the entries exactly for a readable length, and then it returns as many
  // bytes as there are, up to that length, in the order written.
  lemma {:induction false} DrainReadable(items: seq<Item>, room: nat)
    requires WellFormed(items)
    ensures Drain(items, room).Some? <==> Readable(items, room)
    ensures Drain(items, room).Some? ==>
      var d, n := Drain(items, room).value, Min(room, |Contents(items)|);
      && d.out == Contents(items)[..n]
      && WellFormed(d.items) && Contents(d.items) == Contents(items)[n..]
    decreases |items|, room
  {
    hide Contents, WellFormed, Readable, Advance, Drain, After;
    if items == [] || room == 0 {
      DrainEnd(items, room);
    } else {
      var n := Min(room, |items[0].data|);
      CopyReadable(items, room);
      if Readable(items, room) {
        DrainTurn(items, n, room);
        DrainReadable(Advance(items, n), room - n);
        TakeTwice(Contents(items), n, room, Drain(Advance(items, n), room - n).value);
      } else {
        DrainOutside(items, room);
      }
    }
  }

  // ----- whole sessions -----

  datatype Op = Write(bytes: seq<Byte>, memory: bool) | Read(length: nat)

  datatype Stepped = Stepped(outs: seq<seq<Byte>>, items: seq<Item>)

  // One operation: what it returns, if it is a read, and the entries after it.
  function Do(items: seq<Item>, op: Op): Option<Stepped> {
    match op
    case Write(bytes, memory) => Some(Stepped([], if memory then items + [Item(bytes, 0)] else items))
    case Read(length) =>
      match Drain(items, length)
      case None => None
      case Some(d) => Some(Stepped([d.out], d.items))
  }

  // What a session did: the results of its reads, the entries left, and how many operations it
  // took until the end or until a read that leaves its entry.
  datatype Played = Played(outs: seq<seq<Byte>>, items: seq<Item>, done: nat)

  function Play(items: seq<Item>, ops: seq<Op>): Played
    decreases |ops|
  {
    if ops == [] || Do(items, ops[0]).None? then Played([], items, 0)
    else
      var Stepped(outs, next) := Do(items, ops[0]).value;
      Join(outs, 1, Play(next, ops[1..]))
  }

  // A session with something done before it.
  function Join(outs: seq<seq<Byte>>, done: nat, rest: Played): Played {
    Played(outs + rest.outs, rest.items, done + rest.done)
  }

  lemma JoinFront(rest: Played)
    ensures Join([], 0, rest) == rest
  {
    assert [] + rest.outs == rest.outs;
  }

  lemma JoinNothing(outs: seq<seq<Byte>>, done: nat, items: seq<Item>)
    ensures Join(outs, done, Played([], items, 0)) == Played(outs, items, done)
  {
    assert outs + [] == outs;
  }

  lemma JoinJoin(outs: seq<seq<Byte>>, done: nat, more: seq<seq<Byte>>, rest: Played)
    ensures Join(outs, done, Join(more, 1, rest)) == Join(outs + more, done + 1, rest)
  {
    assert outs + (more + rest.outs) == outs + more + rest.outs;
  }

  // The plain byte queue: a read takes as many bytes as there are, up to the length asked for.
  datatype Queue = Queue(outs: seq<seq<Byte>>, contents: seq<Byte>)

  function Serve(contents: seq<Byte>, op: Op): Queue {
    match op
    case Write(bytes, memory) => Queue([], contents + Written([op]))
    case Read(length) => var n := Min(length, |contents|); Queue([contents[..n]], contents[n..])
  }

  function Ideal(contents: seq<Byte>, ops: seq<Op>): Queue
    decreases |ops|
  {
    if ops == [] then Queue([], contents)
    else
      var first := Serve(contents, ops[0]);
      var rest := Ideal(first.contents, ops[1..]);
      Queue(first.outs + rest.outs, rest.contents)
  }

  // Everything that was written.
  function Written(ops: seq<Op>): seq<Byte> {
    if ops == [] then []
    else (if ops[0].Write? && ops[0].memory then ops[0].bytes else []) + Written(ops[1..])
  }

  lemma WrittenOne(op: Op)
    ensures Written([op]) == if op.Write? && op.memory then op.bytes else []
  {
    assert [op][1..] == [];
  }

  lemma ServeConserves(contents: seq<Byte>, op: Op)
    ensures contents + Written([op]) == Flatten(Serve(contents, op).outs) + Serve(contents, op).contents
  {
    if op.Read? {
      var n := Min(op.length, |contents|);
      FlattenSingle(contents[..n]);
      WrittenOne(op);
      assert contents == contents[..n] + contents[n..];
    }
  }

  // Nothing is lost, repeated or reordered in the plain queue.
  lemma {:induction false} IdealConserves(contents: seq<Byte>, ops: seq<Op>)
    ensures var q := Ideal(contents, ops);
            contents + Written(ops) == Flatten(q.outs) + q.contents
    decreases |ops|
  {
    if ops != [] {
      var first := Serve(contents, ops[0]);
      var rest := Ideal(first.contents, ops[1..]);
      ServeConserves(contents, ops[0]);
      IdealConserves(first.contents, ops[1..]);
      FlattenConcat(first.outs, rest.outs);
      WrittenOne(ops[0]);
      hide Written, Flatten, Serve, Ideal;
      Regroup(contents, Written([ops[0]]), Written(ops[1..]), Flatten(first.outs), first.contents,
              Flatten(rest.outs), rest.contents);
    }
  }

  lemma Regroup<T>(a: seq<T>, b: seq<T>, c: seq<T>, d: seq<T>, e: seq<T>, f: seq<T>, g: seq<T>)
    requires a + b == d + e && e + c == f + g
    ensures a + (b + c) == (d + f) + g
  {
    assert a + (b + c) == (a + b) + c;
    assert (d + e) + c == d + (e + c);
    assert d + (f + g) == (d + f) + g;
  }

  // One operation on the entries is that operation on the plain queue, whenever it stays inside.
  lemma DoServes(items: seq<Item>, op: Op)
    requires WellFormed(items)
    ensures Do(items, op).None? <==> op.Read? && !Readable(items, op.length)
    ensures Do(items, op).Some? ==>
      var after := Do(items, op).value;
      WellFormed(after.items) && Serve(Contents(items), op) == Queue(after.outs, Contents(after.items))
  {
    match op
    case Write(bytes, memory) =>
      ContentsAppend(items, Item(bytes, 0));
      WrittenOne(op);
      assert Contents(items) + [] == Contents(items);
    case Read(length) => DrainReadable(items, length);
  }

  // Up to its first read that is not readable, and no further, a session is the plain queue's.
  lemma {:induction false} PlayRefines(items: seq<Item>, ops: seq<Op>)
    requires WellFormed(items)
    ensures var p := Play(items, ops);
            && p.done <= |ops| && WellFormed(p.items)
            && Ideal(Contents(items), ops[..p.done]) == Queue(p.outs, Contents(p.items))
            && (p.done < |ops| ==> ops[p.done].Read? && !Readable(p.items, ops[p.done].length))
    decreases |ops|
  {
    if ops != [] {
      hide Do, Contents, WellFormed, Readable, Serve;
      DoServes(items, ops[0]);
      if Do(items, ops[0]).Some? {
        PlayRefines(Do(items, ops[0]).value.items, ops[1..]);
        var n := Play(items, ops).done;
        assert ops[..n][1..] == ops[1..][..n - 1];
      }
    }
  }

  // The byte queue over any session: what was written is what was read and what is still held.
  lemma Fifo(items: seq<Item>, ops: seq<Op>)
    requires WellFormed(items)
    ensures var p := Play(items, ops);
            && p.done <= |ops| && WellFormed(p.items)
            && Contents(items) + Written(ops[..p.done]) == Flatten(p.outs) + Contents(p.items)
  {
    PlayRefines(items, ops);
    IdealConserves(Contents(items), ops[..Play(items, ops).done]);
  }

  // The state a session has reached before its operation number k.
  lemma {:induction false} PlayAt(items: seq<Item>, ops: seq<Op>, k: nat)
    requires WellFormed(items) && k <= Play(items, ops).done <= |ops|
    ensures var before := Play(items, ops[..k]);
            && before.done == k && WellFormed(before.items)
            && (k == Play(items, ops).done ==> before == Play(items, ops))
            && (k < Play(items, ops).done && ops[k].Read? ==> Readable(before.items, ops[k].length))
    decreases |ops|
  {
    if ops != [] {
      hide Do, Contents, WellFormed, Readable, Serve;
      DoServes(items, ops[0]);
      if k > 0 {
        assert ops[..k][1..] == ops[1..][..k - 1] && ops[..k][0] == ops[0];
        PlayAt(Do(items, ops[0]).value.items, ops[1..], k - 1);
      }
    }
  }

  // Operation number k is a write, or a read that is readable when it is made.
  predicate AllowedAt(items: seq<Item>, ops: seq<Op>, k: nat)
    requires k < |ops|
  {
    var before := Play(items, ops[..k]);
    ops[k].Read? ==> before.done == k && WellFormed(before.items) && Readable(before.items, ops[k].length)
  }

  // A session runs to its end exactly when every read in it is readable when it is made.
  lemma PlaysOut(items: seq<Item>, ops: seq<Op>)
    requires WellFormed(items)
    ensures Play(items, ops).done == |ops| <==> forall k :: 0 <= k < |ops| ==> AllowedAt(items, ops, k)
  {
    PlayRefines(items, ops);
    var p := Play(items, ops);
    forall k | 0 <= k < p.done ensures AllowedAt(items, ops, k) {
      PlayAt(items, ops, k);
    }
    if p.done < |ops| {
      PlayAt(items, ops, p.done);
      assert !AllowedAt(items, ops, p.done);
    }
  }

  // It does happen: a buffer is read in part, and then more is asked for than it has left.
  lemma LeavesEntry(bytes: seq<Byte>, first: nat, second: nat)
    requires 0 < first < |bytes|
    ensures var p := Play([], [Write(bytes, true), Read(first), Read(second)]);
            && p.outs != [] && p.outs[0] == bytes[..first]
            && p.done == if first + second > |bytes| then 2 else 3
  {
    var written, partly := [Item(bytes, 0)], [Item(bytes, first)];
    assert Do([], Write(bytes, true)).value.items == written;
    assert Drain(partly, 0) == Some(Drained([], partly)) && bytes[0..first] + [] == bytes[..first];
    assert Advance(written, first) == partly;
    assert Do(written, Read(first)) == Some(Stepped([bytes[..first]], partly));
    DoServes(partly, Read(second));
    var last := [Read(second)];
    assert last[1..] == [];
    assert Play(partly, last).done == if Do(partly, Read(second)).Some? then 1 else 0;
    var two := [Read(first), Read(second)];
    assert two[1..] == last;
    assert Play(written, two).done == 1 + Play(partly, last).done;
    assert [Write(bytes, true), Read(first), Read(second)][1..] == two;
  }
}
