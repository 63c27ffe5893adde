/**
 Whole sessions: reading until the end as `main` does, with any sequence of buffer sizes, and
 what arrives of what the other side wrote.
 */
module TlsSession {
  import opened Bytes
  import opened Sockets
  import opened TlsRecords
  import opened TlsSocket

  // Reads until a result that is not positive. A read that hands out bytes and then meets a close
  // returns their positive count, so that the next one goes on behind the close.
  method ReadAll(s: TlsSocket, sizes: nat -> nat) returns (out: seq<Byte>, last: int)
    requires s.Valid()
    requires forall i: nat :: sizes(i) > 0
    modifies s, s.incoming, s.sock, s.context
    ensures last <= 0
    // In order: a part of what is owed, or all of it and what is read behind a close.
    ensures out <= old(s.Owed()).plain || (old(s.Owed()).ending == Trailing && old(s.Owed()).plain <= out)
    ensures last == 0 ==> old(s.Owed()).plain <= out
    // Reading fails with the socket, for a fault or a record too long, or behind a close.
    ensures last < 0 ==>
      || s.sock.failed || old(s.Owed()).ending == Faulted || !WithinLimit(old(s.Ahead()))
      || (old(s.Owed()).ending == Trailing && old(s.Owed()).plain <= out)
  {
    hide Decode, WithinLimit, TlsRecords.Owed;
    ghost var owed, limited, past := s.Owed(), WithinLimit(s.Ahead()), false;
    out := [];
    AppendNothing(owed);
    var i := 0;
    while true
      invariant s.Valid()
      invariant if past then owed.ending == Trailing && owed.plain <= out else owed == Append(out, s.Owed())
      invariant !past && limited ==> WithinLimit(s.Ahead())
      decreases |s.Ahead()|, |s.Owed().plain|
    {
      var buffer := new Byte[sizes(i)];
      ghost var before := s.Owed();
      last := s.Read(buffer, buffer.Length);
      if last <= 0 {
        return;
      }
      AppendAssociative(out, buffer[..last], s.Owed());
      out, past := out + buffer[..last], past || !s.synced;
      i := i + 1;
    }
  }

  // Writes the buffers in order until one fails.
  method WriteAll(s: TlsSocket, buffers: seq<seq<Byte>>) returns (result: int)
    requires s.Sizes() && s.sock.outgoing == [] && s.context.recordsSealed == 0
    modifies s.sock`outgoing, s.sock`sendFailed, s.context`recordsSealed, s.context`refused
    ensures result == 0 || (result == -1 && (s.sock.sendFailed || s.context.refused))
    ensures s.sock.outgoing <= EncodeAll(s.context.seal, 0, s.cbMaximumMessage, buffers)
    ensures result == 0 ==> s.sock.outgoing == EncodeAll(s.context.seal, 0, s.cbMaximumMessage, buffers)
  {
    ghost var seal, max := s.context.seal, s.cbMaximumMessage;
    ghost var all := EncodeAll(seal, 0, max, buffers);
    result := 0;
    var left := buffers;
    while |left| > 0
      invariant all == s.sock.outgoing + EncodeAll(seal, s.context.recordsSealed, max, left)
    {
      ghost var before, k := s.sock.outgoing, s.context.recordsSealed;
      ghost var rest := EncodeAll(seal, k + RecordCount(max, |left[0]|), max, left[1..]);
      assert before + (Encode(seal, k, max, left[0]) + rest) == before + Encode(seal, k, max, left[0]) + rest;
      result := s.Write(left[0]);
      if result != 0 {
        return;
      }
      left := left[1..];
    }
  }

  // End to end: a reader gets some part of what WriteAll sends, and reads until the end.
  method ReadWritten(s: TlsSocket, seal: Sealer, header: nat, max: nat, trailer: nat,
                     ghost buffers: seq<seq<Byte>>, sizes: nat -> nat) returns (out: seq<Byte>, last: int)
    requires s.Valid() && !s.closed && s.pending == s.cipher == [] && s.sock.pos == 0
    requires s.context.recordsOpened == 0 && Inverse(seal, s.context.open, max)
    requires max > 0 && header + max + trailer <= RECORD_LIMIT && KeepsSizes(seal, header, max, trailer)
    requires s.sock.wire <= EncodeAll(seal, 0, max, buffers)
    requires forall i: nat :: sizes(i) > 0
    modifies s, s.incoming, s.sock, s.context
    ensures last <= 0
    // Whatever fails: nothing lost, repeated or reordered.
    ensures out <= Flatten(buffers)
    // Everything arrived and reading came to the end: everything was read.
    ensures last == 0 && s.sock.wire == EncodeAll(seal, 0, max, buffers) ==> out == Flatten(buffers)
    // Reading fails only when the socket does.
    ensures last < 0 ==> s.sock.failed
  {
    ghost var all, wire, open := EncodeAll(seal, 0, max, buffers), s.sock.wire, s.context.open;
    DecodeTruncated(seal, open, 0, max, buffers, wire);
    DecodeEncodeAll(seal, open, 0, max, buffers);
    EncodeAllWithinLimit(seal, open, header, max, trailer, 0, buffers);
    assert all == wire + all[|wire|..];
    WithinLimitPrefix(wire, all[|wire|..]);
    AppendNothing(Decode(open, 0, wire));
    assert s.Ahead() == wire;
    out, last := ReadAll(s, sizes);
  }

  // A writer and a reader, from their constructors on: the writer sends the buffers, any part of
  // what it has put on the wire arrives, and the reader reads until the end.
  method Session(seal: Sealer, open: InPlaceOpener, header: nat, max: nat, trailer: nat,
                 buffers: seq<seq<Byte>>, arriving: nat, sizes: nat -> nat)
    returns (written: int, out: seq<Byte>, last: int, writer: TlsSocket, reader: TlsSocket)
    requires Inverse(seal, open, max) && KeepsSizes(seal, header, max, trailer)
    requires max > 0 && header + max + trailer <= RECORD_LIMIT
    requires forall i: nat :: sizes(i) > 0
    ensures written == 0 || (written == -1 && (writer.sock.sendFailed || writer.context.refused))
    ensures last == 0 || (last < 0 && reader.sock.failed)
    ensures out <= Flatten(buffers)
    ensures written == last == 0 && arriving >= |writer.sock.outgoing| ==> out == Flatten(buffers)
  {
    var sock := new Socket([]);
    var context := new SecurityContext(open, seal);
    writer := new TlsSocket(sock, context, header, max, trailer);
    written := WriteAll(writer, buffers);
    var sent := writer.sock.outgoing;
    var wire := sent[..Min(arriving, |sent|)];
    sock := new Socket(wire);
    context := new SecurityContext(open, seal);
    reader := new TlsSocket(sock, context, header, max, trailer);
    out, last := ReadWritten(reader, seal, header, max, trailer, buffers, sizes);
  }
}
