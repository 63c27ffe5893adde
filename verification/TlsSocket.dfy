/**
 The TLS socket of SecureSocket: `tls_write` and `tls_read` over an in-place decryption
 window. The security context is a class whose methods choose among all results that their
 contracts allow.
 */
module TlsSocket {
  import opened Bytes
  import opened Memory
  import opened Sockets
  import opened TlsRecords

  // How a step without plaintext at hand ends: go round the loop again, return what has been
  // copied, or return a negative value.
  datatype Progress = Again | Stop | Fail

  datatype Status = Ok | Incomplete | Expired | Renegotiate | Failed

  // A schannel context: the two directions count their records.
  class SecurityContext {
    const open: InPlaceOpener
    const seal: Sealer
    var recordsOpened: nat
    var recordsSealed: nat
    var refused: bool   // the last EncryptMessage reported an error

    constructor (open: InPlaceOpener, seal: Sealer)
      ensures this.open == open && this.seal == seal && recordsOpened == 0 && recordsSealed == 0 && !refused
    {
      this.open, this.seal, recordsOpened, recordsSealed, refused := open, seal, 0, 0, false;
    }

    // DecryptMessage on buf[..n]: acts on the first complete record and reports how many bytes
    // follow it. Inside that record only the decrypted data is known; what follows is untouched.
    method DecryptMessage(buf: array<Byte>, n: nat)
      returns (status: Status, data: nat, size: nat, extra: Option<nat>)
      requires n <= buf.Length
      modifies `recordsOpened, buf
      ensures !Complete(old(buf[..n])) <==> status == Incomplete
      // Complete: the header is there, and as many bytes as it announces, the higher byte first.
      ensures status != Incomplete <==>
        n >= 5 && n >= 5 + 256 * old(buf[..n])[3] as nat + old(buf[..n])[4] as nat
      ensures status == Incomplete ==> buf[..] == old(buf[..]) && recordsOpened == old(recordsOpened)
      ensures status != Incomplete ==>
        var record := old(buf[..n])[..RecordLength(old(buf[..n]))];
        && recordsOpened == old(recordsOpened) + 1
        && buf[|record|..n] == old(buf[..n])[|record|..]
        && extra == (if |record| < n then Some(n - |record|) else None)
        && match open(old(recordsOpened), record)
           case Data(offset, plain) =>
             status == Ok && data == offset && data + size <= |record| && buf[data..data + size] == plain
           case Ticket => status == Renegotiate
           case CloseNotify => status == Expired
           case Fault => status == Failed
    {
      data, size, extra := 0, 0, None;
      var input := buf[..n];
      assert Complete(input) <==> n >= 5 && n >= 5 + 256 * input[3] as nat + input[4] as nat;
      if !Complete(input) {
        return Incomplete, data, size, extra;
      }
      var length := RecordLength(input);
      var outcome := open(recordsOpened, input[..length]);
      recordsOpened := recordsOpened + 1;
      extra := if length < n then Some(n - length) else None;
      match outcome
      case Data(offset, plain) =>
        assert outcome == open(old(recordsOpened), input[..length]);
        Store(buf, offset, plain);
        status, data, size := Ok, offset, |plain|;
      case Ticket => status := Renegotiate;
      case CloseNotify => status := Expired;
      case Fault => status := Failed;
    }

    // EncryptMessage on a record laid out as header, data, trailer: the three sizes it reports
    // cover the sealed record, the header and data sizes unchanged.
    method EncryptMessage(w: array<Byte>, header: nat, use: nat, trailer: nat)
      returns (ok: bool, trailerUsed: nat)
      requires header + use + trailer <= w.Length
      requires KeepsSizes(seal, header, use, trailer)
      modifies `recordsSealed, `refused, w
      ensures refused == !ok
      ensures ok ==> recordsSealed == old(recordsSealed) + 1 && trailerUsed <= trailer
      ensures ok ==> w[..header + use + trailerUsed] == seal(old(recordsSealed), old(w[header..header + use]))
      ensures !ok ==> recordsSealed == old(recordsSealed)
    {
      ok, trailerUsed := *, 0;
      refused := !ok;
      if ok {
        var record := seal(recordsSealed, w[header..header + use]);
        Store(w, 0, record);
        recordsSealed, trailerUsed := recordsSealed + 1, |record| - header - use;
      }
    }
  }

  class TlsSocket {
    const sock: Socket
    const context: SecurityContext
    const cbHeader: nat
    const cbMaximumMessage: nat
    const cbTrailer: nat
    const incoming: array<Byte>
    var received: nat           // byte count in incoming (ciphertext)
    var used: nat               // bytes of incoming the current record took
    var available: nat          // decrypted bytes not yet handed out
    var decrypted: Option<nat>  // where in incoming they start

    ghost var pending: seq<Byte>  // plaintext decrypted in place and not yet handed out
    ghost var cipher: seq<Byte>   // ciphertext in incoming not yet decrypted
    ghost var closed: bool        // the peer has closed the connection and sends nothing after that
    ghost var synced: bool        // the current read has met no fault, and no close with bytes behind it

    constructor (sock: Socket, context: SecurityContext, cbHeader: nat, cbMaximumMessage: nat, cbTrailer: nat)
      requires sock.Valid() && cbMaximumMessage > 0
      ensures this.sock == sock && this.context == context && fresh(incoming)
      ensures this.cbHeader == cbHeader && this.cbMaximumMessage == cbMaximumMessage && this.cbTrailer == cbTrailer
      ensures Valid() && synced && !closed && pending == cipher == [] && Buffered() == []
      ensures incoming.Length == 16384 + 512
      ensures Owed() == Decode(context.open, context.recordsOpened, sock.Rest())
    {
      this.sock, this.context := sock, context;
      this.cbHeader, this.cbMaximumMessage, this.cbTrailer := cbHeader, cbMaximumMessage, cbTrailer;
      incoming := new Byte[PACKET_SIZE];
      received, used, available, decrypted := 0, 0, 0, None;
      pending, cipher, synced, closed := [], [], true, false;
      new;
      assert cipher + sock.Rest() == sock.Rest();
    }

    // The window: decrypted bytes inside the current record, then undecrypted ciphertext up to
    // `received`; without decrypted bytes all of it is ciphertext, and `used` may be stale.
    ghost predicate Window()
      reads this, incoming
    {
      && received <= incoming.Length
      && match decrypted
         case Some(at) =>
           && at + available <= used <= received && used > 0
           && pending == incoming[at..at + available] && cipher == incoming[used..received]
         case None =>
           available == 0 && pending == [] && cipher == incoming[..received]
    }

    ghost predicate Valid()
      reads this, incoming, sock
    {
      && sock.Valid() && cbMaximumMessage > 0 && incoming.Length == PACKET_SIZE && Window()
      && (closed ==> decrypted.None? && cipher == [] && sock.Rest() == [])
    }

    // All ciphertext still to be decrypted: in the window and on the network.
    ghost function Ahead(): seq<Byte>
      requires sock.Valid()
      reads this, sock
    {
      cipher + sock.Rest()
    }

    // What the rest of the connection means: the plaintext owed to the reader and how it ends.
    ghost function Owed(): Decoded
      requires sock.Valid()
      reads this, sock, context
    {
      if closed then Decoded([], Closed)
      else TlsRecords.Owed(context.open, context.recordsOpened, pending, cipher, sock.Rest())
    }

    // The plaintext that can be handed out without receiving anything more.
    ghost function Buffered(): seq<Byte>
      reads this, context
    {
      TlsRecords.Buffered(context.open, context.recordsOpened, pending, cipher)
    }

    // The window is full of a record that does not fit it.
    ghost predicate Oversized()
      reads this
    {
      received == PACKET_SIZE == |cipher| && RecordLength(cipher) > PACKET_SIZE
    }

    // A recv has failed since there had been that many.
    ghost predicate RecvFailed(recvs: nat)
      reads sock
    {
      sock.recvs > recvs && sock.failed
    }

    // Removes the ciphertext of the current record, so that the next one starts at the front.
    method DropRecord()
      requires used <= received <= incoming.Length
      modifies `received, incoming
      ensures received == old(received) - used
      ensures incoming[..received] == old(incoming[used..received])
    {
      MoveToFront(incoming, used, received - used);
      received := received - used;
    }

    // Copies pending plaintext out; once it is used up, moves the ciphertext to the front.
    method CopyOut(buffer: array<Byte>, at: nat, size: nat) returns (use: nat)
      requires Window() && decrypted.Some? && at + size <= buffer.Length && buffer != incoming
      modifies `received, `used, `available, `decrypted, `pending, incoming, buffer
      ensures Window() && use == Min(size, |old(pending)|)
      ensures buffer[..at + use] == old(buffer[..at]) + old(pending)[..use]
      ensures pending == old(pending)[use..]
      ensures received < old(received) || (received == old(received) && decrypted.Some? && use == size)
    {
      var from := decrypted.value;
      use := Min(size, available);
      CopyMemory(buffer, at, incoming, from, use);
      if use == available {
        DropRecord();
        used, available, decrypted := 0, 0, None;
      } else {
        available := available - use;
        decrypted := Some(from + use);
      }
      pending := pending[use..];
    }

    // The same step: what is handed out is taken from the meaning of the connection.
    method HandOut(buffer: array<Byte>, at: nat, size: nat) returns (use: nat)
      requires Valid() && decrypted.Some? && at + size <= buffer.Length && buffer != incoming && size > 0
      modifies `received, `used, `available, `decrypted, `pending, incoming, buffer
      ensures Valid() && use <= size && use <= |old(pending)|
      ensures old(Owed()) == Append(old(pending)[..use], Owed())
      ensures old(Buffered()) == old(pending)[..use] + Buffered()
      ensures buffer[..at + use] == old(buffer[..at]) + old(pending)[..use]
      ensures received < old(received) || (received == old(received) && decrypted.Some? && use > 0)
    {
      HandOutKeeps(context.open, context.recordsOpened, pending, Min(size, |pending|), cipher, sock.Rest());
      use := CopyOut(buffer, at, size);
    }

    // Decrypts the first record of the window, if it is complete: what happens to the window.
    method OpenRecord() returns (status: Status)
      requires Window() && decrypted.None? && received != 0
      modifies `received, `used, `available, `decrypted, `pending, `cipher, incoming, context
      ensures Window() && |cipher| <= |old(cipher)|
      ensures !Complete(old(cipher)) <==> status == Incomplete
      ensures status == Incomplete ==>
        decrypted.None? && cipher == old(cipher) && received == old(received) && context.recordsOpened == old(context.recordsOpened)
      ensures status != Incomplete ==>
        var n := RecordLength(old(cipher));
        && context.recordsOpened == old(context.recordsOpened) + 1
        && match context.open(old(context.recordsOpened), old(cipher)[..n])
           case Data(_, plain) =>
             status == Ok && decrypted.Some? && received == old(received) && pending == plain && cipher == old(cipher)[n..]
           case Ticket =>
             status == Renegotiate && decrypted.None? && received < old(received) && cipher == old(cipher)[n..]
           case CloseNotify => status == Expired && decrypted.None? && cipher == []
           case Fault => status == Failed
    {
      var data, size, extra;
      status, data, size, extra := context.DecryptMessage(incoming, received);
      if status != Incomplete {
        var consumed := received - (if extra.Some? then extra.value else 0);
        if status == Ok {
          decrypted, available, used := Some(data), size, consumed;
          pending := incoming[data..data + size];
          cipher := incoming[used..received];
        } else if status == Expired {
          received := 0;
          cipher := [];
        } else if status == Renegotiate {
          used := consumed;
          DropRecord();
          cipher := incoming[..received];
        } else {
          cipher := incoming[..received];
        }
      }
    }

    // The same step: what it does to the meaning of the connection.
    method DecryptNext() returns (status: Status)
      requires Valid() && decrypted.None? && received != 0
      modifies `received, `used, `available, `decrypted, `pending, `cipher, incoming, context
      ensures Valid() && !closed && |cipher| <= |old(cipher)|
      ensures status == Incomplete <==> !Complete(old(cipher))
      ensures status == Incomplete ==> decrypted.None? && received == old(received) && cipher == old(cipher)
      ensures status == Ok ==> decrypted.Some? && received == old(received)
      ensures status == Renegotiate ==> decrypted.None? && received < old(received)
      ensures status in {Incomplete, Ok, Renegotiate} ==> Owed() == old(Owed()) && Buffered() == old(Buffered())
      ensures status in {Incomplete, Ok, Renegotiate} ==> WithinLimit(old(Ahead())) ==> WithinLimit(Ahead())
      ensures status == Expired ==> cipher == [] != old(cipher) && decrypted.None? && old(Owed()).plain == []
      ensures status == Expired ==> old(Owed()).ending == Trailing || (old(Owed()).ending == Closed && sock.Rest() == [])
      ensures status == Failed ==> old(Owed()) == Decoded([], Faulted)
      ensures status in {Expired, Failed} ==> old(Buffered()) == []
    {
      if Complete(cipher) {
        DecryptKeeps(context.open, context.recordsOpened, cipher, sock.Rest());
      }
      hide Decode, WithinLimit, Follow, Append, Complete, RecordLength, TlsRecords.Owed, TlsRecords.Buffered;
      status := OpenRecord();
    }

    // Waits for more ciphertext.
    method Receive() returns (r: int)
      requires Valid() && decrypted.None? && received < PACKET_SIZE
      modifies `received, `cipher, incoming, sock
      ensures Valid() && sock.recvs == old(sock.recvs) + 1
      ensures Owed() == old(Owed()) && Ahead() == old(Ahead())
      ensures r > 0 ==> sock.pos == old(sock.pos) + r
      ensures r == 0 ==> sock.Rest() == [] && cipher == old(cipher)
      ensures r < 0 ==> sock.failed
    {
      ghost var rest := sock.Rest();
      r := sock.Recv(incoming, received, PACKET_SIZE - received);
      if r > 0 {
        received := received + r;
        ghost var more := sock.wire[old(sock.pos)..sock.pos];
        assert rest == more + sock.Rest();
        ReceiveKeeps(context.open, context.recordsOpened, cipher, more, sock.Rest());
        cipher := cipher + more;
      }
    }

    // The branch of tls_read without plaintext at hand: decrypt, or receive if nothing was copied.
    method Refill(copied: bool) returns (progress: Progress)
      requires Valid() && decrypted.None? && synced
      modifies this, incoming, sock, context
      ensures Valid() && (synced ==> Owed() == old(Owed()))
      ensures synced && WithinLimit(old(Ahead())) ==> WithinLimit(Ahead())
      ensures |Ahead()| <= |old(Ahead())| && (!synced && progress == Stop ==> |Ahead()| < |old(Ahead())|)
      ensures sock.recvs >= old(sock.recvs)
      ensures sock.recvs != old(sock.recvs) ==> !copied && old(Buffered()) == []
      ensures progress == Again ==> synced && (sock.recvs == old(sock.recvs) ==> Buffered() == old(Buffered()))
      ensures progress == Again ==>
        || sock.pos > old(sock.pos)
        || (sock.pos == old(sock.pos) && received < old(received))
        || (sock.pos == old(sock.pos) && received == old(received) && decrypted.Some?)
      ensures progress != Again ==> old(Buffered()) == []
      ensures progress == Stop ==> Buffered() == []
      ensures progress == Stop ==>
        if synced then copied || Owed().plain == [] else old(Owed()) == Decoded([], Trailing)
      ensures progress == Fail ==>
        if synced then !copied && (RecvFailed(old(sock.recvs)) || (Oversized() && !WithinLimit(Ahead()))) else old(Owed()) == Decoded([], Faulted)
    {
      hide Decode, WithinLimit, Follow, Append, Complete, RecordLength, TlsRecords.Owed, TlsRecords.Buffered;
      ghost var owed := Owed();
      if received != 0 {
        var status := DecryptNext();
        if status == Ok || status == Renegotiate {
          return Again;
        } else if status == Expired {
          NothingLeft(context.open, context.recordsOpened, cipher);
          closed := owed.ending == Closed;
          synced := closed;
          assert closed ==> Ahead() == [];
          return Stop;
        } else if status == Failed {
          synced := false;
          return Fail;
        }
      }
      NothingLeft(context.open, context.recordsOpened, cipher);
      if copied {
        return Stop;
      }
      if received == PACKET_SIZE {
        FullWindow(cipher, sock.Rest());
        return Fail;
      }
      var r := Receive();
      progress := if r == 0 then Stop else if r < 0 then Fail else Again;
    }

    // What is left of the connection's meaning after a step that ended with `progress`.
    ghost function Left(progress: Progress): Decoded
      requires sock.Valid()
      reads this, sock, context
    {
      if synced then Owed() else Decoded([], if progress == Fail then Faulted else Trailing)
    }

    // One turn of the loop of tls_read; `part` is what it copies to the buffer.
    method Turn(buffer: array<Byte>, at: nat, size: nat) returns (use: nat, progress: Progress, ghost part: seq<Byte>)
      requires Valid() && synced && at < size <= buffer.Length && buffer != incoming
      modifies this, incoming, sock, context, buffer
      ensures Valid() && use == |part| <= size - at && buffer[..at + use] == old(buffer[..at]) + part
      ensures old(Owed()) == Append(part, Left(progress))
      ensures synced && WithinLimit(old(Ahead())) ==> WithinLimit(Ahead())
      ensures |Ahead()| <= |old(Ahead())| && (!synced && progress == Stop ==> |Ahead()| < |old(Ahead())|)
      ensures sock.recvs == old(sock.recvs) || (sock.recvs > old(sock.recvs) && at == 0 && old(Buffered()) == [])
      ensures sock.recvs == old(sock.recvs) && progress != Fail ==> old(Buffered()) == part + Buffered()
      ensures progress == Again ==> synced
      ensures progress == Again ==>
        (|sock.wire| - old(sock.pos), old(received), old(decrypted.None?), size - at
         decreases to |sock.wire| - sock.pos, received, decrypted.None?, size - at - use)
      ensures progress == Stop ==> part == [] && Buffered() == [] && (synced && at == 0 ==> Owed().plain == [])
      ensures progress == Fail ==> part == []
      ensures progress == Fail && synced ==> at == 0 && (RecvFailed(old(sock.recvs)) || (Oversized() && !WithinLimit(Ahead())))
    {
      hide Decode, WithinLimit, Follow, Append, TlsRecords.Owed, TlsRecords.Buffered;
      AppendNothing(Owed());
      AppendEnding([], Trailing);
      AppendEnding([], Faulted);
      if decrypted.Some? {
        part, progress := pending, Again;
        use := HandOut(buffer, at, size - at);
        part := part[..use];
      } else {
        use, part := 0, [];
        progress := Refill(at != 0);
      }
    }

    // The loop of tls_read, and how it was left: with the buffer full, to return, or to fail.
    method Fill(buffer: array<Byte>, size: nat) returns (result: nat, progress: Progress)
      requires Valid() && synced && size <= buffer.Length && buffer != incoming
      modifies this, incoming, sock, context, buffer
      ensures Valid() && result <= size
      ensures old(Owed()) == Append(buffer[..result], Left(progress))
      ensures synced && WithinLimit(old(Ahead())) ==> WithinLimit(Ahead())
      ensures |Ahead()| <= |old(Ahead())| && (!synced && progress == Stop ==> |Ahead()| < |old(Ahead())|)
      ensures sock.recvs != old(sock.recvs) ==> old(Buffered()) == []
      ensures sock.recvs == old(sock.recvs) && progress != Fail ==> old(Buffered()) == buffer[..result] + Buffered()
      ensures progress == Again ==> synced && result == size
      ensures progress == Stop ==> Buffered() == [] && (synced && result == 0 ==> Owed().plain == [])
      ensures progress == Fail ==> result < size && (synced ==> result == 0)
      ensures progress == Fail && synced ==> RecvFailed(old(sock.recvs)) || (Oversized() && !WithinLimit(Ahead()))
    {
      hide Decode, WithinLimit, Follow, Append, Complete, RecordLength, TlsRecords.Owed, TlsRecords.Buffered;
      hide Window, Oversized;
      result, progress := 0, Again;
      ghost var out: seq<Byte> := [];
      ghost var owed, buffered, recvs, limited := Owed(), Buffered(), sock.recvs, WithinLimit(Ahead());
      ghost var ahead := |Ahead()|;
      AppendNothing(owed);
      while result != size && progress == Again
        invariant Valid() && result <= size && out == buffer[..result]
        invariant owed == Append(out, Left(progress))
        invariant synced && limited ==> WithinLimit(Ahead())
        invariant |Ahead()| <= ahead && (!synced && progress == Stop ==> |Ahead()| < ahead)
        invariant sock.recvs >= recvs
        invariant sock.recvs != recvs ==> buffered == []
        invariant sock.recvs == recvs && progress != Fail ==> buffered == out + Buffered()
        invariant progress == Again ==> synced
        invariant progress == Stop ==> Buffered() == [] && (synced && result == 0 ==> Owed().plain == [])
        invariant progress == Fail ==> result < size && (synced ==> result == 0)
        invariant progress == Fail && synced ==> RecvFailed(recvs) || (Oversized() && !WithinLimit(Ahead()))
        decreases progress == Again, |sock.wire| - sock.pos, received, decrypted.None?, size - result
      {
        ghost var part;
        var use;
        use, progress, part := Turn(buffer, result, size);
        AppendAssociative(out, part, Left(progress));
        out := out + part;
        result := result + use;
      }
    }

    // tls_read: up to size bytes, 0 at the end of the connection, negative on error.
    method Read(buffer: array<Byte>, size: nat) returns (result: int)
      requires Valid() && size <= buffer.Length && buffer != incoming
      modifies this, incoming, sock, context, buffer
      ensures Valid() && result <= size
      // Conservation: what is handed out and what is still owed is what was owed before.
      ensures result >= 0 ==>
        old(Owed()) == (if synced then Append(buffer[..result], Owed()) else Decoded(buffer[..result], Trailing))
      // A close with bytes behind it is passed over, and so are the bytes of it in the window.
      ensures |Ahead()| <= |old(Ahead())| && (result >= 0 && !synced ==> |Ahead()| < |old(Ahead())|)
      // 0 for a non-empty buffer means that no plaintext is left.
      ensures result == 0 < size ==> old(Owed()).plain == []
      // Less than asked for only when nothing decryptable is left in the window.
      ensures 0 < result < size ==> Buffered() == []
      // No blocking while plaintext is at hand, and all of it is used.
      ensures size > 0 && old(Buffered()) != [] ==>
        sock.recvs == old(sock.recvs) && (result >= 0 ==> result == Min(size, |old(Buffered())|))
      // The three ways to fail; the first two lose nothing.
      ensures result < 0 ==>
        || (synced && Owed() == old(Owed()) && RecvFailed(old(sock.recvs)))
        || (synced && Owed() == old(Owed()) && received == |cipher| == 16384 + 512 && !WithinLimit(Ahead()))
        || (!synced && old(Owed()).ending == Faulted && |old(Owed()).plain| < size)
      ensures synced && WithinLimit(old(Ahead())) ==> WithinLimit(Ahead())
    {
      synced := true;
      var progress;
      result, progress := Fill(buffer, size);
      if progress == Fail {
        result := -1;
      }
    }

    // Sends w[..total]; on failure some prefix of it has been sent.
    method SendAll(w: array<Byte>, total: nat) returns (ok: bool)
      requires total <= w.Length
      modifies sock`outgoing, sock`sendFailed
      ensures old(sock.outgoing) <= sock.outgoing <= old(sock.outgoing) + w[..total]
      ensures ok ==> sock.outgoing == old(sock.outgoing) + w[..total]
      ensures !ok ==> sock.sendFailed
    {
      var sent := 0;
      while sent != total
        invariant sent <= total && sock.outgoing == old(sock.outgoing) + w[..sent]
      {
        var d := sock.Send(w, sent, total - sent);
        if d <= 0 {
          return false;
        }
        sent := sent + d;
      }
      return true;
    }

    // The assertion of tls_write on the stream sizes, and the sealed records keeping to them.
    ghost predicate Sizes()
      reads {}
    {
      && cbMaximumMessage > 0
      && cbHeader + cbMaximumMessage + cbTrailer <= PACKET_SIZE
      && KeepsSizes(context.seal, cbHeader, cbMaximumMessage, cbTrailer)
    }

    // One turn of the loop of tls_write: seals `plain` into a record and sends it.
    method WriteRecord(plain: seq<Byte>) returns (ok: bool)
      requires Sizes() && |plain| <= cbMaximumMessage
      modifies sock`outgoing, sock`sendFailed, context`recordsSealed, context`refused
      ensures var record := context.seal(old(context.recordsSealed), plain);
              && old(sock.outgoing) <= sock.outgoing <= old(sock.outgoing) + record
              && (ok ==>
                    && sock.outgoing == old(sock.outgoing) + record
                    && context.recordsSealed == old(context.recordsSealed) + 1)
      ensures !ok ==> sock.sendFailed || context.refused
    {
      var wbuffer := new Byte[PACKET_SIZE];
      Store(wbuffer, cbHeader, plain);
      assert wbuffer[cbHeader..cbHeader + |plain|] == plain;
      var trailer;
      ok, trailer := context.EncryptMessage(wbuffer, cbHeader, |plain|, cbTrailer);
      if ok {
        ok := SendAll(wbuffer, cbHeader + |plain| + trailer);
      }
    }

    // tls_write: 0 on success, negative on error.
    method Write(buffer: seq<Byte>) returns (result: int)
      requires Sizes()
      modifies sock`outgoing, sock`sendFailed, context`recordsSealed, context`refused
      ensures result == 0 || (result == -1 && (sock.sendFailed || context.refused))
      ensures var records := Encode(context.seal, old(context.recordsSealed), cbMaximumMessage, buffer);
              && old(sock.outgoing) <= sock.outgoing <= old(sock.outgoing) + records
              && (result == 0 ==>
                    && sock.outgoing == old(sock.outgoing) + records
                    && context.recordsSealed == old(context.recordsSealed) + RecordCount(cbMaximumMessage, |buffer|))
      // No more records than it takes: all but the last one are full.
      ensures result == 0 ==>
        var n := context.recordsSealed - old(context.recordsSealed);
        (n - 1) * cbMaximumMessage < |buffer| <= n * cbMaximumMessage || n == |buffer| == 0
    {
      RecordCountCeiling(cbMaximumMessage, |buffer|);
      var left := buffer;
      ghost var k, max := context.recordsSealed, cbMaximumMessage;
      ghost var start, all := sock.outgoing, Encode(context.seal, k, max, buffer);
      while |left| != 0
        invariant old(sock.outgoing) <= sock.outgoing
        invariant start + all == sock.outgoing + Encode(context.seal, context.recordsSealed, max, left)
        invariant k + RecordCount(max, |buffer|) == context.recordsSealed + RecordCount(max, |left|)
      {
        var use := Min(|left|, cbMaximumMessage);
        ghost var rest := Encode(context.seal, context.recordsSealed + 1, max, left[use..]);
        ghost var before, record := sock.outgoing, context.seal(context.recordsSealed, left[..use]);
        assert before + (record + rest) == before + record + rest;
        var ok := WriteRecord(left[..use]);
        if !ok {
          return -1;
        }
        left := left[use..];
      }
      return 0;
    }
  }
}
