/**
 The record stream under the TLS socket: how a byte stream is cut into records, what
 plaintext it denotes for a given decryption function, and how a buffer is cut into records
 by the writing side.

 Encryption is a parameter. An `Opener` says what one complete record with a given sequence
 number decrypts to; a `Sealer` gives the record for a plaintext.
 */
module TlsRecords {
  import opened Bytes

  // Size of the `incoming` array and of the record buffer of the writer.
  const PACKET_SIZE: nat := 16384 + 512

  // type, legacy version and length: section 5.2 of RFC 8446.
  const RECORD_HEADER: nat := 5

  // The longest record section 5.2 of RFC 8446 allows, header included.
  const RECORD_LIMIT: nat := RECORD_HEADER + 16384 + 256

  // What decrypting one complete record yields.
  datatype Opened =
    | Data(offset: nat, plain: seq<Byte>)  // application data, decrypted in place at offset
    | Ticket                               // a TLS 1.3 post-handshake message
    | CloseNotify                          // the peer closed the TLS connection
    | Fault                                // any other status

  type Opener = (nat, seq<Byte>) -> Opened
  type Sealer = (nat, seq<Byte>) -> seq<Byte>

  // How a stream stops: in the middle of a record (or at its end), at a close behind which there
  // is nothing, at a close with bytes behind it, at a fault.
  datatype Ending = Unfinished | Closed | Trailing | Faulted

  datatype Decoded = Decoded(plain: seq<Byte>, ending: Ending)

  // Plaintext in front of what a stream denotes.
  function Append(plain: seq<Byte>, rest: Decoded): Decoded {
    Decoded(plain + rest.plain, rest.ending)
  }

  lemma AppendNothing(rest: Decoded)
    ensures Append([], rest) == rest
  {
  }

  lemma AppendEnding(plain: seq<Byte>, ending: Ending)
    ensures Append(plain, Decoded([], ending)) == Decoded(plain, ending)
  {
  }

  lemma AppendAssociative(a: seq<Byte>, b: seq<Byte>, rest: Decoded)
    ensures Append(a, Append(b, rest)) == Append(a + b, rest)
  {
    assert a + (b + rest.plain) == (a + b) + rest.plain;
  }

  function RecordLength(wire: seq<Byte>): nat
    requires |wire| >= RECORD_HEADER
  {
    RECORD_HEADER + wire[3] as nat * 256 + wire[4] as nat
  }

  predicate Complete(wire: seq<Byte>) {
    |wire| >= RECORD_HEADER && |wire| >= RecordLength(wire)
  }

  // What a stream means whose first record decrypts to `first`; `last` if nothing follows it.
  function Follow(first: Opened, last: bool, rest: Decoded): Decoded {
    match first
    case Data(_, plain) => Append(plain, rest)
    case Ticket => rest
    case CloseNotify => Decoded([], if last then Closed else Trailing)
    case Fault => Decoded([], Faulted)
  }

  // What the byte stream `wire`, whose first record has number k, means.
  function Decode(open: Opener, k: nat, wire: seq<Byte>): Decoded
    decreases |wire|
  {
    if !Complete(wire) then Decoded([], Unfinished)
    else
      var n := RecordLength(wire);
      Follow(open(k, wire[..n]), n == |wire|, Decode(open, k + 1, wire[n..]))
  }

  // The decrypted bytes of a record lie inside that record.
  ghost predicate InPlace(open: Opener) {
    forall k: nat, record: seq<Byte> :: open(k, record).Data? ==>
      open(k, record).offset + |open(k, record).plain| <= |record|
  }

  type InPlaceOpener = open: Opener | InPlace(open) ghost witness (k, record) => Ticket

  // Every record in the stream, also a last incomplete one, obeys the limit.
  predicate WithinLimit(wire: seq<Byte>)
    decreases |wire|
  {
    |wire| < RECORD_HEADER ||
    (RecordLength(wire) <= RECORD_LIMIT &&
     (Complete(wire) ==> WithinLimit(wire[RecordLength(wire)..])))
  }

  // A stream of records obeys the limit exactly when none of them announces more than 16640 bytes,
  // in the fourth and fifth byte of its header, the higher one first.
  lemma {:induction false} WithinLimitRecords(records: seq<seq<Byte>>)
    requires forall i :: 0 <= i < |records| ==>
      |records[i]| >= 5 && |records[i]| == 5 + 256 * records[i][3] as nat + records[i][4] as nat
    ensures WithinLimit(Flatten(records)) <==>
      forall i :: 0 <= i < |records| ==> 256 * records[i][3] as nat + records[i][4] as nat <= 16384 + 256
    decreases |records|
  {
    if records != [] {
      WithinLimitRecords(records[1..]);
      var first, rest := records[0], Flatten(records[1..]);
      FirstRecord(first, rest);
      assert first[|first|..] + rest == rest;
      assert forall i :: 0 < i < |records| ==> records[i] == records[1..][i - 1];
    }
  }

  // The first record of a stream does not depend on what follows it.
  lemma FirstRecord(cipher: seq<Byte>, rest: seq<Byte>)
    requires Complete(cipher)
    ensures Complete(cipher + rest) && RecordLength(cipher + rest) == RecordLength(cipher)
    ensures var n := RecordLength(cipher);
            (cipher + rest)[..n] == cipher[..n] && (cipher + rest)[n..] == cipher[n..] + rest
  {
  }

  // The rest of a connection: plaintext already decrypted, ciphertext received, bytes to come.
  function Owed(open: Opener, k: nat, pending: seq<Byte>, cipher: seq<Byte>, rest: seq<Byte>): Decoded {
    Append(pending, Decode(open, k, cipher + rest))
  }

  // The plaintext that needs no further byte.
  function Buffered(open: Opener, k: nat, pending: seq<Byte>, cipher: seq<Byte>): seq<Byte> {
    pending + Decode(open, k, cipher).plain
  }

  // Handing plaintext out takes it from the front of both meanings.
  lemma HandOutKeeps(open: Opener, k: nat, pending: seq<Byte>, use: nat, cipher: seq<Byte>, rest: seq<Byte>)
    requires use <= |pending|
    ensures Owed(open, k, pending, cipher, rest) == Append(pending[..use], Owed(open, k, pending[use..], cipher, rest))
    ensures Buffered(open, k, pending, cipher) == pending[..use] + Buffered(open, k, pending[use..], cipher)
  {
    assert pending == pending[..use] + pending[use..];
    AppendAssociative(pending[..use], pending[use..], Decode(open, k, cipher + rest));
  }

  // Received bytes move from the network to the window.
  lemma ReceiveKeeps(open: Opener, k: nat, cipher: seq<Byte>, more: seq<Byte>, rest: seq<Byte>)
    ensures Owed(open, k, [], cipher + more, rest) == Owed(open, k, [], cipher, more + rest)
    ensures cipher + more + rest == cipher + (more + rest)
  {
    assert cipher + more + rest == cipher + (more + rest);
  }

  // An incomplete record: nothing to hand out, and nothing owed if nothing more is to come.
  lemma NothingLeft(open: Opener, k: nat, cipher: seq<Byte>)
    requires cipher == [] || !Complete(cipher)
    ensures WithinLimit([])
    ensures Buffered(open, k, [], cipher) == []
    ensures Owed(open, k, [], cipher, []) == Decoded([], Unfinished)
  {
    assert cipher + [] == cipher;
  }

  // A window filled by one incomplete record means that the record breaks the limit.
  lemma FullWindow(cipher: seq<Byte>, rest: seq<Byte>)
    requires !Complete(cipher) && |cipher| == PACKET_SIZE
    ensures RecordLength(cipher) > PACKET_SIZE && |cipher| == 16896
    ensures !WithinLimit(cipher + rest)
  {
    assert (cipher + rest)[3] == cipher[3] && (cipher + rest)[4] == cipher[4];
  }

  // Decrypting the first record in the window keeps both meanings.
  lemma DecryptKeeps(open: Opener, k: nat, cipher: seq<Byte>, rest: seq<Byte>)
    requires Complete(cipher)
    ensures var n := RecordLength(cipher);
            && (WithinLimit(cipher + rest) ==> WithinLimit(cipher[n..] + rest))
            && match open(k, cipher[..n])
               case Data(_, plain) =>
                 && Owed(open, k, [], cipher, rest) == Owed(open, k + 1, plain, cipher[n..], rest)
                 && Buffered(open, k, [], cipher) == Buffered(open, k + 1, plain, cipher[n..])
               case Ticket =>
                 && Owed(open, k, [], cipher, rest) == Owed(open, k + 1, [], cipher[n..], rest)
                 && Buffered(open, k, [], cipher) == Buffered(open, k + 1, [], cipher[n..])
               case CloseNotify =>
                 && Owed(open, k, [], cipher, rest) == Decoded([], if cipher[n..] + rest == [] then Closed else Trailing)
                 && Buffered(open, k, [], cipher) == []
               case Fault =>
                 Owed(open, k, [], cipher, rest) == Decoded([], Faulted) && Buffered(open, k, [], cipher) == []
  {
    FirstRecord(cipher, rest);
  }

  // Receiving more bytes never takes back or changes plaintext.
  lemma {:induction false} DecodeMonotone(open: Opener, k: nat, wire: seq<Byte>, more: seq<Byte>)
    ensures Decode(open, k, wire).plain <= Decode(open, k, wire + more).plain
    ensures Decode(open, k, wire).ending !in {Unfinished, Closed}
            ==> Decode(open, k, wire + more) == Decode(open, k, wire)
    ensures Decode(open, k, wire).ending == Closed ==> Decode(open, k, wire + more).ending in {Closed, Trailing}
    decreases |wire|
  {
    if Complete(wire) {
      var n := RecordLength(wire);
      FirstRecord(wire, more);
      DecodeMonotone(open, k + 1, wire[n..], more);
    }
  }

  // ----- the writing side -----

  // The records `buffer` is cut into, none with more than `max` bytes of plaintext.
  function Encode(seal: Sealer, k: nat, max: nat, buffer: seq<Byte>): seq<Byte>
    requires max > 0
    decreases |buffer|
  {
    if buffer == [] then []
    else
      var use := Min(|buffer|, max);
      seal(k, buffer[..use]) + Encode(seal, k + 1, max, buffer[use..])
  }

  // How many records that takes.
  function RecordCount(max: nat, size: nat): nat
    requires max > 0
    decreases size
  {
    if size == 0 then 0 else 1 + RecordCount(max, size - Min(size, max))
  }

  // Where the buffer is cut: record number i carries the bytes from i * max on, max of them or the
  // rest; there are as many records as that takes.
  function Record(seal: Sealer, k: nat, max: nat, buffer: seq<Byte>, i: nat): seq<Byte>
    requires i * max <= |buffer|
  {
    seal(k + i, buffer[i * max..Min(i * max + max, |buffer|)])
  }

  lemma {:induction false} RecordCountCeiling(max: nat, size: nat)
    requires max > 0
    ensures var n := RecordCount(max, size);
            (n - 1) * max < size <= n * max || n == size == 0
    ensures forall i :: 0 <= i < RecordCount(max, size) ==> 0 <= i * max < size
    decreases size
  {
    if size > 0 {
      var rest := size - Min(size, max);
      RecordCountCeiling(max, rest);
      var n := RecordCount(max, rest);
      assert (n + 1) * max == n * max + max && (n - 1) * max == n * max - max;
      forall i | 0 <= i < n + 1 ensures 0 <= i * max < size {
        assert (i - 1) * max == i * max - max;
        assert i == 0 || 0 <= (i - 1) * max < rest;
      }
    }
  }

  // The records in order are what is written.
  lemma {:induction false} EncodeIsRecords(seal: Sealer, k: nat, max: nat, buffer: seq<Byte>, records: seq<seq<Byte>>)
    requires max > 0 && |records| == RecordCount(max, |buffer|)
    requires forall i :: 0 <= i < |records| ==> i * max <= |buffer| && records[i] == Record(seal, k, max, buffer, i)
    ensures Encode(seal, k, max, buffer) == Flatten(records)
    decreases |buffer|
  {
    if buffer != [] {
      var use := Min(|buffer|, max);
      var others, later := buffer[use..], records[1..];
      RecordCountCeiling(max, |others|);
      forall i | 0 <= i < |later| ensures i * max <= |others| && later[i] == Record(seal, k + 1, max, others, i) {
        assert (i + 1) * max == i * max + max;
        assert later[i] == records[i + 1];
        RecordShift(seal, k, max, buffer, i);
      }
      EncodeIsRecords(seal, k + 1, max, others, later);
      assert records[0] == Record(seal, k, max, buffer, 0);
    }
  }

  lemma RecordShift(seal: Sealer, k: nat, max: nat, buffer: seq<Byte>, i: nat)
    requires 0 < max < |buffer| && (i + 1) * max <= |buffer|
    ensures (i + 1) * max == i * max + max && i * max <= |buffer[max..]|
    ensures Record(seal, k + 1, max, buffer[max..], i) == Record(seal, k, max, buffer, i + 1)
  {
    assert (i + 1) * max == i * max + max;
    var from := i * max;
    var to := Min(from + max, |buffer| - max);
    assert buffer[max..][from..to] == buffer[max + from..max + to];
  }

  function EncodeAll(seal: Sealer, k: nat, max: nat, buffers: seq<seq<Byte>>): seq<Byte>
    requires max > 0
    decreases |buffers|
  {
    if buffers == [] then []
    else Encode(seal, k, max, buffers[0])
         + EncodeAll(seal, k + RecordCount(max, |buffers[0]|), max, buffers[1..])
  }

  // A sealed record is one record of the stream, and opening it gives its plaintext back.
  ghost predicate Inverse(seal: Sealer, open: Opener, max: nat) {
    forall k: nat, plain: seq<Byte> :: |plain| <= max ==>
      var record := seal(k, plain);
      && |record| >= RECORD_HEADER
      && |record| == RecordLength(record)
      && open(k, record).Data?
      && open(k, record).plain == plain
  }

  // One complete record in front of a stream.
  lemma DecodeCons(open: Opener, k: nat, record: seq<Byte>, tail: seq<Byte>)
    requires |record| >= RECORD_HEADER && |record| == RecordLength(record)
    requires open(k, record).Data?
    ensures Decode(open, k, record + tail) == Append(open(k, record).plain, Decode(open, k + 1, tail))
  {
    var wire := record + tail;
    assert wire[..|record|] == record && wire[|record|..] == tail;
    assert RecordLength(wire) == RecordLength(record);
  }

  // A sealed record is a header and the data, at the sizes given, and at most a full trailer.
  ghost predicate KeepsSizes(seal: Sealer, header: nat, max: nat, trailer: nat) {
    forall k: nat, plain: seq<Byte> :: |plain| <= max ==>
      header + |plain| <= |seal(k, plain)| <= header + |plain| + trailer
  }

  // Such functions exist: records as section 5.1 of RFC 8446 lays them out, not protected.
  function PlainSeal(k: nat, plain: seq<Byte>): seq<Byte> {
    if |plain| < 0x1_0000 then [23, 3, 3, (|plain| / 256) as Byte, (|plain| % 256) as Byte] + plain else []
  }

  function PlainOpen(k: nat, record: seq<Byte>): Opened {
    if |record| >= 5 then Data(5, record[5..]) else Fault
  }

  lemma PlainRecords(max: nat)
    requires max < 0x1_0000
    ensures InPlace(PlainOpen) && Inverse(PlainSeal, PlainOpen, max) && KeepsSizes(PlainSeal, 5, max, 0)
  {
    forall k: nat, plain: seq<Byte> | |plain| <= max
      ensures PlainSeal(k, plain)[5..] == plain && |PlainSeal(k, plain)| == RecordLength(PlainSeal(k, plain))
    {
    }
  }

  // Decoding what was written gives the buffer back and leaves the stream behind it aligned.
  lemma {:induction false} DecodeEncode(seal: Sealer, open: Opener, k: nat, max: nat, buffer: seq<Byte>, rest: seq<Byte>)
    requires max > 0 && Inverse(seal, open, max)
    ensures Decode(open, k, Encode(seal, k, max, buffer) + rest)
            == Append(buffer, Decode(open, k + RecordCount(max, |buffer|), rest))
    decreases |buffer|
  {
    hide Decode, RecordLength;
    var after := Decode(open, k + RecordCount(max, |buffer|), rest);
    if buffer == [] {
      assert Encode(seal, k, max, buffer) + rest == rest;
      assert buffer + after.plain == after.plain;
    } else {
      var use := Min(|buffer|, max);
      var first, others := buffer[..use], buffer[use..];
      var record, tail := seal(k, first), Encode(seal, k + 1, max, others);
      calc {
        Decode(open, k, Encode(seal, k, max, buffer) + rest);
        { assert record + tail + rest == record + (tail + rest); }
        Decode(open, k, record + (tail + rest));
        { DecodeCons(open, k, record, tail + rest); }
        Append(first, Decode(open, k + 1, tail + rest));
        { DecodeEncode(seal, open, k + 1, max, others, rest); }
        Append(first, Append(others, after));
        { assert buffer == first + others;
          assert first + (others + after.plain) == (first + others) + after.plain; }
        Append(buffer, after);
      }
    }
  }

  lemma {:induction false} DecodeEncodeAll(seal: Sealer, open: Opener, k: nat, max: nat, buffers: seq<seq<Byte>>)
    requires max > 0 && Inverse(seal, open, max)
    ensures Decode(open, k, EncodeAll(seal, k, max, buffers)) == Decoded(Flatten(buffers), Unfinished)
    decreases |buffers|
  {
    if buffers != [] {
      hide Decode, Encode, RecordCount, Inverse, RecordLength, Complete, Follow;
      var next := k + RecordCount(max, |buffers[0]|);
      DecodeEncodeAll(seal, open, next, max, buffers[1..]);
      DecodeEncode(seal, open, k, max, buffers[0], EncodeAll(seal, next, max, buffers[1..]));
    }
  }

  // However much of the written stream got through, it decodes to a prefix of what was written.
  lemma {:induction false} DecodeTruncated(
    seal: Sealer, open: Opener, k: nat, max: nat, buffers: seq<seq<Byte>>, wire: seq<Byte>)
    requires max > 0 && Inverse(seal, open, max)
    requires wire <= EncodeAll(seal, k, max, buffers)
    ensures Decode(open, k, wire).plain <= Flatten(buffers)
    ensures Decode(open, k, wire).ending == Unfinished
  {
    var all := EncodeAll(seal, k, max, buffers);
    assert all == wire + all[|wire|..];
    DecodeMonotone(open, k, wire, all[|wire|..]);
    DecodeEncodeAll(seal, open, k, max, buffers);
  }

  // Part of a stream within the limit is within the limit.
  lemma {:induction false} WithinLimitPrefix(wire: seq<Byte>, more: seq<Byte>)
    requires WithinLimit(wire + more)
    ensures WithinLimit(wire)
    decreases |wire|
  {
    if |wire| >= RECORD_HEADER {
      assert RecordLength(wire) == RecordLength(wire + more);
      if Complete(wire) {
        FirstRecord(wire, more);
        WithinLimitPrefix(wire[RecordLength(wire)..], more);
      }
    }
  }

  // A writer whose sizes fit the limit writes records within the limit.
  lemma {:induction false} EncodeWithinLimit(
    seal: Sealer, open: Opener, header: nat, max: nat, trailer: nat, k: nat, buffer: seq<Byte>, rest: seq<Byte>)
    requires max > 0 && Inverse(seal, open, max) && KeepsSizes(seal, header, max, trailer)
    requires header + max + trailer <= RECORD_LIMIT && WithinLimit(rest)
    ensures WithinLimit(Encode(seal, k, max, buffer) + rest)
    decreases |buffer|
  {
    if buffer == [] {
      assert Encode(seal, k, max, buffer) + rest == rest;
    } else {
      var use := Min(|buffer|, max);
      var record, tail := seal(k, buffer[..use]), Encode(seal, k + 1, max, buffer[use..]);
      EncodeWithinLimit(seal, open, header, max, trailer, k + 1, buffer[use..], rest);
      assert record + tail + rest == record + (tail + rest);
      FirstRecord(record, tail + rest);
      assert record[|record|..] + (tail + rest) == tail + rest;
    }
  }

  lemma {:induction false} EncodeAllWithinLimit(
    seal: Sealer, open: Opener, header: nat, max: nat, trailer: nat, k: nat, buffers: seq<seq<Byte>>)
    requires max > 0 && Inverse(seal, open, max) && KeepsSizes(seal, header, max, trailer)
    requires header + max + trailer <= RECORD_LIMIT
    ensures WithinLimit(EncodeAll(seal, k, max, buffers))
    decreases |buffers|
  {
    if buffers != [] {
      var next := k + RecordCount(max, |buffers[0]|);
      EncodeAllWithinLimit(seal, open, header, max, trailer, next, buffers[1..]);
      EncodeWithinLimit(seal, open, header, max, trailer, k, buffers[0], EncodeAll(seal, next, max, buffers[1..]));
    }
  }
}
