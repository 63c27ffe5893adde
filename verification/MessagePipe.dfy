/**
 Reassembling a message read from a message-mode pipe in chunks (SmallPipes, PipeMessages), and
 the header that PipeMessages puts in front of its messages.
 */
module MessagePipe {
  import opened Bytes
  import opened Memory
  import opened Framing

  // A pipe with one message to read. A read that does not take all of it fills the chunk and
  // reports more data.
  class Pipe {
    var message: seq<Byte>
    var readCalls: nat
    var broken: bool   // the last read reported an error other than more data

    constructor (message: seq<Byte>)
      ensures this.message == message && readCalls == 0 && !broken
    {
      this.message, readCalls, broken := message, 0, false;
    }

    method ReadFile(buffer: array<Byte>, at: nat, size: nat) returns (success: bool, bytesRead: nat, moreData: bool)
      requires at + size <= buffer.Length
      modifies this, buffer
      ensures readCalls == old(readCalls) + 1 && broken == (!success && !moreData)
      ensures success ==> bytesRead == |old(message)| <= size && message == []
      ensures !success && moreData ==> bytesRead == size < |old(message)| && message == old(message)[size..]
      ensures success || moreData ==> buffer[..at + bytesRead] == old(buffer[..at]) + old(message)[..bytesRead]
    {
      readCalls := readCalls + 1;
      broken := *;
      if broken {
        return false, 0, false;
      }
      bytesRead := Min(size, |message|);
      success, moreData := |message| <= size, |message| > size;
      Store(buffer, at, message[..bytesRead]);
      message := message[bytesRead..];
    }
  }

  // The reads a message takes.
  function Chunks(length: nat, chunk: nat): nat
    requires chunk > 0
    decreases length
  {
    if length <= chunk then 1 else 1 + Chunks(length - chunk, chunk)
  }

  // That many reads are enough, and one less would not be.
  lemma {:induction false} ChunksSuffice(length: nat, chunk: nat)
    requires chunk > 0
    ensures Chunks(length, chunk) * chunk >= length
    ensures length > 0 ==> (Chunks(length, chunk) - 1) * chunk < length
    decreases length
  {
    if length > chunk {
      ChunksSuffice(length - chunk, chunk);
      var n := Chunks(length - chunk, chunk);
      assert (n + 1) * chunk == n * chunk + chunk && (n - 1) * chunk == n * chunk - chunk;
    }
  }

  // std::vector::resize: what was there stays, new elements are zero.
  method Resize(buffer: array<Byte>, size: nat) returns (resized: array<Byte>)
    ensures fresh(resized) && resized.Length == size
    ensures resized[..Min(size, buffer.Length)] == buffer[..Min(size, buffer.Length)]
  {
    resized := new Byte[size](_ => 0);
    CopyMemory(resized, 0, buffer, 0, Min(size, buffer.Length));
  }

  // ReadPipe: the whole message, or None for an exception.
  method ReadPipe(pipe: Pipe, bytesToRead: nat) returns (result: Option<seq<Byte>>)
    requires bytesToRead > 0
    modifies pipe
    ensures result.Some? ==> result.value == old(pipe.message) && pipe.message == []
    ensures result == None ==> pipe.broken
    ensures result.Some? ==> pipe.readCalls == old(pipe.readCalls) + Chunks(|old(pipe.message)|, bytesToRead)
  {
    var returnBuffer := new Byte[bytesToRead](_ => 0);
    var totalBytesRead: nat := 0;
    ghost var all, done: seq<Byte>, expected := pipe.message, [], pipe.readCalls + Chunks(|pipe.message|, bytesToRead);
    while true
      invariant returnBuffer.Length == totalBytesRead + bytesToRead && fresh(returnBuffer)
      invariant done == returnBuffer[..totalBytesRead] && done + pipe.message == all
      invariant pipe.readCalls + Chunks(|pipe.message|, bytesToRead) == expected
      decreases |pipe.message|
    {
      ghost var left := pipe.message;
      var success, bytesRead, moreData := pipe.ReadFile(returnBuffer, totalBytesRead, bytesToRead);
      totalBytesRead := totalBytesRead + bytesRead;
      if success {
        assert returnBuffer[..totalBytesRead] == all;
        returnBuffer := Resize(returnBuffer, totalBytesRead);
        assert returnBuffer[..] == returnBuffer[..totalBytesRead];
        return Some(returnBuffer[..]);
      }
      if !moreData {
        return None;
      }
      assert done + left == done + left[..bytesRead] + pipe.message;
      done := done + left[..bytesRead];
      returnBuffer := Resize(returnBuffer, returnBuffer.Length + bytesToRead);
    }
  }

  // ----- headers -----

  const HEADER_SIZE: nat := 8

  datatype Header = Header(kind: nat, subtype: nat)

  function HeaderBytes(h: Header): (bytes: seq<Byte>)
    requires h.kind < 0x1_0000_0000 && h.subtype < 0x1_0000_0000
    ensures |bytes| == HEADER_SIZE
  {
    Dword(h.kind) + Dword(h.subtype)
  }

  // TypeB and TypeA in their enumerations.
  const WrittenHeader := Header(2, 1)

  function Zeros(n: nat): seq<Byte> {
    seq(n, _ => 0)
  }

  // WriteWithHeader: the vector already has room for the data when the data is inserted.
  method WriteWithHeader(data: seq<Byte>) returns (message: seq<Byte>)
    ensures message == HeaderBytes(WrittenHeader) + data + Zeros(|data|)
    // MessageType::TypeB is 2 and Subtype::TypeA is 1, each in four bytes, the lowest first.
    ensures message == [2, 0, 0, 0, 1, 0, 0, 0] + data + seq(|data|, _ => 0)
  {
    var vector := new Byte[HEADER_SIZE + |data|](_ => 0);
    Store(vector, 0, HeaderBytes(WrittenHeader));
    var dataWithHeader := vector[..];
    assert dataWithHeader[HEADER_SIZE..] == Zeros(|data|);
    assert dataWithHeader[..HEADER_SIZE] == HeaderBytes(WrittenHeader);
    message := dataWithHeader[..HEADER_SIZE] + data + dataWithHeader[HEADER_SIZE..];
  }

  // ReadWithHeader: a message without a whole header counts as an empty one.
  method ReadWithHeader(pipe: Pipe, bufferSize: nat) returns (result: Option<(Header, seq<Byte>)>)
    requires bufferSize > 0
    modifies pipe
    ensures result.Some? ==> result.value == ParseHeader(old(pipe.message))
    ensures result.Some? && |old(pipe.message)| >= 8 ==>
      var m, (h, payload) := old(pipe.message), result.value;
      && h.kind == m[0] as nat + 256 * m[1] as nat + 65536 * m[2] as nat + 16777216 * m[3] as nat
      && h.subtype == m[4] as nat + 256 * m[5] as nat + 65536 * m[6] as nat + 16777216 * m[7] as nat
      && payload == m[8..]
    ensures result.Some? && |old(pipe.message)| < 8 ==> result.value == (Header(0, 0), [])
    ensures result == None ==> pipe.broken
  {
    var data := ReadPipe(pipe, bufferSize);
    if data == None {
      return None;
    }
    if |data.value| < HEADER_SIZE {
      return Some((Header(0, 0), []));
    }
    return Some((Header(FromDword(data.value[..4]), FromDword(data.value[4..])), data.value[HEADER_SIZE..]));
  }

  function ParseHeader(message: seq<Byte>): (Header, seq<Byte>) {
    if |message| < HEADER_SIZE then (Header(0, 0), [])
    else (Header(FromDword(message[..4]), FromDword(message[4..])), message[HEADER_SIZE..])
  }

  // The header comes back as written; the payload is the data followed by as many zeros, so it
  // comes back as written only when it is empty.
  lemma HeaderRoundTrip(data: seq<Byte>)
    ensures ParseHeader(HeaderBytes(WrittenHeader) + data + Zeros(|data|)) == (WrittenHeader, data + Zeros(|data|))
    ensures ParseHeader(HeaderBytes(WrittenHeader) + data + Zeros(|data|)).1 == data <==> data == []
  {
    var message := HeaderBytes(WrittenHeader) + data + Zeros(|data|);
    DwordRoundTrip(2);
    DwordRoundTrip(1);
    assert message[..4] == Dword(2) && message[4..][..4] == Dword(1);
    assert FromDword(message[4..]) == FromDword(message[4..][..4]);
    assert message[HEADER_SIZE..] == data + Zeros(|data|);
  }

  // A message written with a header and read back in chunks.
  method Exchange(data: seq<Byte>, bufferSize: nat) returns (result: Option<(Header, seq<Byte>)>, pipe: Pipe)
    requires bufferSize > 0
    ensures result.Some? ==> result.value == (Header(2, 1), data + Zeros(|data|))
    ensures result == None ==> pipe.broken
  {
    var message := WriteWithHeader(data);
    pipe := new Pipe(message);
    result := ReadWithHeader(pipe, bufferSize);
    HeaderRoundTrip(data);
  }
}
