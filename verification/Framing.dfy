/**
 Length-prefixed messages over a stream socket: SendMsg and ReceiveMsg, which the SSPI client
 and server share.
 */
module Framing {
  import opened Bytes
  import opened Memory
  import opened Sockets

  // Lengths are DWORDs counted down in an int.
  const INT_LIMIT: nat := 0x8000_0000

  // A DWORD in memory.
  function Dword(n: nat): (bytes: seq<Byte>)
    requires n < 0x1_0000_0000
    ensures |bytes| == 4
  {
    [(n % 256) as Byte, (n / 256 % 256) as Byte, (n / 65536 % 256) as Byte, (n / 16777216) as Byte]
  }

  function FromDword(bytes: seq<Byte>): nat
    requires |bytes| >= 4
  {
    bytes[0] as nat + 256 * bytes[1] as nat + 65536 * bytes[2] as nat + 16777216 * bytes[3] as nat
  }

  lemma DwordRoundTrip(n: nat)
    requires n < 0x1_0000_0000
    ensures FromDword(Dword(n)) == n
  {
  }

  lemma DwordDigits(n: nat)
    requires n < 0x1_0000_0000
    ensures var d := Dword(n);
            d[0] as nat + 256 * d[1] as nat + 65536 * d[2] as nat + 16777216 * d[3] as nat == n
  {
  }

  // What SendMsg puts on the wire: nothing at all for an empty message.
  function Frame(message: seq<Byte>): seq<Byte>
    requires |message| < INT_LIMIT
  {
    if message == [] then [] else Dword(|message|) + message
  }

  ghost predicate Sendable(messages: seq<seq<Byte>>, limit: nat) {
    forall i :: 0 <= i < |messages| ==> |messages[i]| <= limit
  }

  function FrameAll(messages: seq<seq<Byte>>): seq<Byte>
    requires Sendable(messages, INT_LIMIT - 1)
  {
    if messages == [] then [] else Frame(messages[0]) + FrameAll(messages[1..])
  }

  function NonEmpty(messages: seq<seq<Byte>>): seq<seq<Byte>> {
    if messages == [] then []
    else (if messages[0] == [] then [] else [messages[0]]) + NonEmpty(messages[1..])
  }

  // On the wire a message is its length in four bytes, the lowest first, and then itself.
  lemma FrameBytes(message: seq<Byte>)
    requires 0 < |message| < INT_LIMIT
    ensures var f := Frame(message);
            && |f| == 4 + |message| && f[4..] == message
            && f[0] as nat + 256 * f[1] as nat + 65536 * f[2] as nat + 16777216 * f[3] as nat == |message|
    ensures |message| < 256 ==> Frame(message) == [|message| as Byte, 0, 0, 0] + message
  {
    DwordDigits(|message|);
    assert |message| < 256 ==> Dword(|message|) == [|message| as Byte, 0, 0, 0];
  }

  // Whether a stream starts with a complete frame, and how long its message is.
  predicate Framed(stream: seq<Byte>) {
    |stream| >= 4 && |stream| >= 4 + FromDword(stream)
  }

  // The message and what follows it.
  function Unframe(stream: seq<Byte>): (seq<Byte>, seq<Byte>)
    requires Framed(stream)
  {
    (stream[4..4 + FromDword(stream)], stream[4 + FromDword(stream)..])
  }

  lemma UnframeFrame(message: seq<Byte>, rest: seq<Byte>)
    requires 0 < |message| < INT_LIMIT
    ensures Framed(Frame(message) + rest) && Unframe(Frame(message) + rest) == (message, rest)
    ensures FromDword(Frame(message) + rest) == |message|
  {
    DwordRoundTrip(|message|);
    var stream := Frame(message) + rest;
    assert stream[..4] == Dword(|message|);
    assert FromDword(stream) == FromDword(stream[..4]);
  }

  // SendBytes: all bytes or an error, after which some of them may have been sent.
  method SendBytes(s: Socket, buffer: array<Byte>, size: nat) returns (ok: bool)
    requires size <= buffer.Length && size < 0x8000_0000
    modifies s`outgoing, s`sendFailed
    ensures old(s.outgoing) <= s.outgoing <= old(s.outgoing) + buffer[..size]
    ensures ok ==> s.outgoing == old(s.outgoing) + buffer[..size]
    ensures !ok ==> s.sendFailed
  {
    if size == 0 {
      return true;
    }
    var at, remaining := 0, size;
    while remaining != 0
      invariant at <= size && at + remaining == size && s.outgoing == old(s.outgoing) + buffer[..at]
    {
      var sent := s.Send(buffer, at, remaining);
      if sent < 0 {
        return false;
      }
      at, remaining := at + sent, remaining - sent;
    }
    return true;
  }

  // ReceiveBytes: true with the bytes asked for, or with fewer when the peer has no more.
  method ReceiveBytes(s: Socket, buffer: array<Byte>, size: nat) returns (ok: bool, read: nat)
    requires s.Valid() && size <= buffer.Length && size < 0x8000_0000
    modifies s, buffer
    ensures s.Valid() && read <= size && s.outgoing == old(s.outgoing) && s.pos >= old(s.pos)
    ensures ok ==> read == Min(size, |old(s.Rest())|) && (s.failed ==> old(s.failed))
    ensures ok ==> old(s.Rest()) == buffer[..read] + s.Rest()
    ensures !ok ==> s.failed
  {
    var at, remaining := 0, size;
    ghost var rest, got: seq<Byte> := s.Rest(), [];
    while remaining != 0
      invariant s.Valid() && at <= size && at + remaining == size && s.outgoing == old(s.outgoing)
      invariant (s.failed ==> old(s.failed)) && s.pos >= old(s.pos)
      invariant got == buffer[..at] && rest == got + s.Rest()
      decreases remaining
    {
      ghost var from := s.pos;
      var r := s.Recv(buffer, at, remaining);
      if r < 0 {
        return false, 0;
      }
      if r == 0 {
        break;
      }
      ghost var more := s.wire[from..s.pos];
      assert got + (more + s.Rest()) == (got + more) + s.Rest();
      got := got + more;
      at, remaining := at + r, remaining - r;
    }
    return true, size - remaining;
  }

  // SendMsg
  method SendMsg(s: Socket, buffer: array<Byte>, size: nat) returns (ok: bool)
    requires size <= buffer.Length && size < 0x8000_0000
    modifies s`outgoing, s`sendFailed
    ensures old(s.outgoing) <= s.outgoing <= old(s.outgoing) + Frame(buffer[..size])
    ensures ok ==> s.outgoing == old(s.outgoing) + Frame(buffer[..size])
    // The length goes first, in four bytes, the lowest of them first.
    ensures ok && size > 0 ==>
      var sent := s.outgoing[|old(s.outgoing)|..];
      && |sent| == 4 + size && sent[4..] == buffer[..size]
      && sent[0] as nat + 256 * sent[1] as nat + 65536 * sent[2] as nat + 16777216 * sent[3] as nat == size
    ensures ok && size == 0 ==> s.outgoing == old(s.outgoing)
    ensures !ok ==> s.sendFailed
  {
    if size == 0 {
      return true;
    }
    FrameBytes(buffer[..size]);
    var header := new Byte[4];
    Store(header, 0, Dword(size));
    assert header[..4] == Dword(size);
    ghost var before := s.outgoing;
    assert before + (Dword(size) + buffer[..size]) == before + Dword(size) + buffer[..size];
    ok := SendBytes(s, header, 4);
    if ok {
      ok := SendBytes(s, buffer, size);
    }
  }

  // ReceiveMsg: the next frame, if the stream holds one. The source does not compare the length in
  // the frame with the size of the buffer; a longer message is reported here and not received.
  method ReceiveMsg(s: Socket, buffer: array<Byte>) returns (ok: bool, read: nat, fits: bool)
    requires s.Valid() && buffer.Length < 0x8000_0000
    modifies s, buffer
    ensures s.Valid() && s.outgoing == old(s.outgoing) && read <= buffer.Length && s.pos >= old(s.pos)
    ensures ok ==> s.failed ==> old(s.failed)
    ensures ok ==> Framed(old(s.Rest())) && Unframe(old(s.Rest())) == (buffer[..read], s.Rest())
    // The length comes first, in four bytes, the lowest of them first.
    ensures ok ==>
      var rest := old(s.Rest());
      rest[0] as nat + 256 * rest[1] as nat + 65536 * rest[2] as nat + 16777216 * rest[3] as nat == read
    ensures !fits ==>
      var rest := old(s.Rest());
      && |rest| >= 4
      && rest[0] as nat + 256 * rest[1] as nat + 65536 * rest[2] as nat + 16777216 * rest[3] as nat > buffer.Length
    ensures !ok ==> s.failed || !fits || !Framed(old(s.Rest()))
    ensures !ok && fits && !s.failed ==> |old(s.Rest())| >= 4 ==> FromDword(old(s.Rest())) <= buffer.Length
  {
    var header := new Byte[4];
    ghost var rest := s.Rest();
    read, fits := 0, true;
    var got;
    ok, got := ReceiveBytes(s, header, 4);
    if !ok {
      return;
    }
    if got != 4 {
      return false, 0, fits;
    }
    assert header[..] == header[..4];
    ghost var body := s.Rest();
    assert rest[4..] == body;
    var size := FromDword(header[..]);
    assert size == FromDword(rest);
    if size > buffer.Length {
      return false, 0, false;
    }
    ok, got := ReceiveBytes(s, buffer, size);
    if !ok {
      return;
    }
    if got != size {
      return false, 0, fits;
    }
    read := got;
    assert body == buffer[..read] + s.Rest();
    assert rest[4..4 + size] == body[..size] == buffer[..read];
    assert rest[4 + size..] == body[size..] == s.Rest();
  }

  // Repeated SendMsg.
  method SendList(s: Socket, messages: seq<seq<Byte>>) returns (ok: bool)
    requires Sendable(messages, INT_LIMIT - 1)
    modifies s`outgoing, s`sendFailed
    ensures old(s.outgoing) <= s.outgoing <= old(s.outgoing) + FrameAll(messages)
    ensures ok ==> s.outgoing == old(s.outgoing) + FrameAll(messages)
    ensures !ok ==> s.sendFailed
  {
    var left := messages;
    ghost var all := s.outgoing + FrameAll(messages);
    while |left| > 0
      invariant Sendable(left, INT_LIMIT - 1)
      invariant old(s.outgoing) <= s.outgoing && all == s.outgoing + FrameAll(left)
    {
      ghost var before := s.outgoing;
      assert before + (Frame(left[0]) + FrameAll(left[1..])) == before + Frame(left[0]) + FrameAll(left[1..]);
      var buffer := new Byte[|left[0]|];
      Store(buffer, 0, left[0]);
      assert buffer[..|left[0]|] == left[0];
      ok := SendMsg(s, buffer, buffer.Length);
      if !ok {
        return;
      }
      left := left[1..];
    }
    return true;
  }

  // One ReceiveMsg on the frames of the messages still to come: the next non-empty one.
  method ReceiveNext(s: Socket, buffer: array<Byte>, ghost messages: seq<seq<Byte>>)
    returns (ok: bool, message: seq<Byte>, ghost left: seq<seq<Byte>>)
    requires s.Valid() && !s.failed && buffer.Length < INT_LIMIT
    requires Sendable(messages, buffer.Length) && s.Rest() == FrameAll(messages)
    modifies s, buffer
    ensures s.Valid() && Sendable(left, buffer.Length)
    ensures ok ==> !s.failed && |left| < |messages| && s.Rest() == FrameAll(left)
    ensures ok ==> NonEmpty(messages) == [message] + NonEmpty(left)
    ensures !ok ==> s.failed || (NonEmpty(messages) == [] && s.Rest() == [])
  {
    left := SkipEmpty(messages, buffer.Length);
    if left != [] {
      UnframeFrame(left[0], FrameAll(left[1..]));
    }
    hide FrameAll, Frame, Dword;
    var read, fits;
    ok, read, fits := ReceiveMsg(s, buffer);
    message := buffer[..read];
    if ok {
      assert left != [];
      left := left[1..];
    }
  }

  // Repeated ReceiveMsg returns exactly the non-empty messages that were sent, in order.
  method ReceiveAll(s: Socket, buffer: array<Byte>, ghost messages: seq<seq<Byte>>) returns (received: seq<seq<Byte>>)
    requires s.Valid() && !s.failed && buffer.Length < INT_LIMIT
    requires Sendable(messages, buffer.Length) && s.Rest() == FrameAll(messages)
    modifies s, buffer
    ensures s.Valid() && received <= NonEmpty(messages)
    ensures !s.failed ==> received == NonEmpty(messages) && s.Rest() == []
  {
    hide FrameAll, NonEmpty;
    received := [];
    ghost var left := messages;
    while true
      invariant s.Valid() && Sendable(left, buffer.Length) && s.Rest() == FrameAll(left) && !s.failed
      invariant NonEmpty(messages) == received + NonEmpty(left)
      decreases |left|
    {
      var ok, message;
      ok, message, left := ReceiveNext(s, buffer, left);
      if !ok {
        return;
      }
      assert received + ([message] + NonEmpty(left)) == received + [message] + NonEmpty(left);
      received := received + [message];
    }
  }

  // Leading empty messages leave no trace on the wire.
  ghost function SkipEmpty(messages: seq<seq<Byte>>, limit: nat): (left: seq<seq<Byte>>)
    requires limit < INT_LIMIT && Sendable(messages, limit)
    ensures |left| <= |messages| && (left != [] ==> left[0] != [])
    ensures Sendable(left, limit)
    ensures NonEmpty(left) == NonEmpty(messages) && FrameAll(left) == FrameAll(messages)
  {
    if messages != [] && messages[0] == [] then SkipEmpty(messages[1..], limit) else messages
  }
}
