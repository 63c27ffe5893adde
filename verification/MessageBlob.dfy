/**
 The encrypted message of the SSPI server: a DWORD with the trailer's actual size, the trailer,
 the encrypted data, written by EncryptThis and taken apart by DecryptThis.
 */
module MessageBlob {
  import opened Bytes
  import opened Memory
  import opened Sockets
  import opened Framing

  // The client's receive buffer.
  const BIG_BUFF: nat := 2048

  // What the negotiated package does to a message: its trailer, its encrypted data, and back.
  datatype Package = Package(
    trailer: seq<Byte> -> seq<Byte>,
    encrypt: seq<Byte> -> seq<Byte>,
    decrypt: (seq<Byte>, seq<Byte>) -> Option<seq<Byte>>)

  // Trailers stay within the size announced, data keeps its size, decryption inverts.
  ghost predicate Sound(p: Package, cbSecurityTrailer: nat) {
    && (forall m: seq<Byte> ::
          && |p.trailer(m)| <= cbSecurityTrailer && |p.encrypt(m)| == |m|
          && p.decrypt(p.trailer(m), p.encrypt(m)) == Some(m))
    && (forall t: seq<Byte>, d: seq<Byte> :: p.decrypt(t, d).Some? ==> |p.decrypt(t, d).value| == |d|)
  }

  // There are such packages: one that protects nothing.
  lemma SoundPackage(cbSecurityTrailer: nat)
    ensures Sound(Package(m => [], m => m, (t, d) => Some(d)), cbSecurityTrailer)
  {
  }

  function Blob(p: Package, message: seq<Byte>): seq<Byte>
    requires |p.trailer(message)| < INT_LIMIT
  {
    Dword(|p.trailer(message)|) + p.trailer(message) + p.encrypt(message)
  }

  lemma BlobBytes(p: Package, message: seq<Byte>)
    requires |p.trailer(message)| < INT_LIMIT
    ensures var b, t := Blob(p, message), |p.trailer(message)|;
            && |b| == 4 + t + |p.encrypt(message)| && b[4..4 + t] == p.trailer(message) && b[4 + t..] == p.encrypt(message)
            && b[0] as nat + 256 * b[1] as nat + 65536 * b[2] as nat + 16777216 * b[3] as nat == t
  {
    DwordDigits(|p.trailer(message)|);
  }

  // Whether the trailer size in front of n bytes leaves room for itself and the trailer.
  predicate Parsable(bytes: seq<Byte>, n: nat)
    requires |bytes| >= 4
  {
    4 + FromDword(bytes) <= n
  }

  // Which of the two buffers of EncryptMessage is where: the trailer at output[at..], the data
  // in place. Reports the trailer's actual size. `works` says whether it succeeds; on an error
  // nothing is known about the buffers.
  method EncryptMessage(p: Package, works: bool, output: array<Byte>, at: nat, room: nat, message: array<Byte>, size: nat)
    returns (ok: bool, trailer: nat)
    requires Sound(p, room) && at + room <= output.Length && size <= message.Length && output != message
    modifies output, message
    ensures ok == works
    ensures ok ==> trailer <= room && output[at..at + trailer] == p.trailer(old(message[..size]))
    ensures ok ==> trailer == |p.trailer(old(message[..size]))|
    ensures ok ==> message[..size] == p.encrypt(old(message[..size]))
  {
    ok, trailer := works, 0;
    if ok {
      var plain := message[..size];
      trailer := |p.trailer(plain)|;
      Store(output, at, p.trailer(plain));
      Store(message, 0, p.encrypt(plain));
    }
  }

  // The size of the trailer goes in front of it, and the data behind it.
  method Assemble(output: array<Byte>, trailer: nat, message: array<Byte>, size: nat) returns (cbOutput: nat)
    requires 4 + trailer + size <= output.Length && size <= message.Length && output != message
    requires trailer < INT_LIMIT
    modifies output
    ensures cbOutput == size + trailer + 4
    ensures output[..cbOutput] == Dword(trailer) + old(output[4..4 + trailer]) + message[..size]
  {
    ghost var front := Dword(trailer) + output[4..4 + trailer];
    Store(output, 0, Dword(trailer));
    assert output[..4 + trailer] == front;
    CopyMemory(output, 4 + trailer, message, 0, size);
    cbOutput := size + trailer + 4;
    assert output[..4 + trailer] == front && message[0..size] == message[..size];
    assert output[4 + trailer..cbOutput] == message[..size];
    assert output[..cbOutput] == output[..4 + trailer] + output[4 + trailer..cbOutput];
  }

  // EncryptThis; the message buffer holds the encrypted data afterwards. On failure the output
  // count stays what it was, which is 0 in the server.
  method EncryptThis(p: Package, works: bool, message: array<Byte>, size: nat, cbSecurityTrailer: nat)
    returns (ok: bool, output: array<Byte>, cbOutput: nat)
    requires Sound(p, cbSecurityTrailer) && cbSecurityTrailer < INT_LIMIT && size <= message.Length
    modifies message
    ensures ok == works && fresh(output) && cbOutput <= output.Length == cbSecurityTrailer + size + 4
    ensures output[..cbOutput] == if ok then Blob(p, old(message[..size])) else []
    // The size of the trailer goes first, in four bytes, the lowest of them first.
    ensures ok ==>
      var blob, t := output[..cbOutput], |p.trailer(old(message[..size]))|;
      && cbOutput == 4 + t + size && blob[4..4 + t] == p.trailer(old(message[..size]))
      && blob[0] as nat + 256 * blob[1] as nat + 65536 * blob[2] as nat + 16777216 * blob[3] as nat == t
  {
    ghost var plain := message[..size];
    output := new Byte[cbSecurityTrailer + size + 4];
    var trailer;
    ok, trailer := EncryptMessage(p, works, output, 4, cbSecurityTrailer, message, size);
    if !ok {
      return ok, output, 0;
    }
    BlobBytes(p, plain);
    cbOutput := Assemble(output, trailer, message, size);
  }

  // DecryptMessage: the data is decrypted in place, or left alone on an error.
  method DecryptMessage(p: Package, buffer: array<Byte>, trailerAt: nat, trailer: nat, dataAt: nat, size: nat)
    returns (ok: bool)
    requires trailerAt + trailer <= dataAt && dataAt + size <= buffer.Length
    requires var d := p.decrypt(buffer[trailerAt..trailerAt + trailer], buffer[dataAt..dataAt + size]);
             d.Some? ==> |d.value| == size
    modifies buffer
    ensures var d := p.decrypt(old(buffer[trailerAt..trailerAt + trailer]), old(buffer[dataAt..dataAt + size]));
            && ok == d.Some?
            && buffer[dataAt..dataAt + size] == if ok then d.value else old(buffer[dataAt..dataAt + size])
    ensures buffer[..dataAt] == old(buffer[..dataAt])
  {
    var d := p.decrypt(buffer[trailerAt..trailerAt + trailer], buffer[dataAt..dataAt + size]);
    ok := d.Some?;
    if ok {
      Store(buffer, dataAt, d.value);
    }
  }

  // What DecryptThis makes of bytes that leave room for the trailer.
  function Opened(p: Package, bytes: seq<Byte>): seq<Byte>
    requires |bytes| >= 4 && Parsable(bytes, |bytes|)
  {
    var at := 4 + FromDword(bytes);
    match p.decrypt(bytes[4..at], bytes[at..])
    case Some(message) => message
    case None => bytes[at..]
  }

  // DecryptThis, on any bytes: where the message is in the buffer, and how long it is. The source
  // does not check that there is room for the trailer, and its subtraction wraps when there is
  // none; this is reported here. Nor does it act on a failing DecryptMessage.
  method DecryptThis(p: Package, buffer: array<Byte>, cbMessage: nat, ghost room: nat)
    returns (inside: bool, at: nat, size: nat)
    requires Sound(p, room) && 4 <= buffer.Length && cbMessage <= buffer.Length
    modifies buffer
    ensures inside <==> Parsable(old(buffer[..]), cbMessage)
    ensures var b := old(buffer[..]);
            var t := b[0] as nat + 256 * b[1] as nat + 65536 * b[2] as nat + 16777216 * b[3] as nat;
            (inside <==> 4 + t <= cbMessage) && (inside ==> at == 4 + t)
    ensures inside ==>
      var input := old(buffer[..cbMessage]);
      && at == 4 + FromDword(input) && at + size == cbMessage
      && buffer[..at] == input[..at] && buffer[at..at + size] == Opened(p, input)
    ensures !inside ==> buffer[..] == old(buffer[..])
  {
    ghost var input := buffer[..cbMessage];
    var trailer := FromDword(buffer[..4]);
    at, size := 4 + trailer, 0;
    inside := at <= cbMessage;
    if inside {
      size := cbMessage - trailer - 4;
      assert buffer[4..at] == input[4..at] && buffer[at..at + size] == input[at..];
      var _ := DecryptMessage(p, buffer, 4, trailer, at, size);
    }
  }

  lemma BlobParts(p: Package, message: seq<Byte>)
    requires |p.trailer(message)| < INT_LIMIT
    ensures var b, t := Blob(p, message), |p.trailer(message)|;
            b[..4] == Dword(t) && b[4..4 + t] == p.trailer(message) && b[4 + t..] == p.encrypt(message)
  {
  }

  // All of a blob opens to the message, and a shorter front of it to something shorter.
  lemma BlobFront(p: Package, room: nat, message: seq<Byte>, n: nat)
    requires Sound(p, room) && |p.trailer(message)| < INT_LIMIT && 4 <= n <= |Blob(p, message)|
    ensures var front := Blob(p, message)[..n];
            && (n == |Blob(p, message)| ==> Parsable(front, n))
            && (Parsable(front, n) ==> (Opened(p, front) == message <==> n == |Blob(p, message)|))
  {
    var b, t := Blob(p, message), |p.trailer(message)|;
    DwordRoundTrip(t);
    BlobParts(p, message);
    var front := b[..n];
    assert front[..4] == b[..4];
    hide Dword, Blob;
    if n == |b| {
      assert front == b;
    } else if Parsable(front, n) {
      assert |front[4 + t..]| < |message|;
    }
  }

  // The client: receives until the server closes, and takes apart what arrived.
  method Display(p: Package, client: Socket, ghost room: nat, ghost plain: seq<Byte>)
    returns (ok: bool, received: seq<Byte>)
    requires Sound(p, room) && |p.trailer(plain)| < INT_LIMIT
    requires client.Valid() && client.Rest() in {[], Blob(p, plain)}
    modifies client
    ensures ok ==> old(client.Rest()) != [] && (received == plain <==> 4 + |p.trailer(plain)| + |plain| <= 2048)
    ensures !ok ==> old(client.Rest()) == [] || client.failed || 4 + |p.trailer(plain)| + |plain| > 2048
  {
    ghost var wire, blob := client.Rest(), Blob(p, plain);
    assert |blob| == 4 + |p.trailer(plain)| + |plain|;
    var data := new Byte[BIG_BUFF];
    var cbRead;
    ok, cbRead := ReceiveBytes(client, data, BIG_BUFF);
    received := [];
    if !ok || cbRead == 0 {
      return false, received;
    }
    assert data[..cbRead] == blob[..cbRead];
    BlobFront(p, room, plain, cbRead);
    hide Blob, Sound;
    assert data[..][..4] == data[..cbRead][..4];
    var at, length;
    ok, at, length := DecryptThis(p, data, cbRead, room);
    if ok {
      received := data[at..at + length];
    }
  }

  // The server's message as the client sees it: encrypted and sent, received and taken apart. It
  // is recovered if and only if the blob fits the client's buffer. If the encryption fails,
  // nothing is sent and the client finds that out.
  method Transfer(p: Package, works: bool, message: array<Byte>, size: nat, cbSecurityTrailer: nat, server: Socket)
    returns (ok: bool, received: seq<Byte>, client: Socket?)
    requires Sound(p, cbSecurityTrailer) && size <= message.Length && server.outgoing == []
    requires cbSecurityTrailer + size + 4 < INT_LIMIT
    modifies message, server`outgoing, server`sendFailed
    ensures var plain := old(message[..size]);
            && (ok ==> works && (received == plain <==> 4 + |p.trailer(plain)| + size <= 2048))
            && (!ok ==> || !works || server.sendFailed || (client != null && client.failed)
                        || 4 + |p.trailer(plain)| + size > 2048)
            && server.outgoing <= (if works then Blob(p, plain) else [])
            && (!works ==> !ok)
  {
    ghost var plain := message[..size];
    var _, blob, cbBlob := EncryptThis(p, works, message, size, cbSecurityTrailer);
    ok := SendBytes(server, blob, cbBlob);
    if !ok {
      return false, [], null;
    }
    client := new Socket(server.outgoing);
    ok, received := Display(p, client, cbSecurityTrailer, plain);
  }
}
