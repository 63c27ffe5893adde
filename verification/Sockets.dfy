/** A connected stream socket: short sends, fragmented receives, and errors at any time. */
module Sockets {
  import opened Bytes
  import opened Memory

  // A connected TCP socket. `wire` is everything the peer will ever send.
  class Socket {
    const wire: seq<Byte>
    var pos: nat           // bytes of `wire` received so far
    var outgoing: seq<Byte>
    var recvs: nat         // calls of recv so far
    var failed: bool       // the last recv reported an error
    var sendFailed: bool   // the last send reported an error

    constructor (wire: seq<Byte>)
      ensures this.wire == wire && pos == 0 && outgoing == [] && recvs == 0 && !failed && !sendFailed
    {
      this.wire, pos, outgoing, recvs, failed, sendFailed := wire, 0, [], 0, false, false;
    }

    ghost predicate Valid()
      reads this
    {
      pos <= |wire|
    }

    ghost function Rest(): seq<Byte>
      requires Valid()
      reads this
    {
      wire[pos..]
    }

    // A positive count of the next bytes; 0 only once the peer has sent everything; negative on error.
    method Recv(a: array<Byte>, at: nat, len: nat) returns (r: int)
      requires Valid() && at + len <= a.Length && len > 0
      modifies this, a
      ensures Valid() && r <= len && pos == old(pos) + (if r > 0 then r else 0)
      ensures recvs == old(recvs) + 1 && outgoing == old(outgoing)
      ensures failed == (r < 0)
      ensures r == 0 ==> Rest() == []
      ensures r > 0 ==> a[..at + r] == old(a[..at]) + wire[old(pos)..pos] && old(Rest()) == wire[old(pos)..pos] + Rest()
      ensures r <= 0 ==> a[..] == old(a[..])
    {
      recvs, failed := recvs + 1, false;
      var broken := *;
      if broken {
        failed, r := true, -1;
      } else if pos == |wire| {
        r := 0;
      } else {
        var n: nat :| 0 < n <= len && pos + n <= |wire|;
        Store(a, at, wire[pos..pos + n]);
        pos, r := pos + n, n;
      }
    }

    // A positive count of bytes taken, or a negative count on error.
    method Send(a: array<Byte>, at: nat, len: nat) returns (d: int)
      requires at + len <= a.Length && len > 0
      modifies `outgoing, `sendFailed
      ensures d <= len && d != 0 && sendFailed == (d < 0)
      ensures outgoing == old(outgoing) + a[at..at + if d > 0 then d else 0]
    {
      d := *;
      if d > len { d := len; }
      if d == 0 { d := -1; }
      sendFailed := d < 0;
      if d > 0 {
        outgoing := outgoing + a[at..at + d];
      }
    }
  }
}
