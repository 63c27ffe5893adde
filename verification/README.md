# Buffers, protocols and event loops of the Win32 samples, in Dafny

This project models the parts of the sample repository that have logic of their own, and proves
what they are for. Operating-system calls (sockets, Schannel and SSPI, completion ports, pipes,
condition variables) appear as methods or steps that may choose any result their contract allows.
`dafny verify dfyconfig.toml` checks the whole project.

| file | what it is about |
|---|---|
| `TlsRecords.dfy`, `TlsSocket.dfy`, `TlsSession.dfy` | the TLS stream of SecureSocket: records, the in-place window of `tls_read`, `tls_write`, whole sessions |
| `Coroutines.dfy`, `EventLoop.dfy`, `EchoServer.dfy` | the coroutines of WinsockCoroutine: direct-style meaning, promises and event loop on the heap, the echo server as a program |
| `CircularQueue.dfy`, `ProducerConsumer.dfy` | ConditionVariables: the circular buffer, and all threads as a state machine |
| `EchoConnections.dfy` | WinSockIOCP: who owns a connection |
| `Framing.dfy`, `TokenExchange.dfy`, `MessageBlob.dfy` | the SSPI client and server: framing, the token exchange, the encrypted message |
| `RingList.dfy`, `ByteFifo.dfy`, `Transport.dfy` | XSocket: the list with a sentinel, the byte queue as values, and the byte queue on top of the list |
| `MessagePipe.dfy` | SmallPipes and PipeMessages: a message read in chunks, and its header |
| `Strings.dfy` | ExecuteCmd and WebSocketProto: splitting and replacing |
| `Bytes.dfy`, `Memory.dfy`, `Sockets.dfy` | bytes and options, `CopyMemory` and `MoveMemory`, a stream socket |

## The main results

**TLS stream.** A byte stream means a sequence of plaintext bytes and an ending (`Decode`), for any
decryption function and any bytes, well formed or not. `Read` hands out exactly the front of what is
still owed; it never receives while plaintext is at hand, and it fails only on a socket error, a
fault of the context, or a record longer than the window, which section 5.2 of RFC 8446 rules out.
A writer and a reader from their constructors on: whatever part of the writer's stream arrives, the
reader returns a prefix of what was written, all of it if all of it arrived, and fails only with its
socket.

**Coroutines.** `Eval` is the meaning of a coroutine body when every `co_await` is an ordinary call.
The heap of promises linked by continuations, driven by the loop that counts outstanding operations,
performs the same operations in the same order and ends with the same result or exception, or with the
same operation in flight. The loop returns only when the task has ended. Bodies may await tasks in an
endless loop, as long as those perform operations. The echo server accepts, receives and sends back
until a receive completes with no bytes, its only orderly end; a refused operation, a failed accept or
a failing `Associate` is its exception, and it has no other.

**Condition variables.** For any number of producers and consumers and with spurious wake-ups: the
threads of a side that are awake or about to be woken are at least as many as the items (or the free
cells) or as all threads of that side. From this follow that no wake-up is lost, that some thread can
always step, and that after the stop every run is bounded and ends with all threads gone and every
item consumed. What a thread at its wait loop does, and that a sleeping consumer gets the first item,
is stated on the queue size, the stop flag and the steps themselves.

**IOCP connections.** Every live connection has exactly one job: with the accept loop, prepared, in
flight, queued, or being handled. Hence no run touches a deleted connection, although addresses are
used again, and what is sent back is what was received. A failed operation or one without bytes deletes
the connection, and nothing else does; whatever else arrives is sent back by the next free worker. That is so when received bytes land in
`RecvOp.Buffer`. As `PostRecv` is written they do not: a run is free of faults if and only if none of
its receives completes with data, and there is a run in which the first bytes of the first client stray.

**SSPI.** Receiving returns the non-empty messages sent. The two authentication loops finish together
with both streams empty if and only if the two contexts agree on the turn at which they end. The
encrypted message is recovered if and only if its blob fits the client's buffer.

**XSocket.** Over any sequence of writes and reads, the transport is the plain byte queue up to the
first read that meets a partly read entry and asks for more than that has left: what was written is
what was read and what is still held. At such a read `CopyTo` leaves the entry, because it compares with
the entry's size and not with what is left; writing n bytes, reading some but not all of them and then
asking for more than the rest gets there.

## How the sources were read

- The `assert`s of `tls_read` and `tls_write` on buffer types and stream sizes are taken as what Schannel
  guarantees. A ticket that ends the window exactly has zero extra bytes.
- `tls_read` takes one turn of its loop per `Turn`; the branch without decrypted data is `Refill`. The
  loop, the turn and the branch are separate methods so that each has its own contract.
- In WinSockIOCP `PostRecv` (lines 171-173) the assigned `WsaBuf.buf` still points into the temporary that
  was copied, which is gone when the receive completes. `EchoConnections.Target` is a parameter of the
  program: `Temporary` is the code as written, `OwnBuffer` the intent, which `PostSend` meets.
- Where the source would leave a buffer or let a subtraction wrap (`CopyTo` on a partly read entry, a
  frame longer than the receive buffer, a trailer size without room for the trailer), the method reports
  it by a result of its own and stops; its contract says exactly when that is.
- A throw from `PostRecv` or `PostSend` ends the run of the IOCP server.
- `ReadData` asserts that it returned something. The contract of `Transport.ReadData` gives the exact
  count, which is zero when nothing was asked for or nothing is there.
- A `tls_read` that hands out bytes and then meets a close returns their count, so a reader that goes on
  reads what was received behind the close. `TlsSession.ReadAll` says what it still promises then.
- `SendMsg` writes nothing for an empty message, so a receiver waits where the comment would suggest
  an empty one; `Framing.ReceiveAll` and `TokenExchange.Agree` say exactly that.
- `WriteWithHeader` sizes the vector for the data and then inserts the data, so the payload that comes
  back is the data followed by as many zeros.

## Model

| member | source | states |
|---|---|---|
| TlsRecords.DecodeMonotone | src/SecureSocket/main.cpp:376-441 | More received bytes never take back or change plaintext; a fault or a close with bytes behind it is final |
| TlsRecords.DecryptKeeps | src/SecureSocket/main.cpp:376-435 | Decrypting the first record of the window keeps the plaintext owed, the plaintext at hand and the limit on records; a close or fault means nothing is owed |
| TlsRecords.HandOutKeeps | src/SecureSocket/main.cpp:335-357 | Plaintext handed out is exactly what is taken from the front of what is owed and of what is at hand |
| TlsRecords.ReceiveKeeps | src/SecureSocket/main.cpp:458-470 | Bytes received move from the network to the window without changing what is owed |
| TlsRecords.NothingLeft | src/SecureSocket/main.cpp:436-463 | An incomplete record gives no plaintext, and nothing is owed when the peer has no more |
| TlsRecords.FullWindow | src/SecureSocket/main.cpp:451-455 | A window filled by an incomplete record means a record beyond the limit of section 5.2 of RFC 8446 |
| TlsRecords.DecodeCons | src/SecureSocket/main.cpp:376-388 | One complete record in front of a stream contributes its plaintext |
| TlsRecords.DecodeEncode | src/SecureSocket/main.cpp:277-325 | Decoding what was written for a buffer gives the buffer back and leaves the stream aligned behind it, for every record size |
| TlsRecords.RecordCountCeiling | src/SecureSocket/main.cpp:279-283 | A buffer is written in as many records as it takes to hold it, and no more |
| TlsRecords.EncodeIsRecords | src/SecureSocket/main.cpp:279-324 | Record number i carries the bytes from i times the maximum on, as many as fit, and the records follow one another |
| TlsRecords.DecodeEncodeAll | src/SecureSocket/main.cpp:277-325 | The records of any list of buffers decode to their concatenation |
| TlsRecords.DecodeTruncated | src/SecureSocket/main.cpp:277-325 | Any part of the written stream decodes to a prefix of what was written, without fault |
| TlsRecords.WithinLimitPrefix | src/SecureSocket/main.cpp:451-455 | Part of a stream within the record limit is within the limit |
| TlsRecords.WithinLimitRecords | src/SecureSocket/main.cpp:451-455 | A stream of records is within the limit exactly when none announces more than 16384 + 256 bytes, the limit of section 5.2 of RFC 8446 |
| TlsRecords.EncodeWithinLimit | src/SecureSocket/main.cpp:281-307 | A writer whose header, payload and trailer sizes fit the limit writes records within the limit |
| TlsRecords.EncodeAllWithinLimit | src/SecureSocket/main.cpp:281-307 | The same for any list of buffers |
| TlsRecords.PlainRecords | src/SecureSocket/main.cpp:277-325 | There are sealing and opening functions as the theorems ask for |
| Sockets.Socket.Recv | src/SecureSocket/main.cpp:458-470 | recv: the next bytes in order, 0 only at the end of the peer's stream, negative on error |
| Sockets.Socket.Send | src/SecureSocket/main.cpp:311-317 | send: takes a non-empty part of what it is given, or an error |
| TlsSocket.SecurityContext.DecryptMessage | src/SecureSocket/main.cpp:364-385 | DecryptMessage acts on the first complete record only, complete by the two length bytes of its header, in place, and reports how many bytes follow it |
| TlsSocket.SecurityContext.EncryptMessage | src/SecureSocket/main.cpp:286-307 | EncryptMessage turns header, data and trailer room into one sealed record of the reported size |
| TlsSocket.TlsSocket.constructor | src/SecureSocket/main.cpp:91-92 | A fresh socket owes exactly what the peer's stream means, with an empty window |
| TlsSocket.TlsSocket.DropRecord | src/SecureSocket/main.cpp:347-348 | The compaction: what followed the current record is moved to the front, whatever the overlap |
| TlsSocket.TlsSocket.CopyOut | src/SecureSocket/main.cpp:335-358 | Copies out as much pending plaintext as fits, keeps the window well formed, and shrinks it when the record is used up |
| TlsSocket.TlsSocket.HandOut | src/SecureSocket/main.cpp:335-358 | The same step takes from what is owed exactly what it puts into the buffer |
| TlsSocket.TlsSocket.OpenRecord | src/SecureSocket/main.cpp:362-441 | What each decryption status does to the window: pending plaintext, remaining ciphertext, received count |
| TlsSocket.TlsSocket.DecryptNext | src/SecureSocket/main.cpp:362-441 | Ok, renegotiation and an incomplete record keep what is owed and what is at hand; a close or a fault means that nothing was owed |
| TlsSocket.TlsSocket.Receive | src/SecureSocket/main.cpp:457-470 | Receiving keeps what is owed and what lies ahead |
| TlsSocket.TlsSocket.Refill | src/SecureSocket/main.cpp:359-471 | The branch without plaintext: progress by a termination measure, a stop with nothing at hand, or one of three failures; receives only if nothing was copied and nothing was at hand |
| TlsSocket.TlsSocket.Turn | src/SecureSocket/main.cpp:333-472 | One turn of the loop decreases (unread network bytes, received, nothing decrypted, room), adds to the buffer what is taken from what is owed, and never receives after a byte was copied |
| TlsSocket.TlsSocket.Fill | src/SecureSocket/main.cpp:333-474 | The loop terminates, with everything copied accounted for and the exact condition for each way of leaving it |
| TlsSocket.TlsSocket.Read | src/SecureSocket/main.cpp:327-475 | Conservation of the stream over a call; 0 only at its end; short only with nothing at hand; no blocking with plaintext at hand; a close with bytes behind it is used up; the three ways to fail and what each loses |
| TlsSocket.TlsSocket.SendAll | src/SecureSocket/main.cpp:307-318 | All bytes of a record go out in order, or a prefix of them on failure |
| TlsSocket.TlsSocket.WriteRecord | src/SecureSocket/main.cpp:281-318 | One record is sealed from exactly the given plaintext and sent; on failure a prefix of it |
| TlsSocket.TlsSocket.Write | src/SecureSocket/main.cpp:276-325 | 0 with all records of the buffer sent, as few as hold it; -1 only after a failed send or encryption, with a prefix of them sent |
| TlsSession.ReadAll | src/SecureSocket/main.cpp:509-530 | Reading until the end with any positive buffer sizes ends, and returns all plaintext owed when it ends with 0, a prefix of it on failure, and more than it only behind a close |
| TlsSession.WriteAll | src/SecureSocket/main.cpp:276-325 | Any list of buffers: what is sent is a prefix of their records, all of them on success |
| TlsSession.ReadWritten | src/SecureSocket/main.cpp:327-475 | A reader with any part of the written stream: nothing lost, repeated or reordered, everything read if everything arrived, failure only with the socket |
| TlsSession.Session | src/SecureSocket/main.cpp:276-475 | Writer and reader from their constructors on, any part of the stream arriving: a prefix of what was written, all of it if it all arrived, each side failing only with its socket or its encryption |
| Coroutines.Eval | src/WinsockCoroutine/main.cpp:149-239 | A body that is sure to perform an operation has used up an answer when it ends |
| Coroutines.EvalUsesAnswers | src/WinsockCoroutine/main.cpp:114-134 | A run uses up exactly a front part of the answers, one for each operation performed, and all of them if it waits |
| Coroutines.PerformCompleted | src/WinsockCoroutine/main.cpp:291-303 | A body goes on with what its co_await gives: the error of an accept or connect that completed with one as an exception, else the new socket, nothing, or the bytes |
| Coroutines.PerformRefused | src/WinsockCoroutine/main.cpp:267-289 | A body goes on with the exception of an operation that could not be started |
| Coroutines.StackFinish | src/WinsockCoroutine/main.cpp:159-170 | A body that finishes hands its outcome to the caller waiting for it, without changing the whole run |
| Coroutines.StackPerform | src/WinsockCoroutine/main.cpp:321-341 | A body that performs an operation continues with the outcome of the next answer, or the whole stack waits |
| Coroutines.StackAwait | src/WinsockCoroutine/main.cpp:218-232 | Awaiting a task is running it on top of its caller: same operations, same outcome |
| Coroutines.EvalMonotone | src/WinsockCoroutine/main.cpp:114-134 | Further answers never change what happened before them |
| EventLoop.IoEventLoop.constructor | src/WinsockCoroutine/main.cpp:502-506 | A new task has not run: what is ahead is the whole direct-style run |
| EventLoop.IoEventLoop.Return | src/WinsockCoroutine/main.cpp:159-174 | The result or exception is stored, control passes to exactly the continuation, which reads it; without one the task has ended with that outcome |
| EventLoop.IoEventLoop.Call | src/WinsockCoroutine/main.cpp:220-224 | The caller becomes the continuation of the new task, and the chain of continuations grows by it |
| EventLoop.IoEventLoop.Continue | src/WinsockCoroutine/main.cpp:337-341 | The innermost coroutine runs on from its co_await with the outcome; no other frame changes |
| EventLoop.IoEventLoop.Start | src/WinsockCoroutine/main.cpp:267-289 | Issuing counts the operation exactly if it is in flight afterwards, whether it is refused before or after the count |
| EventLoop.IoEventLoop.Issue | src/WinsockCoroutine/main.cpp:321-335 | Afterwards either that one operation is in flight and names the coroutine, or the coroutine runs on with the exception |
| EventLoop.IoEventLoop.ActPerform | src/WinsockCoroutine/main.cpp:321-341 | Performing an operation, in flight or refused, keeps the run that has happened plus the run that is left |
| EventLoop.IoEventLoop.Deliver | src/WinsockCoroutine/main.cpp:123-132 | A completion resumes exactly the coroutine that issued it, with its result, and takes back the count |
| EventLoop.IoEventLoop.Act | src/WinsockCoroutine/main.cpp:149-239 | Every action on the heap keeps the run that has happened plus the run that is left |
| EventLoop.IoEventLoop.Resume | src/WinsockCoroutine/main.cpp:218-239 | Symmetric transfer ends, with one operation in flight or the task ended |
| EventLoop.IoEventLoop.Dispatch | src/WinsockCoroutine/main.cpp:123-132 | One packet keeps the whole run and brings its end nearer |
| EventLoop.IoEventLoop.Run | src/WinsockCoroutine/main.cpp:114-134 | At every test the count equals the operations in flight; the loop returns only when the task has ended |
| EventLoop.Execute | src/WinsockCoroutine/main.cpp:499-513 | Start, Run and await_resume perform the operations of the direct-style run and give its result or exception, or block with its pending operation in flight |
| EchoServer.ServerProductive | src/WinsockCoroutine/main.cpp:466-497 | The server coroutines perform an operation after finitely many awaits of tasks, whatever Associate does |
| EchoServer.HandleClientEchoes | src/WinsockCoroutine/main.cpp:465-489 | For all answers: what Associate throws; else the bytes submitted for sending are a prefix of those received, all of them at each receive and at the orderly end, which comes after a receive without bytes and only then |
| EchoServer.RecvEchoes | src/WinsockCoroutine/main.cpp:471-489 | The same from a pending receive on |
| EchoServer.SendEchoes | src/WinsockCoroutine/main.cpp:481-486 | The same from a pending send on |
| EchoServer.RecvConverses | src/WinsockCoroutine/main.cpp:472-489 | HandleClient receives up to 512 bytes, sends them back and receives again, for as long as data arrives; a receive without bytes ends it in an orderly way, a refused operation with its exception, and nothing else does |
| EchoServer.SendConverses | src/WinsockCoroutine/main.cpp:481-486 | The same from a pending send on |
| EchoServer.ServeHandles | src/WinsockCoroutine/main.cpp:491-497 | AcceptAndServe does what HandleClient does and ends with its exception, or without a result |
| EchoServer.ServerEchoes | src/WinsockCoroutine/main.cpp:465-497 | After the accept, the whole server echoes its client |
| EchoServer.Serve | src/WinsockCoroutine/main.cpp:499-513 | The server on the event loop, by its answers: a refused accept, one completed with an error, or a failing Associate is the exception of the task; else it is such a conversation, with all bytes accounted for at a pending receive, at a pending send and at its orderly end |
| CircularQueue.InsertAppends | src/ConditionVariables/ConditionVariables.cpp:51-55 | Inserting appends to the queue, wherever it wraps around |
| CircularQueue.RemoveTakesFirst | src/ConditionVariables/ConditionVariables.cpp:90-101 | Removing takes the oldest item |
| CircularQueue.Queue.constructor | src/ConditionVariables/ConditionVariables.cpp:11-17 | Room for ten items; the queue starts empty with both totals 0 |
| CircularQueue.Queue.Insert | src/ConditionVariables/ConditionVariables.cpp:51-55 | In place on the array: one item more at the end, one more in the total, which goes from 0xFFFFFFFF to 0 |
| CircularQueue.Queue.Remove | src/ConditionVariables/ConditionVariables.cpp:90-101 | In place on the array: the oldest item less, and it is the result; one more in the total, with the same wrap-around |
| ProducerConsumer.InvInitially | src/ConditionVariables/ConditionVariables.cpp:121-131 | The invariant holds at the start for any number of threads |
| ProducerConsumer.QueueStep | src/ConditionVariables/ConditionVariables.cpp:45-55 | Every step keeps the queue equal to what was inserted and not yet removed, in order, and the totals equal to the counts |
| ProducerConsumer.ItemStep | src/ConditionVariables/ConditionVariables.cpp:35-54 | Every step keeps items distinct, inserted or held |
| ProducerConsumer.LockStep | src/ConditionVariables/ConditionVariables.cpp:37-59 | Every step keeps the lock with whoever is inside, and with nobody else |
| ProducerConsumer.StopStep | src/ConditionVariables/ConditionVariables.cpp:84-88 | Exits happen only after the stop, those of consumers only with an empty queue; broadcasts leave nobody asleep |
| ProducerConsumer.CoveredOwnMove | src/ConditionVariables/ConditionVariables.cpp:76-101 | A thread's own steps keep enough threads of its side awake or about to be woken |
| ProducerConsumer.CoveredOtherMove | src/ConditionVariables/ConditionVariables.cpp:53-63 | So do the steps of the other side, although it wakes only after leaving the critical section |
| ProducerConsumer.CoveredMain | src/ConditionVariables/ConditionVariables.cpp:136-141 | So do the steps of the main thread |
| ProducerConsumer.InvStep | src/ConditionVariables/ConditionVariables.cpp:25-150 | Every step of every thread keeps the whole invariant |
| ProducerConsumer.RunKeepsInv | src/ConditionVariables/ConditionVariables.cpp:25-150 | So does every run |
| ProducerConsumer.Reachable | src/ConditionVariables/ConditionVariables.cpp:121-150 | Every state reachable from the start, with any number of threads, satisfies the invariant |
| ProducerConsumer.Fifo | src/ConditionVariables/ConditionVariables.cpp:51-55 | What was removed is a prefix of what was inserted, and the printed totals are the numbers of items inserted and removed, modulo 2^32 |
| ProducerConsumer.RunCounts | src/ConditionVariables/ConditionVariables.cpp:25-150 | Over any run, items drawn, inserted and removed are counted by its steps, and the stop by the main thread after the key |
| ProducerConsumer.CountsFromStart | src/ConditionVariables/ConditionVariables.cpp:121-141 | From the start: nothing is inserted or removed but by such a step, and there is no stop without the key |
| ProducerConsumer.CheckingDecides | src/ConditionVariables/ConditionVariables.cpp:39-49 | At its wait loop a producer sleeps exactly with ten items and no stop, leaves exactly after the stop, and else inserts; a consumer sleeps exactly with none and no stop, leaves exactly with none after it, and else removes |
| ProducerConsumer.WorkMoves | src/ConditionVariables/ConditionVariables.cpp:84-101 | A producer inserts the item it has drawn, a consumer removes the oldest one not yet removed |
| ProducerConsumer.ItemPasses | src/ConditionVariables/ConditionVariables.cpp:72-108 | A run in which a consumer goes to sleep, is woken by the first item, and gets it |
| ProducerConsumer.SpuriousWake | src/ConditionVariables/ConditionVariables.cpp:78-82 | A sleeping thread may wake up by itself at any time, and then has to enter the critical section and test again |
| ProducerConsumer.MainGoesOn | src/ConditionVariables/ConditionVariables.cpp:134-145 | The main thread waits for the key and the lock only |
| ProducerConsumer.ConsumedOnce | src/ConditionVariables/ConditionVariables.cpp:35-54 | No item is consumed twice, and only items that were produced |
| ProducerConsumer.NoLostWakeUp | src/ConditionVariables/ConditionVariables.cpp:39-63 | With items (or room), some thread of that side is awake or somebody is about to wake one |
| ProducerConsumer.Progress | src/ConditionVariables/ConditionVariables.cpp:25-145 | Some thread can step without a spurious wake-up and without a key press, until all have exited |
| ProducerConsumer.AwakeSomewhere | src/ConditionVariables/ConditionVariables.cpp:136-145 | If nobody is inside and nobody awake, the main thread still has a broadcast to do |
| ProducerConsumer.NothingInsertedAfterStop | src/ConditionVariables/ConditionVariables.cpp:45-49 | After the stop nothing is inserted, and the stop stays |
| ProducerConsumer.Drained | src/ConditionVariables/ConditionVariables.cpp:84-88 | Once a consumer has exited, everything produced was consumed and both totals are its number, modulo 2^32 |
| ProducerConsumer.StepsDecrease | src/ConditionVariables/ConditionVariables.cpp:136-145 | After the stop every step, spurious or not, brings the end nearer |
| ProducerConsumer.ShutdownEnds | src/ConditionVariables/ConditionVariables.cpp:136-149 | After the stop every run is bounded, and where it cannot go on all threads have exited, every item was consumed, and both totals are their number, modulo 2^32 |
| EchoConnections.InvInitially | src/WinSockIOCP/main.cpp:242-261 | With any number of workers the invariant holds at the start |
| EchoConnections.JobsStep | src/WinSockIOCP/main.cpp:168-237 | A step replaces one job by one other and changes no other job |
| EchoConnections.JobStep | src/WinSockIOCP/main.cpp:168-237 | A step's own job stays on a live connection inside its buffers, and leaves the bytes as the next stage needs them, unless received bytes stray |
| EchoConnections.SingleFlightStep | src/WinSockIOCP/main.cpp:196-237 | Every step keeps one job per live connection and none per deleted one |
| EchoConnections.InvStep | src/WinSockIOCP/main.cpp:168-281 | Every step keeps the whole invariant, unless received bytes stray |
| EchoConnections.RunKeepsInv | src/WinSockIOCP/main.cpp:196-281 | So does every run, and from the first stray bytes on it is at fault |
| EchoConnections.NoFault | src/WinSockIOCP/main.cpp:168-281 | With receives into RecvOp.Buffer no run touches a deleted connection, deletes one twice or leaves a buffer; as written, that holds if and only if no receive completes with data |
| EchoConnections.FirstBytesStray | src/WinSockIOCP/main.cpp:168-174 | As written, the first bytes of the first client leave every buffer of the server |
| EchoConnections.Exclusive | src/WinSockIOCP/main.cpp:204-236 | A worker has the connection it handles to itself: no other worker, operation or packet concerns it, nor the accept loop |
| EchoConnections.HandleDecides | src/WinSockIOCP/main.cpp:212-235 | A packet of a failed operation or without bytes deletes its connection, and no other packet does; received data is prepared to be sent, unchanged and alone in the buffer; after a send up to 4096 bytes are received |
| EchoConnections.LiveStep | src/WinSockIOCP/main.cpp:212-217 | No other step deletes a connection, and only an accept makes one |
| EchoConnections.AcceptRun | src/WinSockIOCP/main.cpp:266-281 | An accepted client has its receive out, for 4096 bytes, after three steps |
| EchoConnections.EchoRun | src/WinSockIOCP/main.cpp:196-235 | Whatever arrives is sent back by any free worker: dequeued, handled, posted and completed, sent equals received |
| EchoConnections.CloseRun | src/WinSockIOCP/main.cpp:212-217 | When the client closes, any free worker deletes its connection |
| EchoConnections.AbortRun | src/WinSockIOCP/main.cpp:212-217 | So it does after a failed operation, whatever that transferred |
| EchoConnections.DeadTouchFaults | src/WinSockIOCP/main.cpp:209-235 | Whatever touches a deleted connection is a fault, in any state |
| EchoConnections.DeadHandleFaults | src/WinSockIOCP/main.cpp:212-217 | So is handling a packet of a deleted connection, and deleting one twice |
| EchoConnections.DeletedHasNoJobs | src/WinSockIOCP/main.cpp:212-218 | After a delete nothing is left that could touch the connection |
| EchoConnections.EchoFidelity | src/WinSockIOCP/main.cpp:168-191 | Sent bytes are a prefix of received bytes, equal while a receive is out, and completed by the send buffer while a send is out |
| Framing.DwordRoundTrip | src/OldSspiSample/main.cpp:669-672 | A DWORD read from the bytes it was written as is the same DWORD |
| Framing.FrameBytes | src/OldSspiSample/main.cpp:636-651 | On the wire a message is its length, in four bytes, the lowest first, and then itself |
| Framing.UnframeFrame | src/OldSspiSample/main.cpp:628-697 | A frame at the front of a stream gives back its message and what follows |
| Framing.SendBytes | src/OldSspiSample/main.cpp:699-729 | All bytes in order over short sends; a prefix only after a failed send |
| Framing.ReceiveBytes | src/OldSspiSample/main.cpp:731-762 | True with min(asked, available) next bytes over any fragmentation, false only on error |
| Framing.SendMsg | src/OldSspiSample/main.cpp:628-654 | Puts the length in four bytes, lowest first, and the message on the wire; nothing for an empty message |
| Framing.ReceiveMsg | src/OldSspiSampleServer/main.cpp:642-688 | True exactly with the next frame, as long as its first four bytes say, lowest first, consuming its bytes only; false only on error, without a complete frame, or for one that announces more than the buffer holds |
| Framing.ReceiveNext | src/OldSspiSample/main.cpp:656-697 | On the frames of a list, one receive returns the next non-empty message, or there is none |
| Framing.SendList | src/OldSspiSampleServer/main.cpp:609-640 | Repeated sends put exactly the frames on the wire, or a prefix |
| Framing.ReceiveAll | src/OldSspiSample/main.cpp:656-697 | Repeated receives return exactly the non-empty messages in order and consume exactly their bytes |
| TokenExchange.InvStep | src/OldSspiSample/main.cpp:221-298 | Whatever the contexts do, tokens arrive once, in order and unchanged, with at most one on the way |
| TokenExchange.PastStep | src/OldSspiSampleServer/main.cpp:337-370 | Turns are taken only by a side that is not done and was sent something |
| TokenExchange.RunKeepsInv | src/OldSspiSampleServer/main.cpp:310-373 | So in every run, which has as many steps as turns were taken |
| TokenExchange.Progress | src/OldSspiSample/main.cpp:261-293 | With contexts that agree, one side can always go on until both have finished |
| TokenExchange.AgreementSuffices | src/OldSspiSampleServer/main.cpp:310-373 | Then every run is bounded, and can stop only with both finished, all tokens delivered and both streams empty |
| TokenExchange.AgreementNecessary | src/OldSspiSampleServer/main.cpp:310-373 | A run that gets there shows that the contexts agree |
| TokenExchange.ThreeTokens | src/OldSspiSample/main.cpp:221-298 | Contexts that agree exist: two tokens of the client and one of the server |
| MessageBlob.EncryptThis | src/OldSspiSampleServer/main.cpp:467-550 | The output is the size of the actual trailer, in four bytes, lowest first, the trailer and the encrypted message, inside the allocation; nothing exactly if EncryptMessage fails |
| MessageBlob.DecryptThis | src/OldSspiSample/main.cpp:424-499 | On any bytes: where the message is, by the trailer size in the first four bytes, and what DecryptMessage makes of it, if and only if the bytes have room for that trailer |
| MessageBlob.BlobFront | src/OldSspiSample/main.cpp:113-131 | The front of a blob that fits a buffer opens to the message if and only if it is the whole blob |
| MessageBlob.Display | src/OldSspiSample/main.cpp:113-131 | The client shows the message if and only if trailer and message fit 2048 bytes with their four bytes of size; it shows nothing only if nothing arrived, the receive failed, or they do not fit |
| MessageBlob.Transfer | src/OldSspiSampleServer/main.cpp:186-206 | Encrypted, sent, received until the server closes and decrypted: the message itself if and only if it fits 2048 bytes with its trailer and the four bytes of size; after a failed encryption nothing is sent and the client ends with an error |
| RingList.ListEntry.CopyTo | src/XSocket/List.cpp:35-49 | Copies the next bytes of the entry and advances it, inside the entry if and only if it is untouched or no more is asked for than it has left |
| RingList.List.constructor | src/XSocket/List.cpp:51-55 | An empty ring |
| RingList.List.Walk | src/XSocket/List.cpp:51-96 | Following links forward or backward visits all entries in order and returns to the sentinel |
| RingList.List.EmptyIff | src/XSocket/List.cpp:93-96 | IsEmpty holds exactly when there is no entry |
| RingList.List.Peek | src/XSocket/List.cpp:62-67 | The first entry |
| RingList.List.RemoveHead | src/XSocket/List.cpp:69-79 | The ring loses its first entry and stays well formed |
| RingList.List.AppendTail | src/XSocket/List.cpp:81-91 | The ring gains the entry at its end and stays well formed |
| ByteFifo.ContentsAppend | src/XSocket/Transport.cpp:46-53 | An entry at the end of the list adds its bytes at the end of the queue |
| ByteFifo.AdvanceKeeps | src/XSocket/Transport.cpp:90-101 | Reading from the first entry, and removing it when it is used up, takes the bytes read from the front of the queue |
| ByteFifo.CopyReadable | src/XSocket/List.cpp:40-42 | A copy stays inside the entry exactly for a readable length, and then what is still asked for is readable too |
| ByteFifo.DrainReadable | src/XSocket/Transport.cpp:86-102 | The loop of ReadData stays inside the entries if and only if the length is readable; then it returns min(asked, there) bytes, the oldest first, and keeps the rest |
| ByteFifo.IdealConserves | src/XSocket/Transport.cpp:17-109 | The plain byte queue loses, repeats and reorders nothing |
| ByteFifo.DoServes | src/XSocket/Transport.cpp:17-109 | One operation on the entries is that operation on the plain byte queue, unless it is an unreadable read |
| ByteFifo.PlayRefines | src/XSocket/Transport.cpp:17-109 | Over any session the entries behave as the plain byte queue up to the first unreadable read, and stop there only |
| ByteFifo.Fifo | src/XSocket/Transport.cpp:17-109 | Over any session, what was held and written is what was read and what is still held, in order |
| ByteFifo.PlaysOut | src/XSocket/Transport.cpp:72-109 | A session runs to its end if and only if every read in it is readable when it is made |
| ByteFifo.LeavesEntry | src/XSocket/List.cpp:40-42 | A buffer written, read in part and then asked for more than it has left: the copy leaves the entry |
| Transport.Transport.constructor | src/XSocket/Transport.cpp:7-10 | An empty queue on an empty list |
| Transport.Transport.Append | src/XSocket/Transport.cpp:49-53 | The entry goes to the end of the list, untouched |
| Transport.Transport.WriteData | src/XSocket/Transport.cpp:17-70 | The bytes are appended to the queue as an untouched entry; nothing for a null pointer or without memory |
| Transport.Transport.Take | src/XSocket/Transport.cpp:90-95 | One copy out of the first entry: the bytes, the new read position, and whether it stays inside |
| Transport.Transport.Drop | src/XSocket/Transport.cpp:97-101 | The list loses its first entry |
| Transport.Transport.Turn | src/XSocket/Transport.cpp:86-102 | One turn of the loop on the heap is one turn of it on values |
| Transport.Transport.Loop | src/XSocket/Transport.cpp:86-102 | The loop terminates, through empty entries too, and is the loop on values; a copy that would leave its entry is the first one |
| Transport.Transport.ReadData | src/XSocket/Transport.cpp:72-109 | Exactly min(asked, there) bytes, the oldest first, and the queue keeps the rest, if and only if the length is readable; nothing for a null pointer |
| Transport.Step | src/XSocket/main.cpp:238-279 | One operation of a session on the heap is that operation on values |
| Transport.Session | src/XSocket/Transport.cpp:17-109 | Any sequence of WriteData and ReadData calls on a transport is the plain byte queue and conserves every byte, and ends early exactly at the first unreadable read |
| MessagePipe.Pipe.ReadFile | src/SmallPipes/main.cpp:354-363 | A message-mode read: the rest of the message, or a full chunk with more data, or an error |
| MessagePipe.ChunksSuffice | src/SmallPipes/main.cpp:352-371 | The number of reads is the least that holds the message |
| MessagePipe.ReadPipe | src/SmallPipes/main.cpp:348-372 | Returns exactly the message after exactly that many reads, inside its growing buffer; throws only after a failed read |
| MessagePipe.WriteWithHeader | src/PipeMessages/main.cpp:202-208 | The message is 2 and 1, each in four bytes, lowest first, then the data, and as many zeros as there is data |
| MessagePipe.ReadWithHeader | src/PipeMessages/main.cpp:180-186 | The two numbers in the first eight bytes and the payload behind them, or an empty header for a message too short |
| MessagePipe.HeaderRoundTrip | src/PipeMessages/main.cpp:180-208 | The header comes back; the payload comes back as written if and only if it is empty |
| MessagePipe.Exchange | src/PipeMessages/main.cpp:154-208 | Written with a header and read in chunks: the header, then the data followed by as many zeros |
| Strings.Find | src/ExecuteCmd/main.cpp:81 | The first occurrence at or after a position, and none before it |
| Strings.FindFirst | src/ExecuteCmd/main.cpp:81 | Where there is an occurrence, the search finds one, and none later |
| Strings.JoinTokens | src/ExecuteCmd/main.cpp:69-97 | Joining the tokens with the delimiter gives the string back |
| Strings.TokensWithout | src/ExecuteCmd/main.cpp:69-97 | No token contains the delimiter |
| Strings.FindRest | src/WebSocketProto/WinHttpWebSocket.cpp:22 | Searching from a position is searching the rest of the string |
| Strings.Split | src/ExecuteCmd/main.cpp:69-97 | The loop terminates with the tokens between leftmost occurrences |
| Strings.Replace | src/WebSocketProto/WinHttpWebSocket.cpp:14-32 | The loop terminates with exactly those tokens joined by the replacement |

## Left out

- TlsSocket.TlsSocket.Write: asks for stream sizes that fit the record buffer, as the assertion in the source does, and for a maximum message size of at least 1, without which the source would loop.
- TlsSocket.SecurityContext.EncryptMessage: the header and data sizes are taken to stay as announced; only the trailer may shrink.
- EventLoop.IoEventLoop.Run: one task per loop, as in both programs; closing of sockets and destruction of finished frames are not modelled.
- ProducerConsumer.ConsumedOnce: an item is its number; the 32-bit wrap-around of `LastItemProduced` is not modelled, while that of the two totals is.
- ProducerConsumer.Progress: whether the scheduler lets the thread step, and when the key is pressed, is left open.
- EchoConnections.EchoFidelity: a send that completes has sent everything, as the server assumes.
- Framing.SendBytes: lengths below 2^31; longer ones become negative in the `int` the source counts with, and what `send` does with a negative length is not specified.
- Framing.ReceiveBytes: the same, for `recv`.
- Framing.SendMsg: the same, through `SendBytes`.
- MessagePipe.ReadPipe: chunk sizes of at least 1.
- Strings.Split: non-empty delimiters; the source does not end on an empty one, and neither does `Replace`.
- `tls_connect` and `tls_disconnect`: the handshake depends on Schannel, and its send loop adds nothing to that of `tls_write`.
- The client coroutine of WinsockCoroutine: a connect and three exchanges in a straight line, over the same awaitables.
- The unreachable graceful shutdown of WinSockIOCP.
- Cryptography, certificates, address lookup, socket set-up, printing and logging.
- Transport.Session: the critical sections of the two threads are taken as calls one after another, and what a copy outside its entry would do to memory is not modelled.
- TokenExchange.InvStep: a security context that fails ends its program; such a run simply stops.
- Box and anchor layout: pixel arithmetic on the positions of windows, in part in floating point, without buffers, order or a protocol.
- The string trimming of ExecuteCmd: one library search from either end of a string.
- The overlapped pipe functions of SmallPipes: their results depend on the inside of OVERLAPPED and on the timing of the last error.
