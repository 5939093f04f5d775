# UnitedNetworkPlugin TCP transport, modelled in Dafny

The plugin replaces Unreal's UDP transport with one TCP connection from a
client to a server. It has two classes:

- `UUnitedNetDriver`, the net driver. It opens the socket and starts a
  receive thread (`FTcpRecvRunnable`). It queues the packets the engine
  sends and flushes them once per tick. It tears everything down on shutdown.
- `UUnitedNetConnection`, the client connection the driver creates. It
  turns the engine's bit-counted sends into byte packets for the driver's
  queue. It passes received packets on to the engine.

On the wire every packet travels as a frame: a 4-byte length in network
order (big-endian `uint32`), then that many payload bytes. The receive
thread appends whatever the socket returns to a buffer. It then cuts
complete frames off the front, remembering a consumed header's length in
`ExpectedSize` (0 means "no header yet"). It posts each payload to the game
thread.

Files:

- `bytes.dfy` (module `Bytes`): bytes, `uint32`, the `int32` reinterpretation
  cast, and the network-order length field with its round-trip lemmas.
- `framing.dfy` (module `Framing`): the frame built for a packet (`Encode`)
  and a reference decoder `Split`. `Split` peels complete frames off a byte
  stream. It stops at an incomplete frame or at a header longer than any
  packet. The file also holds the decoder's properties: round trip,
  resumability across chunk boundaries, ordering, and the zero-length frame.
- `sockets.dfy` (module `Sockets`): the socket as the driver sees it. It has
  flags for connected, no-delay, closed and destroyed, plus the bytes sent.
  It also records which fallible platform steps succeed.
- `receiver.dfy` (module `Receiver`): `FTcpRecvRunnable` as a class over its
  `Stream`, `ExpectedSize` and stop flag. Its methods are proved against
  `Split`. The buffered state is described by `Pending()`, the wire bytes
  not yet handed off, with a consumed header put back in front.
- `united_net.dfy` (module `UnitedNet`): the driver, the connection, the
  receive thread handle, and the start-up error texts.

## Model

| member | source | states |
|---|---|---|
| Bytes.Int32Of | Plugins/UnitedNetworkPlugin/Source/UnitedNetworkPlugin/Private/UnitedNetDriver.cpp:84 | `static_cast<int32>` of a `uint32` lies in the int32 range. It is non-negative exactly when the value is at most 2^31-1, and then it equals the value; otherwise it is the value minus 2^32 |
| Bytes.BigEndian32 | Plugins/UnitedNetworkPlugin/Source/UnitedNetworkPlugin/Private/UnitedNetDriver.cpp:259-261 | the length field `htonl` leaves in memory is four bytes, most significant first: the first byte is the length divided by 2^24, the last is the length modulo 256 |
| Bytes.ReadBigEndian32 | Plugins/UnitedNetworkPlugin/Source/UnitedNetworkPlugin/Private/UnitedNetDriver.cpp:78-80 | the length `ntohl` gives for the copied header takes the first byte as its most significant (the length divided by 2^24) and the fourth as its least (the length modulo 256) |
| Bytes.ReadWriteBigEndian32 | Plugins/UnitedNetworkPlugin/Source/UnitedNetworkPlugin/Private/UnitedNetDriver.cpp:259-261 | reading back the four network-order bytes written for a length gives that length (`ntohl` after `htonl`) |
| Bytes.WriteReadBigEndian32 | Plugins/UnitedNetworkPlugin/Source/UnitedNetworkPlugin/Private/UnitedNetDriver.cpp:78-80 | the four header bytes are exactly the network-order encoding of the length read from them |
| Bytes.ReadBigEndian32Injective | Plugins/UnitedNetworkPlugin/Source/UnitedNetworkPlugin/Private/UnitedNetDriver.cpp:78-80 | two 4-byte headers that read as the same length are the same bytes |
| Framing.Encode | Plugins/UnitedNetworkPlugin/Source/UnitedNetworkPlugin/Private/UnitedNetDriver.cpp:259-262 | a packet's frame is 4 bytes longer than the packet, its header reads back as the packet's length, and the bytes after the header are the packet unchanged |
| Framing.EncodeAll | Plugins/UnitedNetworkPlugin/Source/UnitedNetworkPlugin/Private/UnitedNetDriver.cpp:254-262 | the bytes written for a batch are empty exactly when the batch is, and hold at least 4 bytes per packet |
| Framing.EncodeAllAppend | Plugins/UnitedNetworkPlugin/Source/UnitedNetworkPlugin/Private/UnitedNetDriver.cpp:254-267 | the stream for two packet sequences sent one after the other is the first stream followed by the second |
| Framing.Split | Plugins/UnitedNetworkPlugin/Source/UnitedNetworkPlugin/Private/UnitedNetDriver.cpp:72-98 | decoding stops with the oversized flag exactly when the leftover starts with a header longer than 2^31-1; otherwise the leftover holds no complete frame |
| Framing.SplitEncodeAll | Plugins/UnitedNetworkPlugin/Source/UnitedNetworkPlugin/Private/UnitedNetDriver.cpp:72-98 | decoding a run of frames followed by any bytes yields those packets first, in order, then whatever the following bytes decode to |
| Framing.SplitDecomposes | Plugins/UnitedNetworkPlugin/Source/UnitedNetworkPlugin/Private/UnitedNetDriver.cpp:86-88 | decoding only cuts: the decoded packets, re-framed, followed by the leftover bytes, are exactly the input |
| Framing.RoundTrip | Plugins/UnitedNetworkPlugin/Source/UnitedNetworkPlugin/Private/UnitedNetDriver.cpp:259-262 | decoding the frames built for a packet sequence yields exactly that sequence, with nothing left over and no oversized header |
| Framing.SplitAppend | Plugins/UnitedNetworkPlugin/Source/UnitedNetworkPlugin/Private/UnitedNetDriver.cpp:46-47 | resumability: decoding `s + more` gives the packets of `s`, then what the leftover of `s` followed by `more` decodes to. So how the bytes are split across reads does not change the packets |
| Framing.SplitAfterOversized | Plugins/UnitedNetworkPlugin/Source/UnitedNetworkPlugin/Private/UnitedNetDriver.cpp:84-87 | once decoding stops at an oversized header, bytes received later add no packet and stay behind that header |
| Framing.EmptyPacketFrame | Plugins/UnitedNetworkPlugin/Source/UnitedNetworkPlugin/Private/UnitedNetDriver.cpp:84-89 | an empty packet is sent as the header 00 00 00 00 and decoded as one empty packet, although a zero `ExpectedSize` also means "no header yet" |
| Framing.FramePrefixIncomplete | Plugins/UnitedNetworkPlugin/Source/UnitedNetworkPlugin/Private/UnitedNetDriver.cpp:74-84 | any strict prefix of a frame decodes to no packet and is kept whole as leftover |
| Framing.PartialTrailingFrame | Plugins/UnitedNetworkPlugin/Source/UnitedNetworkPlugin/Private/UnitedNetDriver.cpp:84 | a frame followed by part of the next decodes to the first packet and keeps the partial bytes; the missing bytes then complete the second packet |
| Framing.SplitFrameWaits | Plugins/UnitedNetworkPlugin/Source/UnitedNetworkPlugin/Private/UnitedNetDriver.cpp:84 | a header followed by a body shorter than its length, or a header longer than any packet, decodes to no packet |
| Framing.SplitFrameComplete | Plugins/UnitedNetworkPlugin/Source/UnitedNetworkPlugin/Private/UnitedNetDriver.cpp:86-89 | a header followed by a body holding its whole payload yields the body's first `length` bytes as one packet, and decoding resumes after them |
| Framing.FrameOfHeader | Plugins/UnitedNetworkPlugin/Source/UnitedNetworkPlugin/Private/UnitedNetDriver.cpp:86-88 | such a header and body are exactly the frame of the cut packet followed by the rest of the body |
| Framing.WaitsForPayload | Plugins/UnitedNetworkPlugin/Source/UnitedNetworkPlugin/Private/UnitedNetDriver.cpp:84 | the guard with the `int32` cast, as written: for every length up to 2^31-1 it waits exactly when fewer bytes than the length are buffered; for a longer length it never waits |
| Framing.OversizedSlipsThroughGuard | Plugins/UnitedNetworkPlugin/Source/UnitedNetworkPlugin/Private/UnitedNetDriver.cpp:84 | for a length of 2^31 or more the guard never waits, whatever is buffered. Example: the header 80 00 00 00 with no payload passes the guard, and the reference decoder rejects it |
| Receiver.InboundAppend | Plugins/UnitedNetworkPlugin/Source/UnitedNetworkPlugin/Private/UnitedNetDriver.cpp:39-55 | the bytes delivered by two runs of socket answers are those of the first run followed by those of the second |
| Receiver.ResumeSplit | Plugins/UnitedNetworkPlugin/Source/UnitedNetworkPlugin/Private/UnitedNetDriver.cpp:46-47 | decoding resumed from the leftover once a chunk arrives continues the packet sequence, leftover and oversized flag of decoding everything at once |
| Receiver.RecvRunnable.constructor | Plugins/UnitedNetworkPlugin/Source/UnitedNetworkPlugin/Private/UnitedNetDriver.cpp:30-31 | a new runnable holds its socket, is not stopped, has an empty buffer, no pending header and no packets posted |
| Receiver.RecvRunnable.Stop | Plugins/UnitedNetworkPlugin/Source/UnitedNetworkPlugin/Private/UnitedNetDriver.cpp:59 | sets the stop flag |
| Receiver.RecvRunnable.TakeHeader | Plugins/UnitedNetworkPlugin/Source/UnitedNetworkPlugin/Private/UnitedNetDriver.cpp:74-82 | with no header pending and 4 or more bytes buffered, the network-order length of the first 4 bytes goes into `expectedSize` and exactly those 4 bytes are removed. With fewer than 4 bytes it returns and changes nothing. With a header pending it changes nothing. In every case the pending wire bytes are unchanged |
| Receiver.RecvRunnable.NextFrame | Plugins/UnitedNetworkPlugin/Source/UnitedNetworkPlugin/Private/UnitedNetDriver.cpp:74-89 | one loop pass is one decoder step. Either it waits, leaving nothing decodable and the state settled; or it stops at an oversized header; or it cuts one packet, whose frame is exactly the front of the pending bytes, and resets `expectedSize` to 0 |
| Receiver.RecvRunnable.ProcessStream | Plugins/UnitedNetworkPlugin/Source/UnitedNetworkPlugin/Private/UnitedNetDriver.cpp:69-99 | posts exactly the packets the reference decoder finds in the pending bytes, in stream order, after those already posted. It keeps exactly the decoder's leftover. `overrun` reports an oversized header. Otherwise at most one incomplete frame remains buffered |
| Receiver.RecvRunnable.Receive | Plugins/UnitedNetworkPlugin/Source/UnitedNetworkPlugin/Private/UnitedNetDriver.cpp:46-47 | appending a read's bytes and extracting frames posts the packets the decoder finds in the old pending bytes followed by the new ones |
| Receiver.RecvRunnable.Run | Plugins/UnitedNetworkPlugin/Source/UnitedNetworkPlugin/Private/UnitedNetDriver.cpp:33-57 | if stopped on entry, nothing changes. Otherwise the packets posted are exactly those the decoder finds in the pending bytes followed by everything the socket delivered, however the reads split it. `overrun` is the decoder's oversized flag, and the state is settled otherwise |
| Receiver.RecvRunnable.SettledPendingDecodesNothing | Plugins/UnitedNetworkPlugin/Source/UnitedNetworkPlugin/Private/UnitedNetDriver.cpp:76-84 | a buffer holding only a partial header or a partial payload decodes to no packet |
| UnitedNet.FirstFailure | Plugins/UnitedNetworkPlugin/Source/UnitedNetworkPlugin/Private/UnitedNetDriver.cpp:143-192 | start-up succeeds exactly when all five platform steps succeed. The subsystem lookup is reported exactly when it fails. A thread-creation failure is reported only when every earlier step succeeded |
| UnitedNet.StartError | Plugins/UnitedNetworkPlugin/Source/UnitedNetworkPlugin/Private/UnitedNetDriver.cpp:146-181 | every failing start-up step reports a non-empty text that differs from the client-only refusal |
| UnitedNet.StartErrorsDistinct | Plugins/UnitedNetworkPlugin/Source/UnitedNetworkPlugin/Private/UnitedNetDriver.cpp:146-181 | the five start-up error texts are pairwise different and differ from the client-only refusal, so the error names the failed step |
| UnitedNet.EffectivePort | Plugins/UnitedNetworkPlugin/Source/UnitedNetworkPlugin/Private/UnitedNetDriver.cpp:124 | the port is always positive: the URL's port when it is positive, 7777 otherwise |
| UnitedNet.BytesForBits | Plugins/UnitedNetworkPlugin/Source/UnitedNetworkPlugin/Private/UnitedNetConnection.cpp:11 | the byte count holds all the bits (`8n >= bits`) and no whole byte more (`8(n-1) < bits`, so 0 bits give 0 bytes) |
| UnitedNet.RecvThread.Kill | Plugins/UnitedNetworkPlugin/Source/UnitedNetworkPlugin/Private/UnitedNetDriver.cpp:199 | after `Kill(true)` the runnable's stop flag is set and the thread is no longer running |
| UnitedNet.UnitedNetConnection.constructor | Plugins/UnitedNetworkPlugin/Source/UnitedNetworkPlugin/Private/UnitedNetDriver.cpp:133-136 | the new connection is bound to the driver, open, and has received nothing |
| UnitedNet.UnitedNetConnection.LowLevelSend | Plugins/UnitedNetworkPlugin/Source/UnitedNetworkPlugin/Private/UnitedNetConnection.cpp:9-19 | with a driver of this kind, exactly one packet is added at the tail of its queue: the first `BytesForBits(countBits)` bytes of the data, unmodified. With no such driver nothing changes |
| UnitedNet.UnitedNetConnection.ReceivedRawPacket | Plugins/UnitedNetworkPlugin/Source/UnitedNetworkPlugin/Private/UnitedNetConnection.cpp:21-25 | the packet is passed on unchanged, after those passed before |
| UnitedNet.UnitedNetConnection.LowLevelGetRemoteAddress | Plugins/UnitedNetworkPlugin/Source/UnitedNetworkPlugin/Private/UnitedNetConnection.cpp:32-35 | always the text "UnitedTCPRemote", whether or not a port is asked for |
| UnitedNet.UnitedNetDriver.constructor | Plugins/UnitedNetworkPlugin/Source/UnitedNetworkPlugin/Private/UnitedNetDriver.cpp:103-108 | socket, thread and runnable pointers are null; there is no server connection and the queue is empty |
| UnitedNet.UnitedNetDriver.StartSocket | Plugins/UnitedNetworkPlugin/Source/UnitedNetworkPlugin/Private/UnitedNetDriver.cpp:143-192 | succeeds exactly when every step succeeds. Success leaves a fresh socket connected to host:port with no-delay set, and a fresh running thread whose fresh runnable owns that socket. The new socket has sent nothing, and the runnable has an empty buffer, no pending header and no packets posted. Failure reports the first failing step's text. After any step past the subsystem lookup fails, `Socket` is null. A socket created before a failure is destroyed, and closed first only when thread creation failed. A thread failure leaves `RecvThread` and `RecvRunnable` null |
| UnitedNet.UnitedNetDriver.InitBase | Plugins/UnitedNetworkPlugin/Source/UnitedNetworkPlugin/Private/UnitedNetDriver.cpp:110-141 | a server-side request fails with the client-only text and changes no pointer. A client request succeeds exactly when StartSocket does, using the URL's port or 7777. On success the socket is running and a fresh open connection bound to this driver becomes the server connection, and the caller's error text is left alone. The socket, thread and runnable are fresh; the socket has sent nothing and the runnable starts empty. On failure the error is StartSocket's, and the pointers are cleaned up as StartSocket leaves them: `Socket` null after any step past the subsystem lookup, `RecvThread` and `RecvRunnable` null after a thread failure and unchanged otherwise |
| UnitedNet.UnitedNetDriver.StopSocket | Plugins/UnitedNetworkPlugin/Source/UnitedNetworkPlugin/Private/UnitedNetDriver.cpp:194-211 | afterwards all three pointers are null. A runnable that was set is stopped, a thread that was set is killed, and a socket that was set is closed and destroyed. With all pointers already null nothing else can change, so a second call does nothing |
| UnitedNet.UnitedNetDriver.Shutdown | Plugins/UnitedNetworkPlugin/Source/UnitedNetworkPlugin/Private/UnitedNetDriver.cpp:213-224 | everything StopSocket promises. In addition the server connection, if any, is closed and the pointer cleared, which makes later HandleIncomingPacket calls do nothing |
| UnitedNet.UnitedNetDriver.HandleIncomingPacket | Plugins/UnitedNetworkPlugin/Source/UnitedNetworkPlugin/Private/UnitedNetDriver.cpp:226-236 | with a server connection the packet reaches its receive path unchanged, after earlier ones; without one nothing changes |
| UnitedNet.UnitedNetDriver.EnqueueOutgoingPacket | Plugins/UnitedNetworkPlugin/Source/UnitedNetworkPlugin/Private/UnitedNetDriver.cpp:238-242 | the packet is added at the tail of the queue and nothing else changes |
| UnitedNet.UnitedNetDriver.FlushOutgoingSends | Plugins/UnitedNetworkPlugin/Source/UnitedNetworkPlugin/Private/UnitedNetDriver.cpp:244-268 | the queue is left empty. With a socket, the bytes sent grow by one frame per queued packet, in queue order, and by nothing for an empty queue. Without a socket the packets are dropped |
| UnitedNet.UnitedNetDriver.TickDispatch | Plugins/UnitedNetworkPlugin/Source/UnitedNetworkPlugin/Private/UnitedNetDriver.cpp:270-277 | one tick flushes the queue as FlushOutgoingSends does |
| UnitedNet.FlushesDecodeInOrder | Plugins/UnitedNetworkPlugin/Source/UnitedNetworkPlugin/Private/UnitedNetDriver.cpp:254-262 | the bytes of two successive flushes decode to all the flushed packets, in queue order, with nothing left over |

## Left out

- Socket I/O is reduced to outcomes. `Recv` is a sequence of answers given to `Run`. `Send` appends to the socket's byte record. `Connect`, `CreateSocket`, `SetIp` and thread creation succeed or fail as the `Platform` value says. Parsing the host text as an IP address is not modelled.
- UnitedNet.UnitedNetDriver.FlushOutgoingSends: each `Send` is taken to write the whole frame. The partial-send count the code ignores (lines 264-266) is not modelled.
- Threads run one step at a time. The receive thread and the game thread do not interleave. `FThreadSafeBool`, the queue mutex and the 2 ms sleep are left out. The `AsyncTask` handoff is an in-order append to `handoffs`. No step moves those packets to `HandleIncomingPacket`, which is modelled on its own. The lambda's captured `this` pointer, which may outlive a deleted runnable, is not modelled.
- Receiver.RecvRunnable.Run: requires a settled buffer, which a fresh runnable has. The 4096-byte read buffer is not modelled: a read may deliver any number of bytes. It returns `overrun` where the C++ copy at lines 87-88 would run with an invalid count (see Findings) instead of modelling that memory access.
- UnitedNet.RecvThread.Kill: the ordering "stop flag set, then thread killed" in StopSocket is not captured by the postconditions. Only the resulting state is.
- Engine calls are not modelled: `Super::Shutdown`, `Super::TickDispatch`, `Super::CleanUp` (so `CleanUp` has no member), the body of `UNetConnection::ReceivedRawPacket`, `UNetConnection::Close` beyond clearing `open`, `InitConnection` beyond marking the connection open, the `Notify` pointer and logging.
- UnitedNet.UnitedNetDriver.HandleIncomingPacket: the server connection is always a `UUnitedNetConnection` here, so the cast at line 231 is taken to succeed.
- UnitedNet.UnitedNetConnection.LowLevelSend: requires `0 <= countBits <= 2^31 - 8` and a data buffer holding the rounded-up byte count. Negative counts and the overflow of `countBits + 7` in `DivideAndRoundUp` are not modelled.
- Memory management is not modelled: `delete`, `DestroySocket` freeing the handle, and the leak when `StartSocket` overwrites pointers that are already set.
- Integer widths are unbounded except where they matter: the `uint32` length field, its `int32` cast, and the `int32` bound on array sizes (`Packet` holds at most 2^31-1 bytes). The receive buffer's own growth is unbounded.

## Findings

| source | as written | input that shows it | evidently intended | confidence | as-written member | corrected member |
|---|---|---|---|---|---|---|
| Plugins/UnitedNetworkPlugin/Source/UnitedNetworkPlugin/Private/UnitedNetDriver.cpp:84 | the "enough bytes buffered" guard compares with `static_cast<int32>(ExpectedSize)`, which is negative for a declared length of 2^31 or more, so the guard lets the payload copy at line 87 proceed with fewer bytes than requested | a peer sends the header 80 00 00 00 and no payload; the guard does not wait, and `TArray::Append` and `RemoveAt` at lines 87-88 receive the count as an `int32`, so 0x80000000 arrives as -2^31 and the allocation and copy are undefined (an invalid-size failure or an out-of-bounds copy) | treat such a length as invalid, and never copy more bytes than are buffered | medium, not executed | Framing.OversizedSlipsThroughGuard | Receiver.RecvRunnable.ProcessStream |
