/** The receive thread of the TCP net driver (FTcpRecvRunnable): it reads the
    socket, reassembles length-prefixed frames from the byte stream and posts
    each payload to the game thread. */
module Receiver {
  import opened Bytes
  import opened Framing
  import opened Sockets

  /** One answer of the receive thread's `Recv` call: it succeeded with the
      bytes read (possibly none), or it failed and the thread sleeps briefly. */
  datatype RecvResult = Received(bytes: seq<byte>) | RecvFailed

  /** The bytes the successful answers among `answers` delivered, in order. */
  function Inbound(answers: seq<RecvResult>): seq<byte>
  {
    if answers == [] then [] else Inbound(answers[..|answers| - 1]) + BytesOf(answers[|answers| - 1])
  }

  /** The bytes one answer delivers. */
  function BytesOf(a: RecvResult): seq<byte>
  {
    if a.Received? then a.bytes else []
  }

  lemma {:induction false} InboundAppend(a: seq<RecvResult>, b: seq<RecvResult>)
    ensures Inbound(a + b) == Inbound(a) + Inbound(b)
    decreases |b|
  {
    if b == [] {
      assert a + b == a;
    } else {
      assert (a + b)[..|a + b| - 1] == a + b[..|b| - 1];
      InboundAppend(a, b[..|b| - 1]);
      AppendAssoc(Inbound(a), Inbound(b[..|b| - 1]), BytesOf(b[|b| - 1]));
    }
  }

  /** Before any answer, nothing has been read. */
  lemma InboundNone(answers: seq<RecvResult>)
    ensures Inbound(answers[..0]) == []
  {
    assert answers[..0] == [];
  }

  /** Reading one more answer appends the bytes it delivers. */
  lemma InboundStep(answers: seq<RecvResult>, i: nat)
    requires i < |answers|
    ensures Inbound(answers[..i + 1]) == Inbound(answers[..i]) + BytesOf(answers[i])
  {
    assert answers[..i + 1][..i] == answers[..i];
  }

  /** Decoding resumed from the leftover of `seen` once `chunk` arrives
      continues the packet sequence decoded from `seen + chunk`. */
  lemma ResumeSplit(done: seq<Packet>, seen: seq<byte>, chunk: seq<byte>)
    ensures (done + Split(seen).frames) + Split(Split(seen).rest + chunk).frames
      == done + Split(seen + chunk).frames
    ensures Split(Split(seen).rest + chunk).rest == Split(seen + chunk).rest
    ensures Split(Split(seen).rest + chunk).oversized == Split(seen + chunk).oversized
  {
    SplitAppend(seen, chunk);
    PacketsAssoc(done, Split(seen).frames, Split(Split(seen).rest + chunk).frames);
  }

  /** What one pass of the extraction loop did: it found no complete frame,
      met a header no packet can have, or cut off one packet. */
  datatype Extraction = NeedMore | Overrun | Took(packet: Packet)

  /** The receive thread's state: its reassembly buffer, the length of the
      frame whose header it has consumed (0 while it waits for a header), the
      stop flag, and the packets it has posted to the game thread, in order. */
  class RecvRunnable {
    const socket: Socket
    var stop: bool
    var stream: seq<byte>
    var expectedSize: uint32
    var handoffs: seq<Packet>

    constructor (socket: Socket)
      ensures this.socket == socket
      ensures !stop && stream == [] && expectedSize == 0 && handoffs == []
    {
      this.socket := socket;
      stop := false;
      stream := [];
      expectedSize := 0;
      handoffs := [];
    }

    /** The received wire bytes not yet handed off: when a header has already
        been consumed into expectedSize, it is put back in front of the buffer. */
    ghost function Pending(): seq<byte>
      reads this
    {
      if expectedSize == 0 then stream else BigEndian32(expectedSize) + stream
    }

    /** At most one incomplete frame is buffered: a partial header, or the
        partial payload of a frame whose (representable) length is known. */
    predicate Settled()
      reads this
    {
      expectedSize <= MaxPacketLen &&
      if expectedSize == 0 then |stream| < 4 else |stream| < expectedSize
    }

    /** Requests the thread's loop to end. */
    method Stop()
      modifies this`stop
      ensures stop
    {
      stop := true;
    }

    /** The first half of a pass of the extraction loop
        (UnitedNetDriver.cpp:73-82): with no header pending, wait for four
        bytes, then read the length in network order into expectedSize and
        drop those bytes. `header` is the pending frame's header, consumed or
        not; the pending wire bytes are that header and the buffer. */
    method TakeHeader() returns (ready: bool, ghost header: seq<byte>)
      modifies this`stream, this`expectedSize
      ensures !ready ==>
        Split(old(Pending())) == Parse([], old(Pending()), false) && Pending() == old(Pending()) &&
        Settled()
      ensures ready ==> |header| == 4 && ReadBigEndian32(header) == expectedSize
      ensures ready ==> old(Pending()) == header + stream
      ensures ready && expectedSize != 0 ==> header == BigEndian32(expectedSize)
      ensures old(expectedSize) != 0 ==> ready && stream == old(stream) && expectedSize == old(expectedSize)
      ensures old(expectedSize) == 0 && |old(stream)| < 4 ==> !ready && stream == old(stream) && expectedSize == 0
      ensures old(expectedSize) == 0 && |old(stream)| >= 4 ==>
        ready && expectedSize == ReadBigEndian32(old(stream)) && stream == old(stream)[4..]
    {
      if expectedSize != 0 {
        ReadWriteBigEndian32(expectedSize);
        return true, BigEndian32(expectedSize);
      }
      if |stream| < 4 {
        SplitIncomplete(stream);
        return false, [];
      }
      header := stream[..4];
      HeaderOf(stream);
      expectedSize := ReadBigEndian32(stream);
      stream := stream[4..];
      WriteReadBigEndian32(old(stream));
      return true, header;
    }

    /** One pass of the extraction loop (UnitedNetDriver.cpp:73-89): consume
        a header if none is pending, then cut off the payload if it has fully
        arrived. In terms of the pending wire bytes this is exactly one step of
        the reference decoder. */
    method NextFrame() returns (step: Extraction)
      modifies this`stream, this`expectedSize
      ensures step.NeedMore? ==>
        Split(old(Pending())) == Parse([], old(Pending()), false) && Pending() == old(Pending()) && Settled()
      ensures step.Overrun? ==>
        Split(old(Pending())) == Parse([], old(Pending()), true) && Pending() == old(Pending())
      ensures step.Took? ==>
        Split(old(Pending())) == Prepend([step.packet], Split(Pending())) &&
        old(Pending()) == Encode(step.packet) + Pending() && expectedSize == 0
    {
      var ready, header := TakeHeader();
      if !ready {
        return NeedMore;
      }
      if WaitsForPayload(|stream|, expectedSize) {
        SplitFrameWaits(header, stream);
        return NeedMore;
      }
      if expectedSize > MaxPacketLen {
        SplitFrameWaits(header, stream);
        return Overrun;
      }
      SplitFrameComplete(header, stream);
      FrameOfHeader(header, stream);
      var packet: Packet := stream[..expectedSize];
      stream := stream[expectedSize..];
      expectedSize := 0;
      return Took(packet);
    }

    /** Extracts every complete frame from the buffer, in stream order, and
        posts each payload to the game thread. `overrun` reports that a header
        declared 2^31 bytes or more: the int32 guard then lets the payload copy
        run past the buffer, and the thread cannot go on. */
    method ProcessStream() returns (overrun: bool)
      modifies this`stream, this`expectedSize, this`handoffs
      ensures handoffs == old(handoffs) + Split(old(Pending())).frames
      ensures Pending() == Split(old(Pending())).rest
      ensures overrun == Split(old(Pending())).oversized
      ensures !overrun ==> Settled()
    {
      ghost var acc: seq<Packet> := [];
      ghost var whole := Split(Pending());
      AppendNothing(whole.frames);
      while true
        invariant handoffs == old(handoffs) + acc
        invariant whole == Prepend(acc, Split(Pending()))
        decreases |Pending()|
      {
        var step := NextFrame();
        if !step.Took? {
          AppendNothing(acc);
          return step.Overrun?;
        }
        handoffs := handoffs + [step.packet];
        PrependPrepend(acc, [step.packet], Split(Pending()));
        acc := acc + [step.packet];
      }
    }

    /** One successful read of `bytes` (lines 46-47): append them to the
        buffer, then extract the frames now complete. */
    method Receive(bytes: seq<byte>) returns (overrun: bool)
      requires |bytes| > 0
      modifies this`stream, this`expectedSize, this`handoffs
      ensures handoffs == old(handoffs) + Split(old(Pending()) + bytes).frames
      ensures Pending() == Split(old(Pending()) + bytes).rest
      ensures overrun == Split(old(Pending()) + bytes).oversized
      ensures !overrun ==> Settled()
    {
      if expectedSize != 0 {
        AppendAssoc(BigEndian32(expectedSize), stream, bytes);
      }
      stream := stream + bytes;
      overrun := ProcessStream();
    }

    /** The thread body: until the stop flag is seen, each successful read
        that returns bytes is passed to Receive; a failed read only sleeps.
        `answers` are the socket's answers, in order. Since frames are decoded
        from the concatenation of everything read, how the bytes happen to be
        split across reads does not matter. */
    method Run(answers: seq<RecvResult>) returns (overrun: bool)
      requires Settled()
      modifies this`stream, this`expectedSize, this`handoffs
      ensures old(stop) ==> !overrun && handoffs == old(handoffs) && Pending() == old(Pending())
      ensures !old(stop) ==>
        handoffs == old(handoffs) + Split(old(Pending()) + Inbound(answers)).frames
      ensures !old(stop) ==> overrun == Split(old(Pending()) + Inbound(answers)).oversized
      ensures !old(stop) && !overrun ==>
        Pending() == Split(old(Pending()) + Inbound(answers)).rest && Settled()
    {
      ghost var start := Pending();
      SettledPendingDecodesNothing();
      ghost var seen := start;
      InboundNone(answers);
      AppendNothing(start);
      AppendNothing(Split(start).frames);
      overrun := false;
      var i := 0;
      while !stop && i < |answers| && !overrun
        invariant 0 <= i <= |answers|
        invariant old(stop) ==> i == 0
        invariant seen == start + Inbound(answers[..i])
        invariant handoffs == old(handoffs) + Split(seen).frames
        invariant overrun == Split(seen).oversized
        invariant !overrun ==> Pending() == Split(seen).rest && Settled()
      {
        ghost var chunk := BytesOf(answers[i]);
        InboundStep(answers, i);
        AppendAssoc(start, Inbound(answers[..i]), chunk);
        if answers[i].Received? && |answers[i].bytes| > 0 {
          ResumeSplit(old(handoffs), seen, chunk);
          overrun := Receive(answers[i].bytes);
        } else {
          AppendNothing(seen);
        }
        seen := seen + chunk;
        i := i + 1;
      }
      if overrun {
        CutAt(answers, i);
        InboundAppend(answers[..i], answers[i..]);
        AppendAssoc(start, Inbound(answers[..i]), Inbound(answers[i..]));
        SplitAfterOversized(seen, Inbound(answers[i..]));
      } else if !old(stop) {
        CutAt(answers, i);
      }
    }

    /** A settled buffer holds no complete frame. */
    lemma SettledPendingDecodesNothing()
      requires Settled()
      ensures Split(Pending()) == Parse([], Pending(), false)
    {
      if expectedSize != 0 {
        ReadWriteBigEndian32(expectedSize);
        SplitFrameWaits(BigEndian32(expectedSize), stream);
      }
    }
  }
}
