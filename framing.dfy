/** The wire format of the TCP transport: every packet travels as a 4-byte
    network-order length followed by exactly that many payload bytes.
    `Encode` is the frame the sender builds; `Split` is the reference decoder
    the receiver's reassembly loop is proved against. */
module Framing {
  import opened Bytes

  /** The largest payload a frame may carry: a TArray<uint8> holds at most
      MaxInt32 bytes, and the receiver copies a frame with an int32 count. */
  const MaxPacketLen: int := MaxInt32

  /** A packet: the payload of one frame. */
  type Packet = p: seq<byte> | |p| <= MaxPacketLen

  /** The frame for one packet: its length in network order, then the payload. */
  function Encode(p: Packet): (frame: seq<byte>)
    ensures |frame| == 4 + |p|
    ensures ReadBigEndian32(frame) == |p|
    ensures frame[4..] == p
  {
    ReadWriteBigEndian32(|p|);
    BigEndian32(|p|) + p
  }

  /** The byte stream carrying `ps` frame after frame, in order. */
  function EncodeAll(ps: seq<Packet>): (stream: seq<byte>)
    ensures stream == [] <==> ps == []
    ensures |stream| >= 4 * |ps|
  {
    if ps == [] then [] else Encode(ps[0]) + EncodeAll(ps[1..])
  }

  /** The stream of a single packet is its frame. */
  lemma EncodeOne(p: Packet)
    ensures EncodeAll([p]) == Encode(p)
  {
    assert [p][1..] == [];
  }

  lemma {:induction false} EncodeAllAppend(ps: seq<Packet>, qs: seq<Packet>)
    ensures EncodeAll(ps + qs) == EncodeAll(ps) + EncodeAll(qs)
  {
    if ps == [] {
      assert ps + qs == qs;
    } else {
      assert (ps + qs)[1..] == ps[1..] + qs;
      EncodeAllAppend(ps[1..], qs);
    }
  }

  /** What the reference decoder makes of a byte stream: the complete frames'
      payloads in stream order, the bytes that do not yet form a complete frame,
      and whether decoding stopped at a header declaring more than MaxPacketLen. */
  datatype Parse = Parse(frames: seq<Packet>, rest: seq<byte>, oversized: bool)

  /** `p` with `fs` decoded in front of it. */
  function Prepend(fs: seq<Packet>, p: Parse): Parse
  {
    Parse(fs + p.frames, p.rest, p.oversized)
  }

  /** `s` holds no complete frame: the header or part of the payload is missing. */
  predicate Incomplete(s: seq<byte>)
  {
    |s| < 4 || |s| - 4 < ReadBigEndian32(s)
  }

  /** `s` starts with a header whose length no packet can have. */
  predicate OversizedHeader(s: seq<byte>)
  {
    |s| >= 4 && ReadBigEndian32(s) > MaxPacketLen
  }

  /** The reference decoder: peel complete frames off the front of `s` until
      what remains is incomplete or starts with an oversized header. */
  function Split(s: seq<byte>): (r: Parse)
    ensures r.oversized <==> OversizedHeader(r.rest)
    ensures !r.oversized ==> Incomplete(r.rest)
    decreases |s|
  {
    if |s| < 4 then Parse([], s, false)
    else
      var n := ReadBigEndian32(s);
      if n > MaxPacketLen then Parse([], s, true)
      else if |s| - 4 < n then Parse([], s, false)
      else
        var p: Packet := s[4..4 + n];
        Prepend([p], Split(s[4 + n..]))
  }

  lemma AppendAssoc(a: seq<byte>, b: seq<byte>, c: seq<byte>)
    ensures (a + b) + c == a + (b + c)
  {
  }

  /** Cutting a sequence at `k` and joining the halves gives it back. */
  lemma CutAt<T>(s: seq<T>, k: nat)
    requires k <= |s|
    ensures s[..k] + s[k..] == s
    ensures s[..|s|] == s
  {
  }

  /** The prefix one element longer ends with that element. */
  lemma PrefixSnoc<T>(s: seq<T>, i: nat)
    requires i < |s|
    ensures s[..i + 1] == s[..i] + [s[i]]
  {
  }

  /** Appending nothing changes nothing. */
  lemma AppendNothing<T>(s: seq<T>)
    ensures s + [] == s && [] + s == s
  {
  }

  lemma PacketsAssoc(a: seq<Packet>, b: seq<Packet>, c: seq<Packet>)
    ensures a + (b + c) == (a + b) + c
  {
  }

  /** A stream is its first four bytes, which carry its header value,
      followed by the rest. */
  lemma HeaderOf(s: seq<byte>)
    requires |s| >= 4
    ensures |s[..4]| == 4 && ReadBigEndian32(s[..4]) == ReadBigEndian32(s)
    ensures s[..4] + s[4..] == s
  {
  }

  /** Only the first four bytes of a stream make up its header. */
  lemma ReadPrefix(s: seq<byte>, t: seq<byte>)
    requires |s| >= 4
    ensures ReadBigEndian32(s + t) == ReadBigEndian32(s)
  {
    assert (s + t)[0] == s[0] && (s + t)[1] == s[1] && (s + t)[2] == s[2] && (s + t)[3] == s[3];
  }

  /** One step of Split on a stream holding a complete frame. */
  lemma SplitUnfold(s: seq<byte>)
    requires |s| >= 4 && ReadBigEndian32(s) <= MaxPacketLen && |s| - 4 >= ReadBigEndian32(s)
    ensures Split(s) == Prepend([s[4..4 + ReadBigEndian32(s)]], Split(s[4 + ReadBigEndian32(s)..]))
  {
  }

  /** Decoding a stream that starts with the header `h` followed by `body`
      when the frame cannot be cut off yet: an oversized length stops
      decoding, a short body waits; either way nothing is decoded. */
  lemma SplitFrameWaits(h: seq<byte>, body: seq<byte>)
    requires |h| == 4
    requires ReadBigEndian32(h) > MaxPacketLen || |body| < ReadBigEndian32(h)
    ensures Split(h + body) == Parse([], h + body, ReadBigEndian32(h) > MaxPacketLen)
  {
    ReadPrefix(h, body);
  }

  /** Decoding a stream that starts with the header `h` followed by a body
      holding the whole payload cuts that payload off as one packet. */
  lemma SplitFrameComplete(h: seq<byte>, body: seq<byte>)
    requires |h| == 4
    requires ReadBigEndian32(h) <= MaxPacketLen && |body| >= ReadBigEndian32(h)
    ensures Split(h + body) == Prepend([body[..ReadBigEndian32(h)]], Split(body[ReadBigEndian32(h)..]))
  {
    ReadPrefix(h, body);
    AfterHeader(h, body, ReadBigEndian32(h));
    SplitUnfold(h + body);
  }

  /** A header followed by a body holding its whole payload is that
      payload's frame followed by the rest of the body. */
  lemma FrameOfHeader(h: seq<byte>, body: seq<byte>)
    requires |h| == 4
    requires ReadBigEndian32(h) <= MaxPacketLen && |body| >= ReadBigEndian32(h)
    ensures h + body == Encode(body[..ReadBigEndian32(h)]) + body[ReadBigEndian32(h)..]
  {
    var n := ReadBigEndian32(h);
    var p: Packet := body[..n];
    var f := Encode(p);
    HeaderOf(f);
    ReadBigEndian32Injective(h, f[..4]);
    CutAt(body, n);
    AppendAssoc(h, p, body[n..]);
  }

  /** The bytes after a 4-byte header are the body. */
  lemma AfterHeader(h: seq<byte>, body: seq<byte>, n: nat)
    requires |h| == 4 && n <= |body|
    ensures (h + body)[4..4 + n] == body[..n]
    ensures (h + body)[4 + n..] == body[n..]
  {
  }

  lemma HeadTail(ps: seq<Packet>)
    requires ps != []
    ensures [ps[0]] + ps[1..] == ps
  {
  }

  /** Prepending twice is prepending the concatenation. */
  lemma PrependPrepend(a: seq<Packet>, b: seq<Packet>, r: Parse)
    ensures Prepend(a, Prepend(b, r)) == Prepend(a + b, r)
  {
    PacketsAssoc(a, b, r.frames);
  }

  /** Decoding a frame followed by `more` yields its packet first. */
  lemma SplitEncodeOne(p: Packet, more: seq<byte>, s: seq<byte>)
    requires s == Encode(p) + more
    ensures Split(s) == Prepend([p], Split(more))
  {
    var f: seq<byte> := Encode(p);
    var h: seq<byte> := f[..4];
    var body: seq<byte> := p + more;
    assert f == h + p;
    AppendAssoc(h, p, more);
    ReadPrefix(h, p);
    SplitFrameComplete(h, body);
    assert body[..|p|] == p;
    assert body[|p|..] == more;
  }

  /** The stream of a non-empty packet sequence, followed by `tail`, is the
      first frame followed by the rest. */
  lemma EncodeAllFront(ps: seq<Packet>, tail: seq<byte>)
    requires ps != []
    ensures EncodeAll(ps) + tail == Encode(ps[0]) + (EncodeAll(ps[1..]) + tail)
  {
    AppendAssoc(Encode(ps[0]), EncodeAll(ps[1..]), tail);
  }

  /** Decoding frames followed by anything yields those frames first, in order,
      and then whatever the rest decodes to. */
  lemma {:induction false} SplitEncodeAll(ps: seq<Packet>, tail: seq<byte>)
    ensures Split(EncodeAll(ps) + tail) == Prepend(ps, Split(tail))
  {
    if ps == [] {
      assert EncodeAll(ps) + tail == tail;
    } else {
      EncodeAllFront(ps, tail);
      SplitEncodeOne(ps[0], EncodeAll(ps[1..]) + tail, EncodeAll(ps) + tail);
      SplitEncodeAll(ps[1..], tail);
      PrependPrepend([ps[0]], ps[1..], Split(tail));
      HeadTail(ps);
    }
  }

  /** A stream starting with a complete frame starts with the encoding of
      that frame's packet. */
  lemma FrameAtFront(s: seq<byte>)
    requires |s| >= 4 && ReadBigEndian32(s) <= MaxPacketLen && |s| - 4 >= ReadBigEndian32(s)
    ensures Encode(s[4..4 + ReadBigEndian32(s)]) == s[..4 + ReadBigEndian32(s)]
  {
    var n := ReadBigEndian32(s);
    var p: Packet := s[4..4 + n];
    var f := Encode(p);
    assert f == f[..4] + f[4..];
    assert s[..4 + n] == s[..4] + p;
    ReadPrefix(f[..4], p);
    ReadPrefix(s[..4], s[4..]);
    assert s[..4] + s[4..] == s;
    ReadBigEndian32Injective(f[..4], s[..4]);
  }

  /** Split only cuts: the frames it decodes, re-encoded, followed by its
      leftover bytes, give back exactly its input. */
  lemma {:induction false} SplitDecomposes(s: seq<byte>)
    ensures s == EncodeAll(Split(s).frames) + Split(s).rest
    decreases |s|
  {
    if |s| >= 4 && ReadBigEndian32(s) <= MaxPacketLen && |s| - 4 >= ReadBigEndian32(s) {
      var n := ReadBigEndian32(s);
      var p: Packet := s[4..4 + n];
      var t: seq<byte> := s[4 + n..];
      SplitUnfold(s);
      SplitDecomposes(t);
      FrameAtFront(s);
      CutAt(s, 4 + n);
      EncodeAllCons(p, Split(t).frames, Split(t).rest);
    }
  }

  /** The stream of `p` then `ps`, followed by `rest`, is p's frame followed
      by the stream of `ps` and `rest`. */
  lemma EncodeAllCons(p: Packet, ps: seq<Packet>, rest: seq<byte>)
    ensures EncodeAll([p] + ps) + rest == Encode(p) + (EncodeAll(ps) + rest)
  {
    assert ([p] + ps)[1..] == ps;
    EncodeAllFront([p] + ps, rest);
  }

  /** Round trip: decoding the frames built for `ps` yields exactly `ps`,
      leaves nothing behind and reports no oversized header. */
  lemma RoundTrip(ps: seq<Packet>)
    ensures Split(EncodeAll(ps)) == Parse(ps, [], false)
  {
    SplitEncodeAll(ps, []);
    assert EncodeAll(ps) + [] == EncodeAll(ps);
  }

  /** A zero-length packet still travels as a 4-byte header and is decoded as
      one empty packet. */
  lemma EmptyPacketFrame()
    ensures Encode([]) == [0, 0, 0, 0]
    ensures Split([0, 0, 0, 0]) == Parse([[]], [], false)
  {
    assert BigEndian32(0) == [0, 0, 0, 0];
    SplitFrameComplete(BigEndian32(0), []);
  }

  /** Resumability: decoding `s + more` gives the frames of `s`, then what its
      leftover bytes decode to once `more` is appended. So feeding a stream in
      chunks, keeping only the leftover between chunks, decodes the same frames
      as feeding it at once. */
  lemma SplitAppend(s: seq<byte>, more: seq<byte>)
    ensures Split(s + more) == Prepend(Split(s).frames, Split(Split(s).rest + more))
  {
    var r := Split(s);
    SplitDecomposes(s);
    AppendAssoc(EncodeAll(r.frames), r.rest, more);
    SplitEncodeAll(r.frames, r.rest + more);
  }

  /** Once decoding stops at an oversized header, nothing received after it
      is ever decoded. */
  lemma SplitAfterOversized(s: seq<byte>, more: seq<byte>)
    requires Split(s).oversized
    ensures Split(s + more) == Parse(Split(s).frames, Split(s).rest + more, true)
  {
    var r := Split(s);
    SplitAppend(s, more);
    ReadPrefix(r.rest, more);
    assert Split(r.rest + more) == Parse([], r.rest + more, true);
    assert r.frames + [] == r.frames;
  }

  /** Bytes that do not yet complete a frame decode to nothing. */
  lemma SplitIncomplete(s: seq<byte>)
    requires Incomplete(s) && !OversizedHeader(s)
    ensures Split(s) == Parse([], s, false)
  {
  }

  /** A strict prefix of a frame decodes to nothing and is kept as leftover. */
  lemma FramePrefixIncomplete(p: Packet, k: nat)
    requires k < |Encode(p)|
    ensures Split(Encode(p)[..k]) == Parse([], Encode(p)[..k], false)
  {
    var s := Encode(p)[..k];
    if k >= 4 {
      assert ReadBigEndian32(s) == ReadBigEndian32(Encode(p));
    }
    SplitIncomplete(s);
  }

  /** A complete frame followed by part of the next decodes to the first packet
      and keeps the partial bytes; the remaining bytes complete the second. */
  lemma PartialTrailingFrame(p1: Packet, p2: Packet, k: nat)
    requires k < |Encode(p2)|
    ensures Split(Encode(p1) + Encode(p2)[..k]) == Parse([p1], Encode(p2)[..k], false)
    ensures Split(Encode(p2)[..k] + Encode(p2)[k..]) == Parse([p2], [], false)
  {
    EncodeOne(p1);
    EncodeOne(p2);
    FramePrefixIncomplete(p2, k);
    SplitEncodeAll([p1], Encode(p2)[..k]);
    CutAt(Encode(p2), k);
    RoundTrip([p2]);
  }

  /** How the receiver guards the payload copy (UnitedNetDriver.cpp:84): it
      waits for more bytes while the buffer is shorter than the expected size
      reinterpreted as an int32. That is exact for every length a packet can
      have; for a longer one the cast is negative and the guard never waits. */
  function WaitsForPayload(buffered: nat, expected: uint32): (waits: bool)
    ensures expected <= MaxPacketLen ==> (waits <==> buffered < expected)
    ensures expected > MaxPacketLen ==> !waits
  {
    buffered < Int32Of(expected)
  }

  /** For a declared length of 2^31 or more the int32 cast is negative, so the
      guard lets the copy proceed whatever is buffered; the header 80 00 00 00
      with no payload at all is such a case, and the reference decoder rejects it. */
  lemma OversizedSlipsThroughGuard(buffered: nat, expected: uint32)
    requires expected > MaxPacketLen
    ensures !WaitsForPayload(buffered, expected)
    ensures ReadBigEndian32([0x80, 0, 0, 0]) == 0x8000_0000
    ensures !WaitsForPayload(0, ReadBigEndian32([0x80, 0, 0, 0]))
    ensures Split([0x80, 0, 0, 0]).oversized
  {
  }
}
