/** Cutting the byte stream of a connection into packets (readPacket of
    connection/reader.go), sections 1.5.5 and 2.1.4 of MQTT 5.0. */
module Framing {
  import opened Wrappers

  type Byte = x: int | 0 <= x < 256

  // ------------------------------------------------------------------
  // What a frame is

  /** The value of a variable byte integer, low group first. */
  function Value(bs: seq<Byte>): nat {
    if |bs| == 0 then 0 else bs[0] % 128 + 128 * Value(bs[1..])
  }

  /** Section 1.5.5 of MQTT 5.0. */
  function EncodeLength(n: nat): (bs: seq<Byte>)
    ensures |bs| >= 1
  {
    if n < 128 then [n] else [128 + n % 128] + EncodeLength(n / 128)
  }

  /** The length field of `s` ends at position `k`. */
  predicate LengthEndsAt(s: seq<Byte>, k: nat) {
    && 1 <= k <= 4 && k < |s| && s[k] < 0x80
    && forall i :: 1 <= i < k ==> s[i] >= 0x80
  }

  /** The size of the frame whose length field ends at `k`. */
  function Size(s: seq<Byte>, k: nat): nat
    requires k < |s|
  {
    1 + Value(s[1..k + 1]) + k
  }

  /** A packet type byte, one to four length bytes, and as many bytes as they say. */
  ghost predicate IsFrame(f: seq<Byte>) {
    exists k: nat :: LengthEndsAt(f, k) && |f| == Size(f, k)
  }

  datatype Outcome = Packet(frame: seq<Byte>) | EndOfStream | Malformed | TooLarge

  /** What the front of a stream is, looking for the end of the length field from `k` on. */
  function ParseFrom(s: seq<Byte>, max: nat, k: nat): Outcome
    decreases 5 - k
  {
    if k > 4 then Malformed
    else if |s| < k + 1 then EndOfStream
    else if s[k] >= 0x80 then ParseFrom(s, max, k + 1)
    else if Size(s, k) > max then TooLarge
    else if |s| < Size(s, k) then EndOfStream
    else Packet(s[..Size(s, k)])
  }

  function Parse(s: seq<Byte>, max: nat): Outcome { ParseFrom(s, max, 1) }

  /** All packets of a stream, and why there are no more. */
  function ParseAll(s: seq<Byte>, max: nat): (seq<seq<Byte>>, Outcome)
    decreases |s|
  {
    match Parse(s, max)
    case Packet(f) =>
      if |f| == 0 || |f| > |s| then ([], Malformed)
      else
        var (fs, end) := ParseAll(s[|f|..], max);
        ([f] + fs, end)
    case o => ([], o)
  }

  function Flatten(chunks: seq<seq<Byte>>): seq<Byte> {
    if |chunks| == 0 then [] else chunks[0] + Flatten(chunks[1..])
  }

  lemma {:induction false} ParseFromEnd(s: seq<Byte>, max: nat, j: nat, k: nat)
    requires LengthEndsAt(s, k) && 1 <= j <= k
    ensures ParseFrom(s, max, j) == ParseFrom(s, max, k)
    decreases k - j
  {
    if j < k {
      ParseFromEnd(s, max, j + 1, k);
    }
  }

  /** A frame within the limit is recognised whatever follows it. */
  lemma ParseFrame(f: seq<Byte>, rest: seq<Byte>, max: nat)
    requires IsFrame(f) && |f| <= max
    ensures Parse(f + rest, max) == Packet(f)
  {
    var k: nat :| LengthEndsAt(f, k) && |f| == Size(f, k);
    var s := f + rest;
    assert s[1..k + 1] == f[1..k + 1];
    assert LengthEndsAt(s, k);
    ParseFromEnd(s, max, 1, k);
    assert s[..|f|] == f;
  }

  /** Four length bytes that all announce another one. */
  predicate Overlong(s: seq<Byte>) {
    |s| >= 5 && forall i :: 1 <= i <= 4 ==> s[i] >= 0x80
  }

  /** A length field ends somewhere, is overlong, or has not all arrived. */
  lemma {:induction false} ParseFromCases(s: seq<Byte>, max: nat, j: nat)
    requires 1 <= j <= 5 && (j == 1 || |s| >= j) && forall i :: 1 <= i < j ==> s[i] >= 0x80
    ensures (exists k: nat :: LengthEndsAt(s, k)) || (Overlong(s) && ParseFrom(s, max, j) == Malformed)
            || (|s| <= 4 && (forall i :: 1 <= i < |s| ==> s[i] >= 0x80) && ParseFrom(s, max, j) == EndOfStream)
    decreases 5 - j
  {
    if j <= 4 && j < |s| {
      if s[j] >= 0x80 {
        ParseFromCases(s, max, j + 1);
      } else {
        assert LengthEndsAt(s, j);
      }
    }
  }

  lemma EndsOnce(s: seq<Byte>, k: nat, l: nat)
    requires LengthEndsAt(s, k) && LengthEndsAt(s, l)
    ensures k == l && !Overlong(s)
  {
  }

  /** The outcome, once the length field ends at `k`. */
  lemma ParseEnds(s: seq<Byte>, max: nat, k: nat)
    requires LengthEndsAt(s, k)
    ensures Parse(s, max) == if Size(s, k) > max then TooLarge
                             else if |s| < Size(s, k) then EndOfStream else Packet(s[..Size(s, k)])
  {
    ParseFromEnd(s, max, 1, k);
  }

  /** A packet is found if and only if it is a frame within the limit and the stream
      begins with it. */
  lemma PacketExactly(s: seq<Byte>, max: nat, f: seq<Byte>)
    ensures Parse(s, max) == Packet(f) <==> IsFrame(f) && |f| <= max && f <= s
  {
    if IsFrame(f) && |f| <= max && f <= s {
      ParseFrame(f, s[|f|..], max);
      assert f + s[|f|..] == s;
    }
    if Parse(s, max) == Packet(f) {
      ParseFromCases(s, max, 1);
      var k: nat :| LengthEndsAt(s, k);
      ParseEnds(s, max, k);
      assert f[1..k + 1] == s[1..k + 1];
      assert LengthEndsAt(f, k) && |f| == Size(f, k);
    }
  }

  /** A stream is refused as too large if and only if its length field says so. */
  lemma TooLargeExactly(s: seq<Byte>, max: nat)
    ensures Parse(s, max) == TooLarge <==> exists k: nat :: LengthEndsAt(s, k) && Size(s, k) > max
  {
    ParseFromCases(s, max, 1);
    if k: nat :| LengthEndsAt(s, k) {
      ParseEnds(s, max, k);
      forall l: nat | LengthEndsAt(s, l) ensures l == k {
        EndsOnce(s, k, l);
      }
    }
  }

  /** ... and as malformed if and only if the length field is overlong. */
  lemma MalformedExactly(s: seq<Byte>, max: nat)
    ensures Parse(s, max) == Malformed <==> Overlong(s)
  {
    ParseFromCases(s, max, 1);
    if k: nat :| LengthEndsAt(s, k) {
      ParseEnds(s, max, k);
      EndsOnce(s, k, k);
    }
  }

  lemma FlattenFront(f: seq<Byte>, fs: seq<seq<Byte>>, rest: seq<Byte>)
    requires Flatten(fs) <= rest
    ensures Flatten([f] + fs) <= f + rest
    ensures (f + rest)[|Flatten([f] + fs)|..] == rest[|Flatten(fs)|..]
  {
    assert ([f] + fs)[1..] == fs;
    assert f + rest == (f + Flatten(fs)) + rest[|Flatten(fs)|..];
  }

  /** The packets of a stream are frames within the limit that it begins with, one after
      the other, and the rest of it is the reason why there are no more. */
  lemma {:induction false} ParseAllMeans(s: seq<Byte>, max: nat)
    ensures var (fs, end) := ParseAll(s, max);
      && (forall i :: 0 <= i < |fs| ==> IsFrame(fs[i]) && |fs[i]| <= max)
      && Flatten(fs) <= s && end == Parse(s[|Flatten(fs)|..], max) && !end.Packet?
    decreases |s|
  {
    match Parse(s, max)
    case Packet(f) =>
      PacketExactly(s, max, f);
      var rest := s[|f|..];
      ParseAllMeans(rest, max);
      var (fs, end) := ParseAll(rest, max);
      FlattenFront(f, fs, rest);
      assert s == f + rest;
    case _ =>
      assert s[0..] == s;
  }

  lemma ParseAllStep(f: seq<Byte>, after: seq<Byte>, max: nat)
    requires IsFrame(f) && |f| <= max
    ensures ParseAll(f + after, max) == ([f] + ParseAll(after, max).0, ParseAll(after, max).1)
  {
    ParseFrame(f, after, max);
    assert (f + after)[|f|..] == after;
  }

  /** ... after the packets `done`. */
  lemma ParseAllNext(done: seq<seq<Byte>>, f: seq<Byte>, after: seq<Byte>, max: nat)
    requires Parse(f + after, max) == Packet(f) && |f| > 0
    ensures var all, rest := ParseAll(f + after, max), ParseAll(after, max);
      all.1 == rest.1 && done + all.0 == (done + [f]) + rest.0
  {
    assert (f + after)[|f|..] == after;
  }

  lemma FlattenStep(fs: seq<seq<Byte>>, rest: seq<Byte>)
    requires |fs| > 0
    ensures Flatten(fs) + rest == fs[0] + (Flatten(fs[1..]) + rest)
  {
  }

  /** Any concatenation of frames within the limit is cut into exactly those frames. */
  lemma {:induction false} ParseFrames(fs: seq<seq<Byte>>, rest: seq<Byte>, max: nat)
    requires forall i :: 0 <= i < |fs| ==> IsFrame(fs[i]) && |fs[i]| <= max
    ensures ParseAll(Flatten(fs) + rest, max) == (fs + ParseAll(rest, max).0, ParseAll(rest, max).1)
    decreases |fs|
  {
    if |fs| == 0 {
      assert Flatten(fs) + rest == rest;
      assert fs + ParseAll(rest, max).0 == ParseAll(rest, max).0;
    } else {
      var tail := ParseAll(rest, max);
      calc {
        ParseAll(Flatten(fs) + rest, max);
        { FlattenStep(fs, rest); }
        ParseAll(fs[0] + (Flatten(fs[1..]) + rest), max);
        { ParseAllStep(fs[0], Flatten(fs[1..]) + rest, max); ParseFrames(fs[1..], rest, max); }
        ([fs[0]] + (fs[1..] + tail.0), tail.1);
        { assert [fs[0]] + (fs[1..] + tail.0) == fs + tail.0; }
        (fs + tail.0, tail.1);
      }
    }
  }

  // ------------------------------------------------------------------
  // The encoder's frames are frames

  lemma {:induction false} EncodeLengthShape(n: nat)
    ensures var bs := EncodeLength(n);
      && Value(bs) == n && bs[|bs| - 1] < 0x80
      && forall i :: 0 <= i < |bs| - 1 ==> bs[i] >= 0x80
  {
    var bs := EncodeLength(n);
    if n >= 128 {
      EncodeLengthShape(n / 128);
      assert bs[1..] == EncodeLength(n / 128);
    } else {
      assert bs[1..] == [];
    }
  }

  lemma EncodeLengthShort(n: nat)
    requires n < 0x1000_0000
    ensures |EncodeLength(n)| <= 4
  {
    var n1, n2, n3 := n / 128, n / 128 / 128, n / 128 / 128 / 128;
    assert n3 < 128;
    assert |EncodeLength(n3)| == 1;
    assert |EncodeLength(n2)| <= 2;
    assert |EncodeLength(n1)| <= 3;
  }

  /** Every packet with at most 268,435,455 bytes after its header is a frame. */
  lemma EncodedIsFrame(kind: Byte, body: seq<Byte>)
    requires |body| < 0x1000_0000
    ensures IsFrame([kind] + EncodeLength(|body|) + body)
  {
    var bs := EncodeLength(|body|);
    EncodeLengthShape(|body|);
    EncodeLengthShort(|body|);
    var f := [kind] + bs + body;
    assert f[1..|bs| + 1] == bs;
    assert LengthEndsAt(f, |bs|);
    assert |f| == Size(f, |bs|);
  }

  // ------------------------------------------------------------------
  // The buffered reader

  const BUFFER_SIZE := 4096

  /** The first `n` bytes are a whole number of chunks. */
  predicate Aligned(chunks: seq<seq<Byte>>, n: int)
    decreases |chunks|
  {
    n == 0 || (|chunks| > 0 && |chunks[0]| <= n && Aligned(chunks[1..], n - |chunks[0]|))
  }

  /** What follows the first `n` bytes in the chunk in which they end. */
  function Overrun(chunks: seq<seq<Byte>>, n: nat): seq<Byte>
    decreases |chunks|
  {
    if n == 0 || |chunks| == 0 then []
    else if n <= |chunks[0]| then chunks[0][n..]
    else Overrun(chunks[1..], n - |chunks[0]|)
  }

  /** Nothing does exactly when they are a whole number of chunks. */
  lemma {:induction false} OverrunNone(chunks: seq<seq<Byte>>, n: nat)
    requires (forall i :: 0 <= i < |chunks| ==> |chunks[i]| > 0) && n <= |Flatten(chunks)|
    ensures Overrun(chunks, n) == [] <==> Aligned(chunks, n)
    decreases |chunks|
  {
    if n > 0 && |chunks| > 0 && n > |chunks[0]| {
      OverrunNone(chunks[1..], n - |chunks[0]|);
    }
  }

  /** Chunks that fit into the buffer beside an incomplete header. */
  predicate Small(chunks: seq<seq<Byte>>) {
    forall i :: 0 <= i < |chunks| ==> |chunks[i]| <= BUFFER_SIZE - 4
  }

  /** bufio.Reader over a connection.  `chunks` is what the peer has sent, as the
      network will deliver it: each read of the connection returns a piece of
      the first chunk. */
  class BufReader {
    var buffered: seq<Byte>
    var chunks: seq<seq<Byte>>

    ghost predicate Valid()
      reads this
    {
      |buffered| <= BUFFER_SIZE && forall i :: 0 <= i < |chunks| ==> |chunks[i]| > 0
    }

    /** Everything not yet handed out. */
    ghost function Stream(): seq<Byte>
      reads this
    {
      buffered + Flatten(chunks)
    }

    /** What will be buffered beyond the next `n` bytes, if no more is read than they
        take and every read gets a whole chunk. */
    ghost function Beyond(n: nat): seq<Byte>
      reads this
    {
      if n <= |buffered| then buffered[n..] else Overrun(chunks, n - |buffered|)
    }

    constructor (chunks: seq<seq<Byte>>)
      requires forall i :: 0 <= i < |chunks| ==> |chunks[i]| > 0
      ensures Valid() && Stream() == Flatten(chunks) && buffered == [] && this.chunks == chunks
    {
      buffered, this.chunks := [], chunks;
    }

    /** One read of the connection into `room` bytes; nothing means end of stream. */
    method ReadConn(room: nat, ghost cut: nat) returns (bs: seq<Byte>)
      requires Valid() && room > 0
      modifies this`chunks
      ensures Valid() && |bs| <= room
      ensures bs + Flatten(chunks) == Flatten(old(chunks))
      ensures bs == [] <==> Flatten(old(chunks)) == []
      ensures 0 < cut <= |bs| ==> bs[cut..] <= Overrun(old(chunks), cut)
      ensures |bs| < cut ==> Overrun(chunks, cut - |bs|) == Overrun(old(chunks), cut)
      ensures Small(old(chunks)) && room >= BUFFER_SIZE - 4 ==>
        Small(chunks) && (0 < cut <= |bs| ==> bs[cut..] == Overrun(old(chunks), cut))
    {
      if chunks == [] {
        return [];
      }
      var first := chunks[0];
      if |first| <= room {
        bs := first;
        chunks := chunks[1..];
      } else {
        bs := first[..room];
        chunks := [first[room..]] + chunks[1..];
        assert chunks[1..] == old(chunks)[1..];
      }
      assert bs + Flatten(chunks) == first + Flatten(old(chunks)[1..]);
    }

    /** One more read of the connection into the buffer; false at the end of the stream. */
    method Refill(ghost cut: nat) returns (more: bool)
      requires Valid() && |buffered| < BUFFER_SIZE
      modifies this
      ensures Valid() && Stream() == old(Stream())
      ensures if more then |buffered| > |old(buffered)| else buffered == Stream() == old(buffered)
      ensures |old(buffered)| < cut ==> Beyond(cut) <= old(Beyond(cut))
      ensures |old(buffered)| <= 4 && Small(old(chunks)) ==>
        Small(chunks) && (|old(buffered)| < cut ==> Beyond(cut) == old(Beyond(cut)))
    {
      var bs := ReadConn(BUFFER_SIZE - |buffered|, if |buffered| < cut then cut - |buffered| else 0);
      assert buffered + (bs + Flatten(chunks)) == (buffered + bs) + Flatten(chunks);
      buffered := buffered + bs;
      more := bs != [];
    }

    method Peek(n: nat, ghost cut: nat) returns (r: Option<seq<Byte>>)
      requires Valid() && n <= BUFFER_SIZE
      modifies this
      ensures Valid() && Stream() == old(Stream())
      ensures r == if |Stream()| < n then None else Some(Stream()[..n])
      ensures r.Some? ==> |buffered| >= n
      ensures n <= cut ==> Beyond(cut) <= old(Beyond(cut))
      ensures n <= 5 && Small(old(chunks)) ==> Small(chunks) && (n <= cut ==> Beyond(cut) == old(Beyond(cut)))
    {
      while |buffered| < n
        invariant Valid() && Stream() == old(Stream())
        invariant n <= cut ==> Beyond(cut) <= old(Beyond(cut))
        invariant n <= 5 && Small(old(chunks)) ==> Small(chunks) && (n <= cut ==> Beyond(cut) == old(Beyond(cut)))
        decreases n - |buffered|
      {
        var more := Refill(cut);
        if !more {
          return None;
        }
      }
      r := Some(buffered[..n]);
      assert Stream()[..n] == buffered[..n];
    }

    /** Hands out what is buffered, as far as there is room. */
    method TakeBuffered(room: nat) returns (bs: seq<Byte>)
      requires Valid() && room > 0
      modifies this`buffered
      ensures Valid() && |bs| <= room && bs + Stream() == old(Stream())
      ensures bs == [] <==> old(buffered) == []
      ensures Beyond(room - |bs|) == old(Beyond(room))
    {
      var n := if |buffered| < room then |buffered| else room;
      bs := buffered[..n];
      buffered := buffered[n..];
      assert old(Stream()) == (bs + buffered) + Flatten(chunks);
    }

    /** Nothing means end of stream. */
    method Read(room: nat) returns (bs: seq<Byte>)
      requires Valid() && room > 0
      modifies this
      ensures Valid() && |bs| <= room && bs + Stream() == old(Stream())
      ensures bs == [] <==> old(Stream()) == []
      ensures Beyond(room - |bs|) <= old(Beyond(room))
      ensures Small(old(chunks)) ==> Small(chunks) && Beyond(room - |bs|) == old(Beyond(room))
    {
      if buffered == [] {
        if room >= BUFFER_SIZE {
          bs := ReadConn(room, room);
          return;
        }
        buffered := ReadConn(BUFFER_SIZE, room);
      }
      bs := TakeBuffered(room);
    }
  }

  // ------------------------------------------------------------------
  // The packet reader

  lemma Shift(unit: nat, low: nat, high: nat)
    ensures unit * (low + 128 * high) == unit * low + unit * 128 * high
  {
  }

  /** binary.Uvarint on a field that ends with its last byte: the value, and the
      number of bytes it took. */
  method Uvarint(bs: seq<Byte>) returns (x: nat, m: nat)
    requires |bs| > 0 && bs[|bs| - 1] < 0x80 && forall i :: 0 <= i < |bs| - 1 ==> bs[i] >= 0x80
    ensures x == Value(bs) && m == |bs|
  {
    x, m := 0, 0;
    var unit := 1;
    while bs[m] >= 0x80
      invariant 0 <= m < |bs| && unit > 0
      invariant x + unit * Value(bs[m..]) == Value(bs)
      decreases |bs| - m
    {
      assert bs[m..][1..] == bs[m + 1..];
      Shift(unit, bs[m] % 128, Value(bs[m + 1..]));
      x := x + unit * (bs[m] % 128);
      unit := unit * 128;
      m := m + 1;
    }
    assert bs[m..] == [bs[m]];
    assert Value(bs[m..]) == bs[m];
    x := x + unit * bs[m];
    m := m + 1;
  }

  /** The length field of `s` does not end before position `k`. */
  ghost predicate HeaderGoesOn(s: seq<Byte>, max: nat, k: nat) {
    && (k == 1 || |s| >= k) && (forall i :: 1 <= i < k && i < |s| ==> s[i] >= 0x80)
    && Parse(s, max) == ParseFrom(s, max, k)
  }

  lemma HeaderStep(s: seq<Byte>, max: nat, k: nat)
    requires HeaderGoesOn(s, max, k) && k <= 4 && k < |s| && s[k] >= 0x80
    ensures HeaderGoesOn(s, max, k + 1)
  {
  }

  lemma HeaderEnds(s: seq<Byte>, max: nat, k: nat)
    requires HeaderGoesOn(s, max, k) && 1 <= k <= 4 && k < |s| && s[k] < 0x80
    ensures LengthEndsAt(s[..k + 1], k)
  {
  }

  class Reader {
    const packetMaxSize: nat
    var recv: array<Byte>
    var remaining: nat

    constructor (packetMaxSize: nat)
      ensures this.packetMaxSize == packetMaxSize && recv.Length == 0
    {
      this.packetMaxSize, recv, remaining := packetMaxSize, new Byte[0], 0;
    }

    /** The length of the fixed header, by peeking one byte further while the
        continuation bit is set. */
    method PeekHeader(buf: BufReader, ghost cut: nat) returns (o: Outcome, header: seq<Byte>)
      requires buf.Valid()
      modifies buf
      ensures buf.Valid() && buf.Stream() == old(buf.Stream())
      ensures header == [] ==> o == Parse(buf.Stream(), packetMaxSize) && !o.Packet?
      ensures header != [] ==>
        && header <= buf.Stream() && LengthEndsAt(header, |header| - 1)
        && Parse(buf.Stream(), packetMaxSize) == ParseFrom(buf.Stream(), packetMaxSize, |header| - 1)
        && (|header| <= cut ==> buf.Beyond(cut) <= old(buf.Beyond(cut)))
        && (Small(old(buf.chunks)) ==>
              Small(buf.chunks) && (|header| <= cut ==> buf.Beyond(cut) == old(buf.Beyond(cut))))
    {
      var peekCount := 2;
      ghost var s, beyond, small := buf.Stream(), buf.Beyond(cut), Small(buf.chunks);
      while true
        invariant buf.Valid() && buf.Stream() == s
        invariant 2 <= peekCount <= 6 && HeaderGoesOn(s, packetMaxSize, peekCount - 1)
        invariant peekCount - 1 <= cut ==> buf.Beyond(cut) <= beyond
        invariant small ==> Small(buf.chunks) && (peekCount - 1 <= cut ==> buf.Beyond(cut) == beyond)
        decreases 6 - peekCount
      {
        if peekCount > 5 {
          return Malformed, [];
        }
        var peeked := buf.Peek(peekCount, cut);
        if peeked.None? {
          return EndOfStream, [];
        }
        if peeked.value[peekCount - 1] >= 0x80 {
          HeaderStep(s, packetMaxSize, peekCount - 1);
          peekCount := peekCount + 1;
        } else {
          HeaderEnds(s, packetMaxSize, peekCount - 1);
          return EndOfStream, peeked.value;
        }
      }
    }

    method CopyIn(offset: nat, bs: seq<Byte>)
      requires offset + |bs| <= recv.Length
      modifies recv
      ensures recv[..offset + |bs|] == old(recv[..offset]) + bs
    {
      ghost var was := recv[..offset];
      forall i | 0 <= i < |bs| {
        recv[offset + i] := bs[i];
      }
      assert recv[..offset] == was;
    }

    /** One read into `recv[offset:]`; nothing means end of stream. */
    method ReadInto(buf: BufReader, offset: nat) returns (n: nat)
      requires buf.Valid() && offset < recv.Length
      modifies buf, recv
      ensures buf.Valid() && offset + n <= recv.Length
      ensures recv[..offset + n] + buf.Stream() == old(recv[..offset] + buf.Stream())
      ensures n == 0 <==> old(buf.Stream()) == []
      ensures buf.Beyond(recv.Length - offset - n) <= old(buf.Beyond(recv.Length - offset))
      ensures Small(old(buf.chunks)) ==>
        Small(buf.chunks) && buf.Beyond(recv.Length - offset - n) == old(buf.Beyond(recv.Length - offset))
    {
      var bs := buf.Read(recv.Length - offset);
      ghost var was := recv[..offset];
      CopyIn(offset, bs);
      assert (was + bs) + buf.Stream() == was + (bs + buf.Stream());
      n := |bs|;
    }

    /** Fills `recv` from the stream, as many reads as it takes. */
    method Fill(buf: BufReader) returns (ok: bool)
      requires buf.Valid() && remaining == recv.Length
      modifies buf, recv
      ensures buf.Valid()
      ensures ok <==> |old(buf.Stream())| >= recv.Length
      ensures ok ==> recv[..] + buf.Stream() == old(buf.Stream())
      ensures ok ==> buf.buffered <= old(buf.Beyond(recv.Length))
      ensures ok && Small(old(buf.chunks)) ==> buf.buffered == old(buf.Beyond(recv.Length))
    {
      var offset := recv.Length - remaining;
      ghost var all, beyond, small := buf.Stream(), buf.Beyond(recv.Length), Small(buf.chunks);
      while offset != remaining
        invariant 0 <= offset <= recv.Length && buf.Valid()
        invariant recv[..offset] + buf.Stream() == all
        invariant buf.Beyond(recv.Length - offset) <= beyond
        invariant small ==> Small(buf.chunks) && buf.Beyond(recv.Length - offset) == beyond
        decreases recv.Length - offset
      {
        var n := ReadInto(buf, offset);
        if n == 0 {
          return false;
        }
        offset := offset + n;
      }
      assert recv[..] == recv[..offset];
      ok := true;
    }

    /** readPacket, up to decoding.  The packet and what is left of the stream
        depend on the stream alone, not on how it was cut into reads. */
    method ReadPacket(buf: BufReader) returns (o: Outcome)
      requires buf.Valid() && recv.Length == 0
      modifies this, buf
      ensures buf.Valid()
      ensures o == Parse(old(buf.Stream()), packetMaxSize)
      ensures o.Packet? ==> recv.Length == 0 && o.frame + buf.Stream() == old(buf.Stream()) && |o.frame| >= 2
      ensures o.Packet? ==> buf.buffered <= old(buf.Beyond(|o.frame|))
      ensures o.Packet? && Small(old(buf.chunks)) ==> buf.buffered == old(buf.Beyond(|o.frame|))
    {
      var header;
      ghost var parsed := Parse(buf.Stream(), packetMaxSize);
      o, header := PeekHeader(buf, if parsed.Packet? then |parsed.frame| else 0);
      if header == [] {
        return;
      }
      ghost var s := buf.Stream();
      var remLen, m := Uvarint(header[1..]);
      assert header[1..] == s[1..|header|];
      remaining := 1 + remLen + m;
      recv := new Byte[remaining];
      if remaining > packetMaxSize {
        return TooLarge;
      }
      var ok := Fill(buf);
      if !ok {
        return EndOfStream;
      }
      assert recv[..] == s[..remaining];
      o := Packet(recv[..]);
      recv := new Byte[0];
      remaining := 0;
    }

    /** The first packet of a connection, through a buffered reader that is then
        given up with what it holds; `left` is what the connection has yet to deliver. */
    method ConnectionRoutine(chunks: seq<seq<Byte>>)
      returns (first: Outcome, left: seq<seq<Byte>>, ghost lost: seq<Byte>)
      requires recv.Length == 0 && forall i :: 0 <= i < |chunks| ==> |chunks[i]| > 0
      modifies this
      ensures first == Parse(Flatten(chunks), packetMaxSize)
      ensures forall i :: 0 <= i < |left| ==> |left[i]| > 0
      ensures first.Packet? ==>
        && recv.Length == 0 && first.frame + lost + Flatten(left) == Flatten(chunks)
        && lost <= Overrun(chunks, |first.frame|)
        && (Small(chunks) ==> lost == Overrun(chunks, |first.frame|))
    {
      var buf := new BufReader(chunks);
      assert forall n: nat :: n > 0 ==> buf.Beyond(n) == Overrun(chunks, n);
      first := ReadPacket(buf);
      left, lost := buf.chunks, buf.buffered;
      if first.Packet? {
        assert first.frame + lost + Flatten(left) == first.frame + buf.Stream();
      }
    }

    /** The reader's loop: every packet of the stream in order, until the first error. */
    method Routine(buf: BufReader) returns (packets: seq<seq<Byte>>, end: Outcome)
      requires buf.Valid() && recv.Length == 0
      modifies this, buf
      ensures (packets, end) == ParseAll(old(buf.Stream()), packetMaxSize)
    {
      packets := [];
      ghost var all := ParseAll(buf.Stream(), packetMaxSize);
      assert [] + all.0 == all.0;
      while true
        invariant buf.Valid() && recv.Length == 0
        invariant all == (packets + ParseAll(buf.Stream(), packetMaxSize).0, ParseAll(buf.Stream(), packetMaxSize).1)
        decreases |buf.Stream()|
      {
        end := ReadPacket(buf);
        if !end.Packet? {
          assert packets + [] == packets;
          return;
        }
        ParseAllNext(packets, end.frame, buf.Stream(), packetMaxSize);
        packets := packets + [end.frame];
      }
    }
  }

  /** Framing is independent of chunking: however a concatenation of frames is
      split into reads, a new connection yields exactly those frames in order. */
  method ReceiveFrames(max: nat, chunks: seq<seq<Byte>>, ghost fs: seq<seq<Byte>>)
    returns (packets: seq<seq<Byte>>, end: Outcome)
    requires forall i :: 0 <= i < |chunks| ==> |chunks[i]| > 0
    requires forall i :: 0 <= i < |fs| ==> IsFrame(fs[i]) && |fs[i]| <= max
    requires Flatten(chunks) == Flatten(fs)
    ensures packets == fs && end == EndOfStream
  {
    var buf := new BufReader(chunks);
    var reader := new Reader(max);
    packets, end := reader.Routine(buf);
    ParseFrames(fs, [], max);
    assert Flatten(fs) + [] == Flatten(fs);
    assert ParseAll([], max) == ([], EndOfStream);
    assert fs + [] == fs;
  }

  /** A connection from its first packet on.  The first one is read by
      connectionRoutine through a buffered reader of its own, the others by
      routine through another, and what the first reader has taken from the
      connection beyond its packet is `lost`: nothing but what follows the packet in
      the read in which it ends, and with reads that fit the buffer all of that.  So
      nothing is lost if the packet ends where a read ends, and with such reads only
      then. */
  method ReceiveFromConnect(max: nat, chunks: seq<seq<Byte>>)
    returns (first: Outcome, packets: seq<seq<Byte>>, end: Outcome, ghost lost: seq<Byte>, ghost seen: seq<Byte>)
    requires forall i :: 0 <= i < |chunks| ==> |chunks[i]| > 0
    ensures first == Parse(Flatten(chunks), max)
    ensures !first.Packet? ==> packets == [] && end == first
    ensures first.Packet? ==>
      && first.frame + lost + seen == Flatten(chunks) && (packets, end) == ParseAll(seen, max)
      && lost <= Overrun(chunks, |first.frame|)
      && (Small(chunks) ==> lost == Overrun(chunks, |first.frame|))
      && (Aligned(chunks, |first.frame|) ==> lost == [])
      && (Small(chunks) && lost == [] ==> Aligned(chunks, |first.frame|))
  {
    var reader := new Reader(max);
    var left;
    first, left, lost := reader.ConnectionRoutine(chunks);
    seen := Flatten(left);
    if !first.Packet? {
      return first, [], first, lost, seen;
    }
    OverrunNone(chunks, |first.frame|);
    var rest := new BufReader(left);
    packets, end := reader.Routine(rest);
  }

  /** Whatever a client sends in one piece with its first packet is lost. */
  method PipelinedIsLost(max: nat, f: seq<Byte>, g: seq<Byte>)
    returns (first: Outcome, packets: seq<seq<Byte>>, end: Outcome, ghost lost: seq<Byte>)
    requires IsFrame(f) && |f| <= max && |f + g| <= BUFFER_SIZE - 4
    ensures first == Packet(f) && lost == g && packets == [] && end == EndOfStream
  {
    ghost var seen;
    first, packets, end, lost, seen := ReceiveFromConnect(max, [f + g]);
    assert Flatten([f + g]) == f + g;
    ParseFrame(f, g, max);
    assert lost == g by {
      assert (f + g)[|f|..] == g;
    }
    assert |f + lost + seen| == |f + g|;
    assert seen == [];
  }
}
