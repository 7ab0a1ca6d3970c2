/**
 The parallel chunked reader: a queue of streams, each downloading one chunk in the
 background, read in order.  It behaves as the plain reader of the remote content.
 */
module ParallelReader {
  import opened PlainReader
  import opened Ranges
  import opened RwBuffer

  /** One background download of content[offset .. offset + size). */
  class Stream {
    const offset: nat
    const size: nat
    const rw: RW
    var readBytes: nat

    /** What the stream downloads is its chunk of the file. */
    ghost predicate Downloads(content: seq<byte>) {
      0 < size && offset + size <= |content| && rw.source == content[offset..offset + size]
    }

    /** The buffer holds a prefix of the chunk, and its read position is where the stream stands. */
    ghost predicate Live()
      reads this, rw
    {
      rw.Valid() && !rw.closed && readBytes == rw.rOffset
    }

    ghost predicate Valid(content: seq<byte>)
      reads this, rw
    {
      Downloads(content) && Live()
    }

    constructor (content: seq<byte>, offset: nat, size: nat)
      requires 0 < size && offset + size <= |content|
      ensures Valid(content) && fresh(rw) && readBytes == 0
      ensures this.offset == offset && this.size == size
    {
      this.offset := offset;
      this.size := size;
      this.rw := new RW(content[offset..offset + size]);
      readBytes := 0;
    }

    /** Reads up to `len` bytes, waiting for the download; `eof` once the whole chunk was read. */
    method Read(ghost content: seq<byte>, len: nat) returns (p: seq<byte>, eof: bool)
      requires Valid(content)
      modifies this`readBytes, rw`buf, rw`pending, rw`rOffset
      ensures Valid(content)
      ensures |p| == Min(len, size - old(readBytes)) && readBytes == old(readBytes) + |p|
      ensures p == content[offset + old(readBytes)..offset + readBytes]
      ensures eof <==> len > 0 && readBytes == size
    {
      p := [];
      eof := false;
      if len == 0 {
        return;
      }
      while true
        invariant Valid(content) && |p| < len
        invariant readBytes == old(readBytes) + |p|
        invariant p == content[offset + old(readBytes)..offset + readBytes]
        decreases len - |p|, rw.rOffset == |rw.buf|
      {
        rw.Progress();
        var q := Take(content, len - |p|);
        p := p + q;
        if readBytes >= size {
          return p, true;
        }
        if |p| >= len {
          return p, false;
        }
        rw.WaitWrite();
      }
    }

    /** Takes what is buffered, up to `max` bytes. */
    method Take(ghost content: seq<byte>, max: nat) returns (q: seq<byte>)
      requires Valid(content)
      modifies this`readBytes, rw`rOffset
      ensures Valid(content) && readBytes == old(readBytes) + |q|
      ensures |q| == Min(max, |rw.buf| - old(rw.rOffset)) && q == content[offset + old(readBytes)..offset + readBytes]
    {
      var eof;
      q, eof := rw.Read(max);
      SliceOfSlice(content, offset, offset + size, readBytes, readBytes + |q|);
      readBytes := readBytes + |q|;
    }

    /** Moves the read position inside the chunk, waiting until the bytes before it have arrived. */
    method SeekTo(ghost content: seq<byte>, streamOffset: nat)
      requires Valid(content) && streamOffset < size
      modifies this`readBytes, rw`buf, rw`pending, rw`rOffset
      ensures Valid(content) && readBytes == streamOffset
    {
      readBytes := streamOffset;
      while |rw.buf| < streamOffset
        invariant rw.Valid() && readBytes == streamOffset
        decreases |rw.pending|
      {
        rw.WaitWrite();
        // WaitWrite returns at once while unread bytes are buffered; the download goes on meanwhile
        if |rw.buf| < streamOffset {
          rw.Append();
        }
      }
      var _ := rw.Seek(streamOffset, FromStart);
    }
  }

  ghost predicate Distinct(streams: seq<Stream>) {
    forall i, j :: 0 <= i < j < |streams| ==> streams[i] != streams[j] && streams[i].rw != streams[j].rw
  }

  /** Neighbouring streams meet without gap or overlap, and the last one ends at `end`. */
  ghost predicate Tiling(streams: seq<Stream>, end: nat) {
    && (forall i, j :: 0 <= i && j == i + 1 && j < |streams| ==>
          streams[i].offset + streams[i].size == streams[j].offset)
    && (streams != [] ==>
          var last := streams[|streams| - 1]; last.offset + last.size == end)
  }

  lemma TilingSnoc(streams: seq<Stream>, end: nat, s: Stream)
    requires Tiling(streams, end) && s.offset == end
    ensures Tiling(streams + [s], end + s.size)
    ensures forall i :: 0 <= i < |streams| ==> (streams + [s])[i] == streams[i]
  {
  }

  lemma {:induction false} TilingOrder(streams: seq<Stream>, end: nat, i: nat, j: nat)
    requires Tiling(streams, end) && i < j < |streams|
    ensures streams[i].offset + streams[i].size <= streams[j].offset
    decreases j
  {
    if i < j - 1 {
      TilingOrder(streams, end, i, j - 1);
    }
  }

  /** The i-th stream downloads the byte at x. */
  ghost predicate HoldsAt(streams: seq<Stream>, i: nat, x: nat) {
    i < |streams| && streams[i].offset <= x < streams[i].offset + streams[i].size
  }

  /** The streams from the one that downloads x on are kept; if there is none, the next one starts at x. */
  ghost predicate KeptFrom(was: seq<Stream>, now: seq<Stream>, end: nat, x: nat) {
    if exists i: nat :: HoldsAt(was, i, x) then forall i: nat :: HoldsAt(was, i, x) ==> now == was[i..]
    else now == [] && end == x
  }

  /** The first `k` streams end at or before x, the next one behind it. */
  ghost predicate BehindUpTo(was: seq<Stream>, k: nat, x: nat) {
    && k <= |was| && (forall j :: 0 <= j < k ==> was[j].offset + was[j].size <= x)
    && (k < |was| ==> x < was[k].offset + was[k].size)
  }

  lemma KeptIs(was: seq<Stream>, wasEnd: nat, k: nat, x: nat)
    requires Tiling(was, wasEnd) && BehindUpTo(was, k, x)
    ensures k < |was| && was[k].offset <= x ==> forall end :: KeptFrom(was, was[k..], end, x)
    ensures k == |was| || x < was[k].offset ==> KeptFrom(was, [], x, x)
  {
    forall i: nat | HoldsAt(was, i, x) ensures i == k && was[k].offset <= x {
      if k < i {
        TilingOrder(was, wasEnd, k, i);
      }
    }
    assert k < |was| && was[k].offset <= x ==> HoldsAt(was, k, x);
  }

  lemma TilingTail(streams: seq<Stream>, end: nat)
    requires streams != [] && Tiling(streams, end) && Distinct(streams)
    ensures Tiling(streams[1..], end) && Distinct(streams[1..])
    ensures forall i :: 0 <= i < |streams| - 1 ==> streams[1..][i] == streams[i + 1]
  {
  }

  /** A stream that downloads its chunk of the file: a whole one, or what is left of the file. */
  ghost predicate StreamFine(s: Stream, content: seq<byte>, chunkSize: nat)
    reads s, s.rw
  {
    s.Downloads(content) && s.size == Min(chunkSize, |content| - s.offset) && s.Live()
  }

  ghost predicate AllFine(streams: seq<Stream>, content: seq<byte>, chunkSize: nat, repr: set<object>)
    requires forall s :: s in streams ==> s in repr && s.rw in repr
    reads repr
  {
    forall i {:trigger StreamFine(streams[i], content, chunkSize)} :: 0 <= i < |streams| ==>
      StreamFine(streams[i], content, chunkSize)
  }

  /** A reader with the streams it has started, in offset order, the current one first. */
  class Parallel {
    const content: seq<byte>
    const chunkSize: nat
    const nstreams: nat
    var endStream: nat
    var offset: nat
    var streams: seq<Stream>
    var closed: bool
    ghost var repr: set<object>  // this, the streams and their buffers

    ghost predicate Owned()
      reads this
    {
      this in repr && forall s :: s in streams ==> s in repr && s.rw in repr
    }

    /** The streams ahead of the first one are unread. */
    ghost predicate TailUnread()
      requires Owned()
      reads this, repr
    {
      forall i :: 0 < i < |streams| ==> streams[i].readBytes == 0
    }

    /** The first stream holds the read position; with no stream open, the next one starts there. */
    ghost predicate Positioned()
      requires Owned()
      reads this, repr
    {
      if streams == [] then endStream == offset
      else
        && streams[0].offset + streams[0].readBytes == offset
        && streams[0].readBytes < streams[0].size
    }

    /** Everything but the place of the read position. */
    ghost predicate Sound()
      reads this, repr
    {
      && Owned() && 0 < chunkSize && 0 < nstreams
      && |streams| <= nstreams
      && offset <= |content| && endStream <= |content|
      && Distinct(streams) && Tiling(streams, endStream) && TailUnread()
      && AllFine(streams, content, chunkSize, repr)
    }

    ghost predicate Valid()
      reads this, repr
    {
      Sound() && (if closed then streams == [] else Positioned())
    }

    ghost function State(): Plain
      reads this
    {
      Plain(offset, closed)
    }

    /** `New` passes -1 for a disabled chunk size and never 0; the size is rounded up to whole buffers. */
    constructor (content: seq<byte>, chunkSize: int, streams: nat)
      requires chunkSize != 0 && 1 < streams
      ensures Valid() && fresh(repr) && this.content == content && State() == Plain(0, false)
      ensures this.chunkSize % BUFFER_SIZE == 0
      ensures 0 < chunkSize ==> chunkSize <= this.chunkSize < chunkSize + BUFFER_SIZE
      ensures chunkSize < 0 ==> this.chunkSize == BUFFER_SIZE
      ensures nstreams == streams
    {
      var size := if chunkSize < 0 then BUFFER_SIZE else chunkSize;
      var newChunkSize := BUFFER_SIZE * (size / BUFFER_SIZE);
      if newChunkSize < size {
        newChunkSize := newChunkSize + BUFFER_SIZE;
      }
      this.content := content;
      this.chunkSize := newChunkSize;
      this.nstreams := streams;
      this.endStream := 0;
      this.offset := 0;
      this.streams := [];
      this.closed := false;
      this.repr := {this};
    }

    /** Queues a new stream that starts where the last one ends. */
    method Enqueue(s: Stream)
      requires Valid() && !closed && |streams| < nstreams
      requires s.Valid(content) && s.offset == endStream && s.readBytes == 0
      requires s.size == Min(chunkSize, |content| - s.offset)
      requires s !in repr && s.rw !in repr
      modifies this`streams, this`endStream, this`repr
      ensures Valid() && streams == old(streams) + [s] && repr == old(repr) + {s, s.rw}
      ensures endStream == old(endStream) + s.size
    {
      TilingSnoc(streams, endStream, s);
      ghost var was := streams;
      streams, endStream, repr := streams + [s], endStream + s.size, repr + {s, s.rw};
      forall i | 0 <= i < |streams| ensures StreamFine(streams[i], content, chunkSize) {
        assert i < |was| ==> streams[i] == was[i] && StreamFine(was[i], content, chunkSize);
      }
    }

    /** Starts one stream at `endStream`, clipped to the length of the file. */
    method StartStream()
      requires Valid() && !closed && endStream < |content| && |streams| < nstreams
      modifies this`streams, this`endStream, this`repr
      ensures Valid() && fresh(repr - old(repr)) && |streams| == |old(streams)| + 1
      ensures old(streams) <= streams && old(endStream) < endStream
    {
      var size := chunkSize;
      if endStream + size > |content| {
        size := |content| - endStream;
      }
      var s := new Stream(content, endStream, size);
      Enqueue(s);
    }

    /** Starts streams until `nstreams` run or the end of the file is reached. */
    method Open()
      requires Valid() && !closed
      modifies this`streams, this`endStream, this`repr
      ensures Valid() && fresh(repr - old(repr)) && old(streams) <= streams
      ensures streams == [] <==> offset == |content|
      ensures |streams| == nstreams || endStream == |content|
    {
      if endStream >= |content| {
        HeadBounded();
        return;
      }
      var i := |streams|;
      while i < nstreams
        invariant Valid() && fresh(repr - old(repr)) && old(streams) <= streams && i == |streams|
        invariant streams == [] ==> endStream < |content|
      {
        if streams != [] && endStream >= |content| {
          break;
        }
        StartStream();
        i := i + 1;
      }
      HeadBounded();
    }

    /** While a stream is open the read position is before the end of the file. */
    lemma HeadBounded()
      requires Valid() && !closed
      ensures streams != [] ==> offset < |content|
    {
      assert streams != [] ==> StreamFine(streams[0], content, chunkSize);
    }

    /** Drops the stream at the head of the queue. */
    method PopStream()
      requires Sound() && streams != []
      modifies this`streams
      ensures Sound() && streams == old(streams)[1..]
    {
      TilingTail(streams, endStream);
      ghost var was := streams;
      streams := streams[1..];
      forall i | 0 <= i < |streams| ensures StreamFine(streams[i], content, chunkSize) {
        assert streams[i] == was[i + 1] && StreamFine(was[i + 1], content, chunkSize);
      }
    }

    /** Reads from the head stream without dropping it. */
    method AdvanceHead(stream: Stream, len: nat) returns (q: seq<byte>, eof: bool)
      requires Valid() && !closed && streams != [] && stream == streams[0] && 0 < len
      modifies this`offset, stream`readBytes, stream.rw`buf, stream.rw`pending, stream.rw`rOffset
      ensures Sound() && stream.offset + stream.readBytes == offset
      ensures eof <==> stream.readBytes == stream.size
      ensures 0 < |q| <= len && offset == old(offset) + |q|
      ensures q == content[old(offset)..offset]
    {
      assert StreamFine(stream, content, chunkSize);
      assert forall i :: 0 <= i < |streams| ==> StreamFine(streams[i], content, chunkSize);
      q, eof := stream.Read(content, len);
      offset := offset + |q|;
      forall i | 0 < i < |streams| ensures StreamFine(streams[i], content, chunkSize) && streams[i].readBytes == 0 {
        assert streams[i] != stream && streams[i].rw != stream.rw;
      }
    }

    /** Reads from the head stream and drops it when it is used up. */
    method ReadHead(len: nat) returns (q: seq<byte>)
      requires Valid() && !closed && streams != [] && 0 < len
      modifies repr
      ensures Valid() && repr == old(repr) && !closed
      ensures 0 < |q| <= len && offset == old(offset) + |q|
      ensures q == content[old(offset)..offset]
    {
      var eof;
      q, eof := AdvanceHead(streams[0], len);
      assert StreamFine(streams[0], content, chunkSize);
      if eof {
        PopStream();
        assert streams != [] ==> StreamFine(streams[0], content, chunkSize);
      }
    }

    method PopStreams()
      requires Sound()
      modifies this`streams
      ensures Sound() && streams == []
    {
      while |streams| > 0
        invariant Sound()
      {
        PopStream();
      }
    }

    /** One round of the loop of Read: at least one byte, or nothing at the end of the file. */
    method ReadSome(len: nat) returns (q: seq<byte>)
      requires Valid() && !closed && 0 < len
      modifies repr
      ensures Valid() && fresh(repr - old(repr)) && !closed
      ensures offset == old(offset) + |q| && |q| <= len && offset <= |content|
      ensures q == content[old(offset)..offset]
      ensures q == [] ==> offset == |content|
    {
      Open();
      // no streams left means end of file
      if |streams| == 0 {
        return [];
      }
      q := ReadHead(len);
    }

    /** The loop of Read: collects `len` bytes, or fewer when no stream is left. */
    method Fill(len: nat) returns (p: seq<byte>, eof: bool)
      requires Valid() && !closed
      modifies repr
      ensures Valid() && fresh(repr - old(repr)) && !closed
      ensures offset == old(offset) + |p| <= |content| && |p| <= len
      ensures p == content[old(offset)..offset]
      ensures if eof then |p| < len && offset == |content| else |p| == len
    {
      p := [];
      while |p| < len
        invariant Valid() && fresh(repr - old(repr)) && !closed && |p| <= len
        invariant offset == old(offset) + |p| <= |content|
        invariant p == content[old(offset)..offset]
      {
        var q := ReadSome(len - |p|);
        if q == [] {
          return p, true;
        }
        p := p + q;
      }
      eof := false;
    }

    /** Exactly the bytes at the offset, short only at the end of the file. */
    method Read(len: nat) returns (reply: Reply)
      requires Valid()
      modifies repr
      ensures Valid() && fresh(repr - old(repr))
      ensures (State(), reply) == Step(content, false, old(State()), Op.Read(len))
    {
      if closed {
        return FileClosed;
      }
      var p, eof := Fill(len);
      SliceReached(content, old(offset), offset, len);
      return Data(p, eof);
    }

    method Close() returns (reply: Reply)
      requires Valid()
      modifies repr
      ensures Valid() && fresh(repr - old(repr))
      ensures (State(), reply) == Step(content, false, old(State()), Op.Close)
    {
      if closed {
        return FileClosed;
      }
      closed := true;
      PopStreams();
      return Done;
    }

    /** Moves the read position, keeping the streams that still lie ahead of it. */
    method Seek(delta: int, whence: Whence) returns (reply: Reply)
      requires Valid()
      modifies repr
      ensures Valid() && fresh(repr - old(repr))
      ensures (State(), reply) == Step(content, false, old(State()), Op.Seek(delta, whence))
      ensures reply.Position? ==> KeptFrom(old(streams), streams, endStream, offset)
      ensures !reply.Position? ==> streams == old(streams) && endStream == old(endStream)
    {
      if closed {
        return FileClosed;
      }
      var currentOffset := offset;
      match whence {
        case FromStart => currentOffset := 0;
        case FromEnd => currentOffset := |content|;
        case FromCurrent =>
      }
      assert currentOffset + delta == SeekTarget(content, offset, delta, whence);
      reply := MoveTo(currentOffset + delta);
    }

    /** The part of Seek behind the choice of the origin. */
    method MoveTo(newOffset: int) returns (reply: Reply)
      requires Valid() && !closed
      modifies repr
      ensures Valid() && repr == old(repr) && !closed
      ensures if 0 <= newOffset < |content| then reply == Position(newOffset) && offset == newOffset
              else reply == InvalidSeek && offset == old(offset)
      ensures reply.Position? ==> KeptFrom(old(streams), streams, endStream, offset)
      ensures !reply.Position? ==> streams == old(streams) && endStream == old(endStream)
    {
      if newOffset < 0 || newOffset >= |content| {
        return InvalidSeek;
      }
      // nothing to do
      if newOffset == offset {
        KeptHere();
        return Position(offset);
      }
      Reposition(newOffset);
      return Position(offset);
    }

    /** Drops the streams that end at or before `newOffset`. */
    method DropBehind(newOffset: nat) returns (ghost k: nat)
      requires Sound()
      modifies this`streams
      ensures Sound() && BehindUpTo(old(streams), k, newOffset) && streams == old(streams)[k..]
    {
      k := 0;
      while |streams| > 0
        invariant Sound() && 0 <= k <= |old(streams)| && streams == old(streams)[k..]
        invariant forall j :: 0 <= j < k ==> old(streams)[j].offset + old(streams)[j].size <= newOffset
      {
        if newOffset >= streams[0].offset + streams[0].size {
          PopStream();
          k := k + 1;
        } else {
          break;
        }
      }
      assert BehindUpTo(old(streams), k, newOffset);
    }

    /** Staying where it is, the reader keeps all its streams. */
    lemma KeptHere()
      requires Valid() && !closed
      ensures KeptFrom(streams, streams, endStream, offset)
    {
      KeptIs(streams, endStream, 0, offset);
      assert streams[0..] == streams;
    }

    /** Moves the read position of an open reader to another place inside the file. */
    method Reposition(newOffset: nat)
      requires Valid() && !closed && newOffset < |content|
      modifies repr
      ensures Valid() && repr == old(repr) && !closed && offset == newOffset
      ensures KeptFrom(old(streams), streams, endStream, newOffset)
    {
      ghost var was, wasEnd := streams, endStream;
      offset := newOffset;
      ghost var k := DropBehind(newOffset);
      Settle(newOffset);
      KeptIs(was, wasEnd, k, newOffset);
    }

    /** The first stream, which ends behind the read position, takes it up, or all go. */
    method Settle(newOffset: nat)
      requires Sound() && !closed && offset == newOffset < |content|
      requires streams != [] ==> newOffset < streams[0].offset + streams[0].size
      modifies repr
      ensures Valid() && repr == old(repr) && !closed && offset == newOffset
      ensures if old(streams) != [] && old(streams)[0].offset <= newOffset then streams == old(streams)
              else streams == [] && endStream == newOffset
    {
      // the next Read opens new ones here
      if |streams| == 0 {
        endStream := offset;
        return;
      }
      var stream := streams[0];
      // before the current stream: ditch all the streams
      if newOffset < stream.offset {
        PopStreams();
        endStream := offset;
        return;
      }
      AdvanceTo(stream, newOffset);
    }

    /** Moves the first stream to another place inside its chunk. */
    method AdvanceTo(stream: Stream, newOffset: nat)
      requires Sound() && streams != [] && stream == streams[0] && newOffset == offset
      requires stream.offset <= newOffset < stream.offset + stream.size
      modifies stream`readBytes, stream.rw
      ensures Sound() && stream.offset + stream.readBytes == offset && streams == old(streams)
    {
      assert StreamFine(stream, content, chunkSize);
      assert forall i :: 0 <= i < |streams| ==> StreamFine(streams[i], content, chunkSize);
      stream.SeekTo(content, newOffset - stream.offset);
      forall i | 0 < i < |streams| ensures StreamFine(streams[i], content, chunkSize) && streams[i].readBytes == 0 {
        assert streams[i] != stream && streams[i].rw != stream.rw;
      }
    }

    /** Any one operation gets the reply of the plain reader. */
    method Do(op: Op) returns (reply: Reply)
      requires Valid()
      modifies repr
      ensures Valid() && fresh(repr - old(repr))
      ensures (State(), reply) == Step(content, false, old(State()), op)
    {
      match op {
        case Read(len) => reply := Read(len);
        case Seek(delta, whence) => reply := Seek(delta, whence);
        case Close => reply := Close();
      }
    }

    /** Any sequence of reads, seeks and closes gets the replies of the plain reader. */
    method Execute(ops: seq<Op>) returns (replies: seq<Reply>)
      requires Valid()
      modifies repr
      ensures Valid() && fresh(repr - old(repr))
      ensures replies == Run(content, false, old(State()), ops)
    {
      replies := [];
      for i := 0 to |ops|
        invariant Valid() && fresh(repr - old(repr))
        invariant replies == Run(content, false, old(State()), ops[..i])
        invariant State() == After(content, false, old(State()), ops[..i])
      {
        assert ops[..i + 1] == ops[..i] + [ops[i]];
        RunSnoc(content, false, old(State()), ops[..i], ops[i]);
        var reply := Do(ops[i]);
        replies := replies + [reply];
      }
      assert ops[..|ops|] == ops;
    }
  }
}
