/**
 The sequential chunked reader: one open body at a time, in chunks whose size doubles.
 It behaves as the plain reader of the remote content.
 */
module SequentialReader {
  import opened PlainReader
  import opened Ranges
  import opened Wrappers

  /** What the remote sends for a chunk; a size of zero or less asks for the rest of the file. */
  function Body(content: seq<byte>, start: nat, size: int): seq<byte>
    requires start <= |content|
  {
    if size <= 0 then content[start..] else Slice(content, start, size)
  }

  /** The chunks follow each other without gap or overlap from `from` to `to`. */
  ghost predicate Chain(chunks: seq<Range>, from: int, to: int) {
    && (chunks == [] ==> from == to)
    && (chunks != [] ==> chunks[0].pos == from && chunks[|chunks| - 1].End() == to)
    && (forall i, j :: 0 <= i && j == i + 1 && j < |chunks| ==> chunks[i].End() == chunks[j].pos)
  }

  lemma ChainSnoc(chunks: seq<Range>, from: int, r: Range)
    requires Chain(chunks, from, r.pos)
    ensures Chain(chunks + [r], from, r.End())
  {
    var out := chunks + [r];
    assert out[|chunks|] == r;
    assert forall i :: 0 <= i < |chunks| ==> out[i] == chunks[i];
  }

  /** How a read ended. */
  datatype Outcome = Complete | EndOfFile | OpenRefused

  /** The reply of the plain reader, or, when an open failed, the right bytes before the failure. */
  ghost predicate Reads(content: seq<byte>, was: Plain, now: Plain, len: nat, reply: Reply) {
    if reply.OpenFailed? then
      && now == was.(pos := was.pos + |reply.bytes|)
      && reply.bytes == Slice(content, was.pos, |reply.bytes|)
    else (now, reply) == Step(content, true, was, Op.Read(len))
  }

  lemma ReadsFilled(content: seq<byte>, from: nat, to: nat, len: nat, outcome: Outcome)
    requires from <= to <= |content| && to - from <= len
    requires outcome.Complete? ==> to - from == len
    requires outcome.EndOfFile? ==> to - from < len && to == |content|
    ensures var p := content[from..to];
            Reads(content, Plain(from, false), Plain(to, false), len, match outcome
              case Complete => Data(p, false)
              case EndOfFile => Data(p, true)
              case OpenRefused => OpenFailed(p))
  {
    SliceReached(content, from, to, len);
  }

  /** Splitting what is left of a body. */
  lemma BodyParts(content: seq<byte>, from: nat, end: int, n: nat, want: nat)
    requires from <= end <= |content| && n == Min(want, end - from)
    requires from + want <= end || end == |content|
    ensures content[from..end][..n] == content[from..from + n] == Slice(content, from, want)
    ensures content[from..end][n..] == content[from + n..end]
  {
  }

  /** The k-th chunk after one of `size`: doubled each time, but not beyond a maximum, if there is one. */
  function Grown(size: int, max: int, k: nat): int {
    if k == 0 then size
    else
      var twice := 2 * Grown(size, max, k - 1);
      if max != -1 && twice > max then max else twice
  }

  function PowerOf2(k: nat): nat { if k == 0 then 1 else 2 * PowerOf2(k - 1) }

  /** The k-th chunk after one of `size` is as long as that doubled k times, or as the maximum. */
  lemma {:induction false} GrownLaw(size: nat, max: int, k: nat)
    requires 0 < size && (max == -1 || size <= max)
    ensures Grown(size, max, k) == if max != -1 && size * PowerOf2(k) > max then max else size * PowerOf2(k)
    decreases k
  {
    if k == 0 {
      assert size * PowerOf2(0) == size;
    } else {
      GrownLaw(size, max, k - 1);
      assert size * PowerOf2(k) == 2 * (size * PowerOf2(k - 1));
    }
  }

  lemma JoinSlices(content: seq<byte>, a: int, b: int, c: int)
    requires 0 <= a <= b <= c <= |content|
    ensures content[a..b] + content[b..c] == content[a..c]
  {
  }

  class Sequential {
    const content: seq<byte>
    const initialChunkSize: int
    const maxChunkSize: int
    var rc: Option<seq<byte>>      // unread part of the open body
    var offset: int                // -1 forces a reopen
    var chunkOffset: int
    var chunkSize: int
    var customChunkSize: bool
    var closed: bool
    var openFaults: seq<bool>      // which of the next opens fail
    ghost var seekStart: int       // where reading started after the last seek
    ghost var chunks: seq<Range>   // the chunks opened since then
    ghost var first: int           // the size of the first of them
    ghost var restarts: bool       // the second one starts again from the initial size

    /** Sizes the reader chose itself grow no faster than what was read since the last seek. */
    ghost predicate Sized()
      reads this
    {
      && (initialChunkSize == -1 || 0 < initialChunkSize)
      && (maxChunkSize == -1 || initialChunkSize <= maxChunkSize)
      && 0 <= seekStart <= chunkOffset <= |content| && -1 <= chunkSize
      && (!customChunkSize ==> chunkSize <= Max(initialChunkSize, 0) + (chunkOffset - seekStart))
      && (!customChunkSize && 0 < chunkSize ==> 0 < initialChunkSize)
    }

    /** The size of the i-th chunk since the last seek. */
    ghost function SizeAt(i: nat): int
      reads this`first, this`restarts
    {
      if i == 0 then first
      else if restarts then Grown(initialChunkSize, maxChunkSize, i - 1)
      else Grown(first, maxChunkSize, i)
    }

    /** Each chunk has the size that is due, and so has the current one, the i-th. */
    ghost predicate InStep(i: nat)
      reads this
    {
      && (!restarts ==> first == initialChunkSize) && (customChunkSize <==> restarts && i == 0)
      && chunkSize == SizeAt(i) && forall j :: 0 <= j < |chunks| ==> chunks[j].size == SizeAt(j)
    }

    /** What the next chunk's size follows from: a chunk of its own length is forgotten, any other one doubled. */
    lemma NextSize(i: nat)
      requires InStep(i)
      ensures customChunkSize ==> SizeAt(i + 1) == initialChunkSize
      ensures !customChunkSize ==>
                var twice := 2 * chunkSize;
                SizeAt(i + 1) == if maxChunkSize != -1 && twice > maxChunkSize then maxChunkSize else twice
    {
      if restarts && i > 0 {
        assert Grown(initialChunkSize, maxChunkSize, i - 1) == chunkSize;
      } else if !restarts {
        assert Grown(first, maxChunkSize, i) == chunkSize;
        assert Grown(first, maxChunkSize, i + 1) == SizeAt(i + 1);
      }
    }

    /** The open body continues exactly where the next read starts; its chunk follows the ones before. */
    ghost predicate Streaming()
      reads this
    {
      && 0 <= chunkOffset <= offset <= |content|
      && (0 < chunkSize ==> offset <= chunkOffset + chunkSize)
      && rc == Some(content[offset..BodyEnd()])
      && Chain(chunks, seekStart, chunkOffset + chunkSize)
      && chunks != [] && chunks[|chunks| - 1] == Range(chunkOffset, chunkSize) && InStep(|chunks| - 1)
    }

    /** After a seek, nothing is open until the next read. */
    ghost predicate Pending()
      reads this
    {
      offset == -1 && chunks == [] && chunkOffset == seekStart && InStep(0)
    }

    ghost predicate Valid()
      reads this
    {
      Sized() && (closed || Pending() || Streaming())
    }

    /** A failed reopen in the middle of a read: the old body is used up, but not the file. */
    ghost predicate Stuck()
      reads this
    {
      && Sized() && rc == Some([]) && 0 <= chunkOffset == offset <= |content|
      && (0 < chunkSize || initialChunkSize == -1)
    }

    ghost function Position(): int
      reads this
    {
      if offset == -1 then chunkOffset else offset
    }

    ghost function State(): Plain
      reads this
    {
      Plain(Max(Position(), 0), closed)
    }

    /** `New` has replaced sizes of zero or less by -1 and a too small maximum by the initial size. */
    constructor (content: seq<byte>, initialChunkSize: int, maxChunkSize: int, openFaults: seq<bool>)
      requires initialChunkSize == -1 || 0 < initialChunkSize
      requires maxChunkSize == -1 || initialChunkSize <= maxChunkSize
      ensures Valid() && this.content == content && State() == Plain(0, false)
      ensures this.openFaults == openFaults && Pending() && !customChunkSize
      ensures chunkSize == initialChunkSize == this.initialChunkSize && maxChunkSize == this.maxChunkSize
    {
      this.content := content;
      this.initialChunkSize := initialChunkSize;
      this.maxChunkSize := maxChunkSize;
      this.rc := None;
      this.offset := -1;
      this.chunkOffset := 0;
      this.chunkSize := initialChunkSize;
      this.customChunkSize := false;
      this.closed := false;
      this.openFaults := openFaults;
      this.seekStart := 0;
      this.chunks := [];
      this.first, this.restarts := initialChunkSize, false;
    }

    /** Opens the current chunk; a failing remote leaves the reader as it was. */
    method OpenRange() returns (ok: bool)
      requires 0 <= chunkOffset <= |content|
      modifies this`rc, this`offset, this`openFaults, this`chunks
      ensures ok <==> old(openFaults) == [] || !old(openFaults)[0]
      ensures openFaults == if old(openFaults) == [] then [] else old(openFaults)[1..]
      ensures !ok ==> rc == old(rc) && offset == old(offset) && chunks == old(chunks)
      ensures ok ==>
                && offset == chunkOffset
                && rc == Some(Body(content, chunkOffset, chunkSize)) == Some(content[chunkOffset..BodyEnd()])
      ensures ok ==> chunks == old(chunks) + [Range(chunkOffset, chunkSize)]
      ensures ok && old(Chain(chunks, seekStart, chunkOffset)) ==> Chain(chunks, seekStart, chunkOffset + chunkSize)
      ensures ok && old(InStep(|chunks|)) ==> InStep(|chunks| - 1)
    {
      assert Body(content, chunkOffset, chunkSize) == content[chunkOffset..BodyEnd()];
      if Chain(chunks, seekStart, chunkOffset) { ChainSnoc(chunks, seekStart, Range(chunkOffset, chunkSize)); }
      if openFaults != [] {
        var fails := openFaults[0];
        openFaults := openFaults[1..];
        if fails {
          return false;
        }
      }
      rc := Some(Body(content, chunkOffset, chunkSize));
      offset := chunkOffset;
      chunks := chunks + [Range(chunkOffset, chunkSize)];
      return true;
    }

    /** Turns to the next chunk once the current one is read completely. */
    method NextChunk()
      requires Valid() && !closed && 0 < chunkSize && offset == chunkOffset + chunkSize
      modifies this`chunkOffset, this`chunkSize, this`customChunkSize
      ensures Sized() && chunkOffset == offset && rc == Some([])
      ensures 0 < chunkSize || initialChunkSize == -1
      ensures Chain(chunks, seekStart, chunkOffset) && InStep(|chunks|)
    {
      assert Streaming() && BodyEnd() == offset && content[offset..offset] == [];
      NextSize(|chunks| - 1);
      chunkOffset := offset;
      if customChunkSize {
        customChunkSize := false;
        chunkSize := initialChunkSize;
      } else {
        chunkSize := chunkSize * 2;
        if chunkSize > maxChunkSize && maxChunkSize != -1 {
          chunkSize := maxChunkSize;
        }
      }
    }

    /** Makes an unfinished chunk current; false when the remote refuses to open it. */
    method Prepare() returns (ok: bool)
      requires !closed && (Valid() || Stuck())
      modifies this`rc, this`offset, this`chunkOffset, this`chunkSize, this`customChunkSize, this`openFaults,
               this`chunks
      ensures Position() == old(Position())
      ensures old(Valid()) && ok ==> Valid() && offset != -1
      ensures old(Valid()) && ok && 0 < chunkSize ==> offset < chunkOffset + chunkSize
      ensures old(Valid()) && !ok ==> (if old(offset) == -1 then Valid() else Stuck())
      ensures !old(Valid()) ==> ok && Stuck()
      ensures old(openFaults) == [] ==> ok && openFaults == []
      ensures old(Valid()) &&
              (old(offset) == -1 || (0 < old(chunkSize) && old(offset) == old(chunkOffset + chunkSize))) ==>
                && ok == (old(openFaults) == [] || !old(openFaults)[0])
                && (old(openFaults) != [] ==> openFaults == old(openFaults)[1..])
      ensures old(offset) == -1 ==> chunkOffset == old(chunkOffset) && chunkSize == old(chunkSize)
    {
      ok := true;
      if 0 < chunkSize && offset == chunkOffset + chunkSize {
        NextChunk();
        ok := OpenRange();
      } else if offset == -1 {
        ok := OpenRange();
      }
    }

    /** Reads from the open body; getting less than wanted means the body ended. */
    method ReadFull(want: nat) returns (q: seq<byte>)
      requires !closed && offset != -1 && (Valid() || Stuck())
      requires Valid() && 0 < chunkSize ==> offset + want <= chunkOffset + chunkSize
      modifies this`rc, this`offset
      ensures offset == old(offset) + |q|
      ensures old(Valid()) ==> Valid() && q == Slice(content, old(offset), want)
      ensures old(Stuck()) ==> Stuck() && q == []
    {
      var n := Min(want, |rc.value|);
      if Streaming() { BodyParts(content, offset, BodyEnd(), n, want); }
      q := rc.value[..n];
      rc := Some(rc.value[n..]);
      offset := offset + n;
    }

    /** Where the open body ends. */
    ghost function BodyEnd(): int
      reads this`chunkOffset, this`chunkSize
    {
      if 0 < chunkSize then Min(chunkOffset + chunkSize, |content|) else |content|
    }

    /** The next byte read needs an open. */
    predicate NeedsOpen()
      reads this`offset, this`chunkOffset, this`chunkSize
    {
      offset == -1 || (0 < chunkSize && offset == chunkOffset + chunkSize)
    }

    /** One round of the loop of Read: makes a chunk current and reads from it. */
    method ReadSome(len: nat) returns (q: seq<byte>, outcome: Outcome)
      requires !closed && 0 < len && (Valid() || Stuck())
      modifies this
      ensures closed == old(closed) && (Valid() || Stuck())
      ensures old(Valid()) ==> Position() == old(Position()) + |q| <= |content| && |q| <= len
      ensures old(Valid()) ==> q == content[old(Position())..Position()]
      ensures old(Valid()) && outcome.Complete? ==> Valid() && 0 < |q| && offset != -1
      ensures old(Valid()) && outcome.EndOfFile? ==> Valid() && |q| < len && Position() == |content|
      ensures old(Valid()) && outcome.OpenRefused? ==> q == [] && (if old(offset) == -1 then Valid() else Stuck())
      ensures !old(Valid()) ==> q == [] && outcome.EndOfFile? && Stuck()
      ensures old(Valid() && NeedsOpen() && openFaults != [] && openFaults[0]) ==> outcome.OpenRefused? && q == []
      ensures old(Valid() && offset == -1 && openFaults != [] && !openFaults[0]) ==>
                offset == old(chunkOffset) + |q| && chunkOffset == old(chunkOffset) && chunkSize == old(chunkSize)
                && openFaults == old(openFaults)[1..] && !outcome.OpenRefused?
      ensures old(openFaults) == [] ==> openFaults == [] && !outcome.OpenRefused?
    {
      var ok := Prepare();
      if !ok {
        return [], OpenRefused;
      }
      q, outcome := ReadPrepared(len);
    }

    /** The part of a round with a chunk current. */
    method ReadPrepared(len: nat) returns (q: seq<byte>, outcome: Outcome)
      requires !closed && 0 < len && offset != -1 && (Valid() || Stuck())
      requires Valid() && 0 < chunkSize ==> offset < chunkOffset + chunkSize
      modifies this`rc, this`offset
      ensures (Valid() || Stuck()) && offset == old(offset) + |q| && !outcome.OpenRefused?
      ensures old(Valid()) ==> Valid() && offset <= |content| && |q| <= len && q == content[old(offset)..offset]
      ensures old(Valid()) && outcome.Complete? ==> 0 < |q|
      ensures old(Valid()) && outcome.EndOfFile? ==> |q| < len && offset == |content|
      ensures !old(Valid()) ==> q == [] && outcome.EndOfFile? && Stuck()
    {
      // limit the read to the chunk when there is one
      var chunkRest := chunkOffset + chunkSize - offset;
      var want := if len > chunkRest && 0 < chunkSize then chunkRest else len;
      q := ReadFull(want);
      outcome := if |q| < want then EndOfFile else Complete;
    }

    /** The loop of Read. */
    method Fill(len: nat) returns (p: seq<byte>, outcome: Outcome)
      requires !closed && (Valid() || Stuck())
      modifies this
      ensures closed == old(closed) && (Valid() || Stuck())
      ensures old(Valid()) ==> Position() == old(Position()) + |p| <= |content| && |p| <= len
      ensures old(Valid()) ==> p == content[old(Position())..Position()]
      ensures old(Valid()) && outcome.Complete? ==> Valid() && |p| == len
      ensures old(Valid()) && outcome.EndOfFile? ==> Valid() && |p| < len && Position() == |content|
      ensures old(Valid()) && outcome.OpenRefused? ==> if p == [] && old(offset) == -1 then Valid() else Stuck()
      ensures !old(Valid()) && 0 < len ==> p == [] && outcome.EndOfFile? && Stuck()
      ensures old(Valid() && NeedsOpen() && openFaults != [] && openFaults[0]) && len == 1 ==>
                outcome.OpenRefused? && p == []
      ensures old(Valid() && offset == -1 && openFaults != [] && !openFaults[0]) && len == 1 ==>
                offset == old(chunkOffset) + |p| && chunkOffset == old(chunkOffset) && chunkSize == old(chunkSize)
                && openFaults == old(openFaults)[1..] && !outcome.OpenRefused?
      ensures old(openFaults) == [] ==> openFaults == [] && !outcome.OpenRefused?
    {
      p := [];
      ghost var fine, from, start := Valid(), Position(), offset;
      while |p| < len
        invariant closed == old(closed) && |p| <= len
        invariant !fine ==> Stuck() && !Valid() && p == []
        invariant fine ==> Valid() && Position() == from + |p| <= |content| && p == content[from..Position()]
        invariant fine ==> if p == [] then offset == start else offset != -1
        invariant old(openFaults) == [] ==> openFaults == []
        invariant p == [] ==> offset == old(offset) && chunkOffset == old(chunkOffset) && chunkSize == old(chunkSize)
                              && openFaults == old(openFaults)
        invariant p != [] && len == 1 && old(Valid() && NeedsOpen() && openFaults != []) ==> !old(openFaults)[0]
        invariant p != [] && len == 1 && old(Valid() && offset == -1 && openFaults != [] && !openFaults[0]) ==>
                    offset == old(chunkOffset) + 1 && chunkOffset == old(chunkOffset) && chunkSize == old(chunkSize)
                    && openFaults == old(openFaults)[1..]
      {
        ghost var mid := Position();
        var q, round := ReadSome(len - |p|);
        if fine { JoinSlices(content, from, mid, Position()); }
        if !round.Complete? {
          return p + q, round;
        }
        p := p + q;
      }
      outcome := Complete;
    }

    /**
     The bytes at the position, short only at the end of the file.  When an open fails the
     bytes before the failure are delivered.  Unless it was the first open after a seek, the
     reader is then stuck: it reports the end of the file until the next seek.
     */
    method Read(len: nat) returns (reply: Reply)
      requires Valid() || Stuck()
      modifies this
      ensures closed == old(closed) && (Valid() || Stuck())
      ensures old(Valid()) ==> Reads(content, old(State()), State(), len, reply)
      ensures old(Valid()) && !reply.OpenFailed? ==> Valid()
      ensures old(Valid()) && reply.OpenFailed? ==> if reply.bytes == [] && old(offset) == -1 then Valid() else Stuck()
      ensures old(openFaults) == [] ==> !reply.OpenFailed? && openFaults == []
      ensures !old(Valid() || closed) && 0 < len ==> reply == Data([], true) && Stuck()
      ensures old(Valid() && !closed && NeedsOpen() && openFaults != [] && openFaults[0]) && len == 1 ==>
                reply == OpenFailed([])
      ensures old(Valid() && !closed && offset == -1 && openFaults != [] && !openFaults[0]) && len == 1 ==>
                reply.Data? && offset == old(chunkOffset) + |reply.bytes| && chunkOffset == old(chunkOffset)
                && chunkSize == old(chunkSize) && openFaults == old(openFaults)[1..]
    {
      if closed {
        return FileClosed;
      }
      var p, outcome := Fill(len);
      reply := match outcome
        case Complete => Data(p, false)
        case EndOfFile => Data(p, true)
        case OpenRefused => OpenFailed(p);
      if old(Valid()) { ReadsFilled(content, old(Position()), Position(), len, outcome); }
    }

    /** A stuck reader's answer is the right one exactly at the end of the file. */
    lemma StuckAnswer(len: nat)
      requires Stuck() && !closed && 0 < len
      ensures Data([], true) == Step(content, true, State(), Op.Read(len)).1 <==> offset == |content|
    {
    }

    /** For files far below the limit, neither doubling a chunk size nor a chunk's end leaves int64. */
    lemma ChunksStayInInt64()
      requires Valid() && !customChunkSize
      requires 2 * (Max(initialChunkSize, 0) + |content|) <= MAX_INT64
      ensures InInt64(2 * chunkSize) && InInt64(chunkOffset + chunkSize)
      ensures chunkSize <= Max(initialChunkSize, 0) + |content|
    {
    }

    /** Where a seek leads in the source: relative seeks start from `offset`, even when it is -1. */
    function Target(delta: int, whence: Whence): int
      reads this`offset
    {
      delta + match whence
              case FromStart => 0
              case FromCurrent => offset
              case FromEnd => |content|
    }

    /** A seek aims where the plain reader would, unless it is relative and a reopen is pending. */
    lemma TargetExact(delta: int, whence: Whence)
      requires Valid() && !closed
      ensures (Target(delta, whence) == SeekTarget(content, Position(), delta, whence))
          <==> !(whence == FromCurrent && offset == -1)
    {
    }

    /** Moves the position; the next read reopens the source, and gets unstuck by it. */
    method RangeSeek(delta: int, whence: Whence, length: int) returns (reply: Reply)
      requires Valid() || Stuck()
      modifies this
      ensures Valid() && openFaults == old(openFaults)
      ensures old(closed) ==> reply == FileClosed && State() == old(State())
      ensures !old(closed) ==>
                var target := old(Target(delta, whence));
                if 0 <= target < |content|
                then reply == Reply.Position(target) && State() == Plain(target, false)
                else reply == InvalidSeek && State() == Plain(0, false)
      ensures !old(closed) ==> chunkSize == (if 0 < length then length else initialChunkSize) && Pending()
    {
      if closed {
        return FileClosed;
      }
      var at := offset;
      match whence {
        case FromStart => at := 0;
        case FromEnd => at := |content|;
        case FromCurrent =>
      }
      reply := Restart(at + delta, length);
    }

    /** The new chunk start; the next read reopens there, or at 0 when it is not in the file. */
    method Restart(start: int, length: int) returns (reply: Reply)
      requires Sized() && !closed
      modifies this
      ensures Valid() && Pending() && !closed && openFaults == old(openFaults)
      ensures chunkSize == if 0 < length then length else initialChunkSize
      ensures if 0 <= start < |content| then reply == Reply.Position(start) && chunkOffset == start
              else reply == InvalidSeek && chunkOffset == 0
    {
      chunkOffset := start;
      // force a reopen on the next read
      offset := -1;
      chunks := [];
      if 0 < length {
        customChunkSize := true;
        chunkSize := length;
      } else {
        chunkSize := initialChunkSize;
      }
      first, restarts := chunkSize, customChunkSize;
      if chunkOffset < 0 || chunkOffset >= |content| {
        chunkOffset := 0;
        seekStart := 0;
        return InvalidSeek;
      }
      seekStart := chunkOffset;
      return Reply.Position(chunkOffset);
    }

    /** Unless a length was given for the first one, the chunks since the last seek double up to the maximum. */
    lemma ChunksDouble(i: nat)
      requires Valid() && !closed && !restarts && 0 < initialChunkSize && i < |chunks|
      ensures var doubled := initialChunkSize * PowerOf2(i);
              chunks[i].size == if maxChunkSize != -1 && doubled > maxChunkSize then maxChunkSize else doubled
    {
      GrownLaw(initialChunkSize, maxChunkSize, i);
      assert Grown(first, maxChunkSize, 0) == first;
    }

    method Seek(delta: int, whence: Whence) returns (reply: Reply)
      requires Valid()
      modifies this
      ensures Valid() && openFaults == old(openFaults)
      ensures whence != FromCurrent || old(offset) != -1 || old(closed) ==>
                (State(), reply) == Step(content, true, old(State()), Op.Seek(delta, whence))
    {
      if !closed { TargetExact(delta, whence); }
      reply := RangeSeek(delta, whence, -1);
    }

    method Close() returns (reply: Reply)
      requires Valid()
      modifies this
      ensures Valid() && closed && openFaults == old(openFaults)
      ensures reply == if old(closed) then FileClosed else Done
    {
      if closed {
        return FileClosed;
      }
      closed := true;
      rc := None;
      offset := 0;
      return Done;
    }

    /** Absolute seeks only: relative ones are exact under TargetExact's condition. */
    static predicate Absolute(op: Op) {
      op.Seek? ==> op.whence != FromCurrent
    }

    /** While opens succeed, reads, absolute seeks and closes get the replies of the plain reader. */
    method Execute(ops: seq<Op>) returns (replies: seq<Reply>)
      requires Valid() && openFaults == []
      requires forall i :: 0 <= i < |ops| ==> Absolute(ops[i])
      modifies this
      ensures Valid() && openFaults == []
      ensures replies == Run(content, true, old(State()), ops)
    {
      replies := [];
      for i := 0 to |ops|
        invariant Valid() && openFaults == []
        invariant replies == Run(content, true, old(State()), ops[..i])
        invariant var p := After(content, true, old(State()), ops[..i]);
                  p.closed == closed && (!closed ==> p == State())
      {
        assert ops[..i + 1] == ops[..i] + [ops[i]];
        RunSnoc(content, true, old(State()), ops[..i], ops[i]);
        var reply;
        match ops[i] {
          case Read(len) => reply := Read(len);
          case Seek(delta, whence) => reply := Seek(delta, whence);
          case Close => reply := Close();
        }
        replies := replies + [reply];
      }
      assert ops[..|ops|] == ops;
    }
  }

  /** Two bytes in chunks of one, and the second open fails: the read after that wrongly ends the file. */
  method FailedReopen() returns (replies: seq<Reply>)
    ensures replies == [Data([7], false), OpenFailed([]), Data([], true)]
    ensures Slice([7, 8], 1, 1) == [8]
  {
    var r := new Sequential([7, 8], 1, -1, [false, true]);
    var first := r.Read(1);
    assert Slice([7, 8], 0, 1) == [7];
    assert first == Data([7], false) && r.offset == 1 && r.openFaults == [true];
    var second := r.Read(1);
    assert second == OpenFailed([]) && r.Stuck();
    var third := r.Read(1);
    replies := [first, second, third];
  }
}
