/**
 The buffer between a background download and the reader of a stream.

 `pending` is what the background ReadFrom has still to append; bytes move from
 `pending` to `buf` in chunks of any size the writer happens to read.
 */
module RwBuffer {
  import opened PlainReader
  import opened Ranges
  import opened Wrappers

  const BUFFER_SIZE: int := 1024 * 1024
  const CHUNK: int := 4096

  class RW {
    var buf: seq<byte>
    var rOffset: nat
    var closed: bool
    var pending: seq<byte>
    ghost const source: seq<byte>  // everything the writer delivers

    ghost predicate Valid()
      reads this
    {
      rOffset <= |buf| && buf + pending == source
    }

    constructor (source: seq<byte>)
      ensures Valid() && buf == [] && rOffset == 0 && !closed && this.source == source
    {
      buf := [];
      rOffset := 0;
      closed := false;
      pending := source;
      this.source := source;
    }

    /** One round of the ReadFrom loop: some bytes, at most CHUNK, arrive and are appended. */
    method Append()
      requires Valid() && pending != []
      modifies this`buf, this`pending
      ensures Valid() && old(buf) <= buf
      ensures |pending| < old(|pending|) && old(|pending|) - |pending| <= CHUNK
    {
      var n :| 1 <= n <= CHUNK && n <= |pending|;
      buf := buf + pending[..n];
      pending := pending[n..];
    }

    /** Reads the whole source into the buffer. */
    method ReadFrom() returns (total: int)
      requires Valid()
      modifies this`buf, this`pending
      ensures Valid() && buf == source && pending == []
      ensures total == old(|pending|)
    {
      total := 0;
      while pending != []
        invariant Valid()
        invariant total + |pending| == old(|pending|)
        decreases |pending|
      {
        var before := |pending|;
        Append();
        total := total + before - |pending|;
      }
    }

    /** Any amount of background progress, including none. */
    method Progress()
      requires Valid()
      modifies this`buf, this`pending
      ensures Valid() && old(buf) <= buf
    {
      var rounds: nat :| true;
      while rounds > 0 && pending != []
        invariant Valid() && old(buf) <= buf
        decreases rounds
      {
        Append();
        rounds := rounds - 1;
      }
    }

    /** Copies out up to `max` buffered bytes; nothing buffered reads as (a possibly false) EOF. */
    method Read(max: nat) returns (p: seq<byte>, eof: bool)
      requires Valid()
      modifies this`rOffset
      ensures Valid()
      ensures eof <==> old(rOffset) == |buf|
      ensures |p| == Min(max, |buf| - old(rOffset)) && rOffset == old(rOffset) + |p|
      ensures p == buf[old(rOffset)..rOffset] == source[old(rOffset)..rOffset]
    {
      if rOffset >= |buf| {
        return [], true;
      }
      var n := Min(max, |buf| - rOffset);
      p := buf[rOffset..rOffset + n];
      rOffset := rOffset + n;
      eof := false;
    }

    /** Blocks until an unread byte is buffered; the writer must have bytes to deliver. */
    method WaitWrite()
      requires Valid() && !closed
      requires rOffset < |buf| || pending != []
      modifies this`buf, this`pending
      ensures Valid() && old(buf) <= buf && rOffset < |buf|
      ensures |pending| <= old(|pending|)
    {
      while rOffset >= |buf| && !closed
        invariant Valid() && old(buf) <= buf
        invariant rOffset < |buf| || pending != []
        invariant |pending| <= old(|pending|)
        decreases |pending|
      {
        Append();
      }
    }

    method Close()
      modifies this`closed
      ensures closed
    {
      closed := true;
    }

    method Size() returns (n: nat)
      ensures n == |buf|
    {
      n := |buf|;
    }

    /** Moves the read position; past the end it stops at the end, before the start it fails. */
    method Seek(offset: int, whence: Whence) returns (pos: Option<nat>)
      requires Valid()
      modifies this`rOffset
      ensures Valid()
      ensures var want := SeekTarget(buf, old(rOffset), offset, whence);
              if want < 0 then pos == None && rOffset == old(rOffset)
              else pos == Some(rOffset) && rOffset == Min(want, |buf|)
    {
      var abs := match whence
        case FromStart => offset
        case FromCurrent => rOffset + offset
        case FromEnd => |buf| + offset;
      if abs < 0 {
        return None;
      }
      if abs > |buf| {
        abs := |buf|;
      }
      rOffset := abs;
      return Some(abs);
    }
  }
}
