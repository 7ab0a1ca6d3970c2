/**
 The plain reader: a content and a position.  It is the reference both chunked readers
 are proved against.
 */
module PlainReader {
  type byte = x: int | 0 <= x < 256

  datatype Whence = FromStart | FromCurrent | FromEnd

  datatype Op =
    | Read(len: nat)
    | Seek(offset: int, whence: Whence)
    | Close

  datatype Reply =
    | Data(bytes: seq<byte>, eof: bool)
    | Position(pos: int)
    | InvalidSeek
    | FileClosed
    | OpenFailed(bytes: seq<byte>)
    | Done

  /** The bytes a read of `len` bytes at `pos` returns: fewer than `len` only at the end. */
  function Slice(content: seq<byte>, pos: int, len: int): (s: seq<byte>)
    ensures 0 <= pos <= |content| && 0 <= len ==>
              |s| <= len && |s| <= |content| - pos && s == content[pos..pos + |s|]
              && (|s| < len ==> pos + |s| == |content|)
  {
    if pos < 0 || len < 0 || |content| <= pos then []
    else if pos + len <= |content| then content[pos..pos + len]
    else content[pos..]
  }

  datatype Plain = Plain(pos: nat, closed: bool)

  function SeekTarget(content: seq<byte>, pos: int, offset: int, whence: Whence): int {
    offset + match whence
             case FromStart => 0
             case FromCurrent => pos
             case FromEnd => |content|
  }

  /** `rewinds` tells what an invalid seek does: go back to 0, or leave the position alone. */
  function Step(content: seq<byte>, rewinds: bool, p: Plain, op: Op): (Plain, Reply) {
    if p.closed then (p, FileClosed)
    else match op
      case Read(len) =>
        var bytes := Slice(content, p.pos, len);
        (p.(pos := p.pos + |bytes|), Data(bytes, |bytes| < len))
      case Seek(offset, whence) =>
        var target := SeekTarget(content, p.pos, offset, whence);
        if 0 <= target < |content| then (p.(pos := target), Position(target))
        else (if rewinds then p.(pos := 0) else p, InvalidSeek)
      case Close => (p.(closed := true), Done)
  }

  function Run(content: seq<byte>, rewinds: bool, p: Plain, ops: seq<Op>): seq<Reply>
    decreases |ops|
  {
    if ops == [] then []
    else
      var (p', reply) := Step(content, rewinds, p, ops[0]);
      [reply] + Run(content, rewinds, p', ops[1..])
  }

  function After(content: seq<byte>, rewinds: bool, p: Plain, ops: seq<Op>): Plain
    decreases |ops|
  {
    if ops == [] then p
    else After(content, rewinds, Step(content, rewinds, p, ops[0]).0, ops[1..])
  }

  /** Running one more operation extends the replies by the reply to it. */
  lemma {:induction false} RunSnoc(content: seq<byte>, rewinds: bool, p: Plain, ops: seq<Op>, op: Op)
    ensures var p' := After(content, rewinds, p, ops);
            && After(content, rewinds, p, ops + [op]) == Step(content, rewinds, p', op).0
            && Run(content, rewinds, p, ops + [op])
               == Run(content, rewinds, p, ops) + [Step(content, rewinds, p', op).1]
    decreases |ops|
  {
    if ops == [] {
      assert ops + [op] == [op];
    } else {
      RunSnoc(content, rewinds, Step(content, rewinds, p, ops[0]).0, ops[1..], op);
      assert (ops + [op])[1..] == ops[1..] + [op];
    }
  }

  /** A read that stopped at `to` returned what the plain reader returns. */
  lemma SliceReached(content: seq<byte>, from: nat, to: nat, len: nat)
    requires from <= to <= |content| && to - from <= len
    ensures Slice(content, from, to - from) == content[from..to]
    ensures to - from == len || to == |content| ==> Slice(content, from, len) == content[from..to]
  {
  }

  lemma SliceOfSlice(s: seq<byte>, a: nat, b: nat, i: nat, j: nat)
    requires a <= b <= |s| && i <= j <= b - a
    ensures s[a..b][i..j] == s[a + i..a + j]
  {
    assert forall k :: 0 <= k < j - i ==> s[a..b][i..j][k] == s[a + i..a + j][k];
  }
}
