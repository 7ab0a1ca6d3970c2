/**
 A set of byte positions kept as a sorted, coalesced list of ranges.

 A list is read as the set of positions it covers.  `Canonical` says that the list is
 sorted, has no empty element and leaves a gap of at least one byte between neighbours;
 a canonical list is determined by the positions it covers.
 */
module Ranges {
  import opened Wrappers

  const MAX_INT64: int := 0x7FFF_FFFF_FFFF_FFFF

  datatype Range = Range(pos: int, size: int) {
    function End(): int { pos + size }

    predicate IsEmpty() { size <= 0 }

    predicate Has(x: int) { pos <= x < End() }

    /** Cuts the range so that it does not reach past `offset`. */
    function Clip(offset: int): (r: Range)
      ensures forall x :: r.Has(x) <==> Has(x) && x < offset
      ensures 0 <= offset ==> r.End() <= offset
    {
      if End() <= offset then this
      else
        var size' := size - (End() - offset);
        if size' < 0 then Range(0, 0) else Range(pos, size')
    }

    /** The common part of two ranges; empty when there is none. */
    function Intersection(b: Range): (r: Range)
      ensures forall x :: r.Has(x) <==> Has(x) && b.Has(x)
    {
      if (b.pos <= pos < b.End()) || (pos <= b.pos < End()) then
        var p := Max(pos, b.pos);
        Range(p, Min(End(), b.End()) - p)
      else Range(0, 0)
    }
  }

  function Max(a: int, b: int): int { if a < b then b else a }

  function Min(a: int, b: int): int { if a < b then a else b }

  ghost predicate Covers(rs: seq<Range>, x: int) {
    exists i :: 0 <= i < |rs| && rs[i].Has(x)
  }

  ghost predicate SameBytes(a: seq<Range>, b: seq<Range>) {
    forall x :: Covers(a, x) <==> Covers(b, x)
  }

  ghost predicate Canonical(rs: seq<Range>) {
    && (forall i :: 0 <= i < |rs| ==> 0 < rs[i].size)
    && (forall i, j :: 0 <= i < j < |rs| ==> rs[i].End() < rs[j].pos)
  }

  lemma CoversConcat(a: seq<Range>, b: seq<Range>)
    ensures forall x :: Covers(a + b, x) <==> Covers(a, x) || Covers(b, x)
  {
    forall x | Covers(a, x) || Covers(b, x) ensures Covers(a + b, x) {
      if Covers(a, x) {
        var i :| 0 <= i < |a| && a[i].Has(x);
        assert (a + b)[i].Has(x);
      } else {
        var i :| 0 <= i < |b| && b[i].Has(x);
        assert (a + b)[|a| + i].Has(x);
      }
    }
  }

  lemma CoversSplit(rs: seq<Range>, i: nat)
    requires i < |rs|
    ensures forall x :: Covers(rs, x) <==> PartsCover(rs[..i], rs[i], rs[i + 1..], x)
  {
    PartsConcat(rs[..i], rs[i], rs[i + 1..]);
    assert rs == rs[..i] + [rs[i]] + rs[i + 1..];
  }

  ghost predicate PartsCover(pre: seq<Range>, cur: Range, rest: seq<Range>, x: int) {
    Covers(pre, x) || cur.Has(x) || Covers(rest, x)
  }

  lemma PartsConcat(pre: seq<Range>, cur: Range, rest: seq<Range>)
    ensures forall x :: Covers(pre + [cur] + rest, x) <==> PartsCover(pre, cur, rest, x)
  {
    CoversConcat(pre + [cur], rest);
    CoversConcat(pre, [cur]);
    assert [cur][0] == cur;
    assert forall x :: Covers([cur], x) <==> cur.Has(x);
  }

  lemma SuffixCanonical(rs: seq<Range>, i: nat)
    requires Canonical(rs) && i <= |rs|
    ensures Canonical(rs[i..]) && Canonical(rs[..i])
    ensures forall k :: 0 <= k < |rs[i..]| ==> rs[i..][k] == rs[i + k]
  {
  }

  // ---------- The set a list stands for determines the list ----------

  /** Two canonical lists covering the same bytes are the same list. */
  lemma {:induction false} CanonicalUnique(a: seq<Range>, b: seq<Range>)
    requires Canonical(a) && Canonical(b) && SameBytes(a, b)
    ensures a == b
  {
    if a == [] {
      HeadCovered(b);
    } else if b == [] {
      HeadCovered(a);
    } else {
      HeadDetermined(a, b);
      HeadDetermined(b, a);
      TailCovers(a);
      TailCovers(b);
      CanonicalUnique(a[1..], b[1..]);
      assert a == [a[0]] + a[1..] && b == [b[0]] + b[1..];
    }
  }

  lemma TailCovers(a: seq<Range>)
    requires a != [] && Canonical(a)
    ensures Canonical(a[1..]) && forall x :: Covers(a[1..], x) <==> Covers(a, x) && a[0].End() <= x
  {
    CoversSplit(a, 0);
    SuffixCanonical(a, 1);
    NothingCovered(a[..0]);
  }

  lemma HeadCovered(a: seq<Range>)
    requires Canonical(a)
    ensures a != [] ==> Covers(a, a[0].pos)
  {
    if a != [] { assert a[0].Has(a[0].pos); }
  }

  /** Just past an element lies a gap, and the first element starts at the least covered byte. */
  lemma GapAfter(rs: seq<Range>, i: nat)
    requires Canonical(rs) && i < |rs|
    ensures !Covers(rs, rs[i].End())
    ensures forall x :: Covers(rs, x) ==> rs[0].pos <= x
  {
    assert forall k :: 0 <= k < i ==> rs[k].End() < rs[i].pos;
    assert forall k :: i < k < |rs| ==> rs[i].End() < rs[k].pos;
    assert forall k :: 0 < k < |rs| ==> rs[0].End() < rs[k].pos;
  }

  lemma HeadDetermined(a: seq<Range>, b: seq<Range>)
    requires a != [] && b != [] && Canonical(a) && Canonical(b) && SameBytes(a, b)
    ensures b[0].pos <= a[0].pos && (a[0].pos == b[0].pos ==> b[0].End() <= a[0].End())
  {
    HeadCovered(a);
    GapAfter(b, 0);
    GapAfter(a, 0);
    assert forall x :: b[0].Has(x) ==> Covers(b, x);
  }

  // ---------- Counting ----------

  ghost predicate IsBytesOf(s: set<int>, rs: seq<Range>) {
    forall x :: x in s <==> Covers(rs, x)
  }

  /** The set of positions a list covers. */
  ghost function Bytes(rs: seq<Range>): (s: set<int>)
    ensures forall x :: x in s <==> Covers(rs, x)
  {
    BytesExist(rs);
    var s :| IsBytesOf(s, rs);
    s
  }

  lemma {:induction false} BytesExist(rs: seq<Range>)
    ensures exists s :: IsBytesOf(s, rs)
  {
    if rs == [] {
      assert IsBytesOf({}, rs);
    } else {
      BytesExist(rs[1..]);
      var s :| IsBytesOf(s, rs[1..]);
      CoversSplit(rs, 0);
      assert IsBytesOf(s + Interval(rs[0].pos, rs[0].End()), rs);
    }
  }

  ghost predicate IsInterval(s: set<int>, lo: int, hi: int) {
    forall x :: x in s <==> lo <= x < hi
  }

  lemma {:induction false} IntervalExists(lo: int, hi: int)
    ensures exists s :: IsInterval(s, lo, hi) && |s| == if lo <= hi then hi - lo else 0
    decreases hi - lo
  {
    if hi <= lo {
      assert IsInterval({}, lo, hi);
    } else {
      IntervalExists(lo, hi - 1);
      var s :| IsInterval(s, lo, hi - 1) && |s| == hi - 1 - lo;
      assert IsInterval(s + {hi - 1}, lo, hi);
    }
  }

  /** The positions lo, lo + 1, ..., hi - 1. */
  ghost function Interval(lo: int, hi: int): (s: set<int>)
    ensures forall x :: x in s <==> lo <= x < hi
    ensures |s| == if lo <= hi then hi - lo else 0
  {
    IntervalExists(lo, hi);
    var s :| IsInterval(s, lo, hi) && |s| == if lo <= hi then hi - lo else 0;
    s
  }

  lemma NothingCovered(rs: seq<Range>)
    requires rs == []
    ensures Bytes(rs) == {}
  {
    assert forall x :: !Covers(rs, x);
    assert forall x :: x !in Bytes(rs);
  }

  /** Appending one more range to a canonical prefix adds exactly its size. */
  lemma PrefixSize(rs: seq<Range>, i: nat)
    requires Canonical(rs) && i < |rs|
    ensures |Bytes(rs[..i + 1])| == |Bytes(rs[..i])| + rs[i].size
  {
    var r := rs[i];
    PartsConcat(rs[..i], r, []);
    assert rs[..i + 1] == rs[..i] + [r] + [];
    var a, b := Bytes(rs[..i]), Interval(r.pos, r.End());
    assert forall x :: Covers(rs[..i], x) ==> x < r.pos;
    assert Bytes(rs[..i + 1]) == a + b;
    assert a !! b;
  }

  // ---------- merge, as a value ----------

  /** Merges `src` into `dst` when they touch; `None` is the source's `false`. */
  function Merge(src: Range, dst: Range): (m: Option<Range>)
    ensures m.Some? <==> dst.pos <= src.End()
    ensures m.Some? && src.pos <= dst.pos ==>
              m.value.pos == src.pos && forall x :: m.value.Has(x) <==> src.Has(x) || dst.Has(x)
  {
    if src.End() < dst.pos then None
    else
      var size := if dst.End() < src.End() then src.size else dst.size + (dst.pos - src.pos);
      Some(Range(src.pos, size))
  }

  // ---------- search ----------

  /** Binary search, as sort.Search does it, for the first element with Pos >= r.Pos. */
  function SearchFrom(rs: seq<Range>, r: Range, i: nat, j: nat): (k: nat)
    requires i <= j <= |rs|
    ensures i <= k <= j
    decreases j - i
  {
    if i >= j then i
    else
      var h := (i + j) / 2;
      if rs[h].pos < r.pos then SearchFrom(rs, r, h + 1, j) else SearchFrom(rs, r, i, h)
  }

  function Search(rs: seq<Range>, r: Range): (k: nat)
    ensures k <= |rs|
  {
    SearchFrom(rs, r, 0, |rs|)
  }

  lemma {:induction false} SearchFromSplits(rs: seq<Range>, r: Range, i: nat, j: nat)
    requires Canonical(rs) && i <= j <= |rs|
    requires forall k :: 0 <= k < i ==> rs[k].pos < r.pos
    requires forall k :: j <= k < |rs| ==> r.pos <= rs[k].pos
    ensures forall k :: 0 <= k < SearchFrom(rs, r, i, j) ==> rs[k].pos < r.pos
    ensures forall k :: SearchFrom(rs, r, i, j) <= k < |rs| ==> r.pos <= rs[k].pos
    decreases j - i
  {
    if i < j {
      var h := (i + j) / 2;
      assert forall k :: 0 <= k < h ==> rs[k].pos < rs[h].pos;
      assert forall k :: h < k < |rs| ==> rs[h].pos < rs[k].pos;
      if rs[h].pos < r.pos {
        SearchFromSplits(rs, r, h + 1, j);
      } else {
        SearchFromSplits(rs, r, i, h);
      }
    }
  }

  /** The binary search really finds the first element starting at or after `r.pos`. */
  lemma SearchSplits(rs: seq<Range>, r: Range)
    requires Canonical(rs)
    ensures forall k :: 0 <= k < Search(rs, r) ==> rs[k].pos < r.pos
    ensures forall k :: Search(rs, r) <= k < |rs| ==> r.pos <= rs[k].pos
  {
    SearchFromSplits(rs, r, 0, |rs|);
  }

  // ---------- Steps of coalescing ----------

  /** The list `pre + [cur] + rest` while `cur` may still touch its neighbours on both sides. */
  ghost predicate Loose(pre: seq<Range>, cur: Range, rest: seq<Range>) {
    && Canonical(pre) && Canonical(rest) && 0 < cur.size
    && (forall k :: 0 <= k < |pre| ==> pre[k].pos < cur.pos)
    && (forall k :: 0 <= k < |rest| ==> cur.pos <= rest[k].pos)
  }

  /** As Loose, but `cur` no longer touches the ranges before it. */
  ghost predicate Apart(pre: seq<Range>, cur: Range, rest: seq<Range>) {
    && Loose(pre, cur, rest)
    && (forall k :: 0 <= k < |pre| ==> pre[k].End() < cur.pos)
  }

  lemma AbsorbPrevious(pre: seq<Range>, prev: Range, cur: Range, rest: seq<Range>)
    requires Loose(pre + [prev], cur, rest)
    ensures var m := Merge(prev, cur);
            if m.Some? then
              && Apart(pre, m.value, rest)
              && forall x :: PartsCover(pre + [prev], cur, rest, x) <==> PartsCover(pre, m.value, rest, x)
            else Apart(pre + [prev], cur, rest)
  {
    PartsConcat(pre, prev, []);
    assert pre + [prev] + [] == pre + [prev];
    var all := pre + [prev];
    assert all[|pre|] == prev;
    assert forall k :: 0 <= k < |pre| ==> all[k] == pre[k] && all[k].End() < all[|pre|].pos;
    var m := Merge(prev, cur);
    if m.Some? {
      assert m.value.Has(cur.pos);
    }
  }

  lemma AbsorbNext(pre: seq<Range>, cur: Range, rest: seq<Range>)
    requires rest != [] && Apart(pre, cur, rest)
    ensures var m := Merge(cur, rest[0]);
            m.Some? ==>
              && Apart(pre, m.value, rest[1..])
              && forall x :: PartsCover(pre, cur, rest, x) <==> PartsCover(pre, m.value, rest[1..], x)
  {
    CoversSplit(rest, 0);
    SuffixCanonical(rest, 1);
    var m := Merge(cur, rest[0]);
    if m.Some? {
      assert m.value.Has(cur.pos);
    }
  }

  lemma PartsCanonical(pre: seq<Range>, cur: Range, rest: seq<Range>)
    requires Apart(pre, cur, rest) && (rest == [] || Merge(cur, rest[0]).None?)
    ensures Canonical(pre + [cur] + rest)
  {
    var out := pre + [cur] + rest;
    assert forall k :: |pre| < k < |out| ==> out[k] == rest[k - |pre| - 1];
    assert forall k :: 0 < k < |rest| ==> rest[0].pos < rest[k].pos;
  }

  /** The state of coalescing: elements s, ..., j - 1 are stale and `list[j]` stands for all of them. */
  ghost predicate Working(was: seq<Range>, list: seq<Range>, s: nat, j: nat) {
    && s <= j < |list| == |was|
    && list[..s] == was[..s] && list[j + 1..] == was[j + 1..]
    && Apart(was[..s], list[j], was[j + 1..])
    && forall x :: Covers(was, x) <==> PartsCover(was[..s], list[j], was[j + 1..], x)
  }

  lemma WorkingStart(was: seq<Range>, i: nat)
    requires i < |was| && Loose(was[..i], was[i], was[i + 1..])
    ensures if i > 0 && Merge(was[i - 1], was[i]).Some?
            then Working(was, was[i := Merge(was[i - 1], was[i]).value], i - 1, i)
            else Working(was, was, i, i)
  {
    CoversSplit(was, i);
    if i > 0 {
      assert was[..i] == was[..i - 1] + [was[i - 1]];
      AbsorbPrevious(was[..i - 1], was[i - 1], was[i], was[i + 1..]);
    }
  }

  lemma WorkingStep(was: seq<Range>, list: seq<Range>, s: nat, j: nat)
    requires Working(was, list, s, j) && j + 1 < |list|
    ensures Merge(list[j], list[j + 1]).Some? ==>
              Working(was, list[j + 1 := Merge(list[j], list[j + 1]).value], s, j + 1)
  {
    assert list[j + 1] == list[j + 1..][0] == was[j + 1..][0];
    AbsorbNext(was[..s], list[j], was[j + 1..]);
    assert was[j + 1..][1..] == was[j + 2..];
    assert list[j + 2..] == list[j + 1..][1..];
  }

  lemma WorkingDone(was: seq<Range>, list: seq<Range>, s: nat, j: nat)
    requires Working(was, list, s, j)
    requires j + 1 == |list| || Merge(list[j], list[j + 1]).None?
    ensures Canonical(list[..s] + list[j..]) && SameBytes(list[..s] + list[j..], was)
    ensures s == j ==> list[..s] + list[j..] == list
  {
    assert j + 1 < |list| ==> list[j + 1] == list[j + 1..][0] == was[j + 1..][0];
    PartsCanonical(was[..s], list[j], was[j + 1..]);
    PartsConcat(was[..s], list[j], was[j + 1..]);
    assert list[..s] + list[j..] == was[..s] + [list[j]] + was[j + 1..];
  }

  // ---------- The editable list ----------

  /** A coalesced range list that is edited in place. */
  class RangeSet {
    var list: seq<Range>

    constructor ()
      ensures list == []
    {
      list := [];
    }

    /** Restores the canonical form after one element was inserted at, or merged into, index i. */
    method Coalesce(i: nat)
      requires i < |list| && Loose(list[..i], list[i], list[i + 1..])
      modifies this
      ensures Canonical(list)
      ensures SameBytes(list, old(list))
    {
      ghost var was := list;
      var startChop, endChop := i, i;
      WorkingStart(was, i);
      // the one before may reach up to the new one
      if i > 0 {
        var m := Merge(list[i - 1], list[i]);
        if m.Some? {
          list := list[i := m.value];
          startChop := i - 1;
        }
      }
      var j := i;
      while j < |list| - 1
        invariant startChop <= endChop == j < |list| && Working(was, list, startChop, j)
      {
        WorkingStep(was, list, startChop, j);
        var m := Merge(list[j], list[j + 1]);
        if m.None? {
          break;
        }
        list := list[j + 1 := m.value];
        endChop := j + 1;
        j := j + 1;
      }
      WorkingDone(was, list, startChop, j);
      if endChop > startChop {
        // those merged into list[endChop] go
        list := list[..startChop] + list[endChop..];
      }
    }

    /** Adds the bytes of `r`: the new list is canonical and covers the old bytes and r's. */
    method Insert(r: Range)
      requires Canonical(list)
      modifies this
      ensures Canonical(list)
      ensures forall x :: Covers(list, x) <==> old(Covers(list, x)) || r.Has(x)
      ensures list == InsertSpec(old(list), r)
    {
      ghost var was := list;
      InsertSpecExact(was, r);
      if r.IsEmpty() {
        return;
      }
      if |list| == 0 {
        list := list + [r];
        PartsConcat([], r, []);
        assert list == [] + [r] + [];
        CanonicalUnique(list, InsertSpec(was, r));
        return;
      }
      var i := Search(list, r);
      SearchSplits(list, r);
      var m := if i == |list| then None else Merge(r, list[i]);
      if m.None? {
        InsertOpens(was, r, i);
        list := list[..i] + [r] + list[i..];
        assert list[i + 1..] == was[i..] && list[..i] == was[..i];
      } else {
        InsertMerges(was, r, i);
        list := list[i := m.value];
        assert list[i + 1..] == was[i + 1..] && list[..i] == was[..i];
      }
      CoversSplit(list, i);
      Coalesce(i);
      CanonicalUnique(list, InsertSpec(was, r));
    }
  }

  /** Putting `r` at its search position leaves a list fit for coalescing. */
  lemma InsertOpens(rs: seq<Range>, r: Range, i: nat)
    requires Canonical(rs) && !r.IsEmpty() && i <= |rs|
    requires forall k :: 0 <= k < i ==> rs[k].pos < r.pos
    requires forall k :: i <= k < |rs| ==> r.pos <= rs[k].pos
    ensures Loose(rs[..i], r, rs[i..])
    ensures forall x :: PartsCover(rs[..i], r, rs[i..], x) <==> Covers(rs, x) || r.Has(x)
  {
    SuffixCanonical(rs, i);
    CoversConcat(rs[..i], rs[i..]);
    assert rs == rs[..i] + rs[i..];
  }

  /** Merging `r` into the element at its search position leaves a list fit for coalescing. */
  lemma InsertMerges(rs: seq<Range>, r: Range, i: nat)
    requires Canonical(rs) && !r.IsEmpty() && i < |rs| && Merge(r, rs[i]).Some?
    requires forall k :: 0 <= k < i ==> rs[k].pos < r.pos
    requires r.pos <= rs[i].pos
    ensures Loose(rs[..i], Merge(r, rs[i]).value, rs[i + 1..])
    ensures forall x :: PartsCover(rs[..i], Merge(r, rs[i]).value, rs[i + 1..], x) <==> Covers(rs, x) || r.Has(x)
  {
    CoversSplit(rs, i);
    SuffixCanonical(rs, i + 1);
    SuffixCanonical(rs, i);
    assert Merge(r, rs[i]).value.Has(r.pos);
  }

  // ---------- A simple reference for Insert ----------

  function Hull(a: Range, b: Range): Range {
    Range(Min(a.pos, b.pos), Max(a.End(), b.End()) - Min(a.pos, b.pos))
  }

  /** Insertion by walking the list once, absorbing every range that touches `r`. */
  function Splice(rs: seq<Range>, r: Range): seq<Range> {
    if rs == [] then [r]
    else if r.End() < rs[0].pos then [r] + rs
    else if rs[0].End() < r.pos then [rs[0]] + Splice(rs[1..], r)
    else Splice(rs[1..], Hull(rs[0], r))
  }

  function InsertSpec(rs: seq<Range>, r: Range): seq<Range> {
    if r.IsEmpty() then rs else Splice(rs, r)
  }

  lemma ConsExact(head: Range, tail: seq<Range>)
    requires Canonical(tail) && 0 < head.size
    requires forall k :: 0 <= k < |tail| ==> head.End() < tail[k].pos
    ensures Canonical([head] + tail)
    ensures forall x :: Covers([head] + tail, x) <==> head.Has(x) || Covers(tail, x)
  {
    PartsConcat([], head, tail);
    assert [head] + tail == [] + [head] + tail;
  }

  ghost predicate Spliced(out: seq<Range>, rs: seq<Range>, r: Range, lo: int) {
    && Canonical(out)
    && (forall x :: Covers(out, x) <==> Covers(rs, x) || r.Has(x))
    && (forall k :: 0 <= k < |out| ==> lo < out[k].pos)
  }

  lemma {:induction false} SpliceExact(rs: seq<Range>, r: Range, lo: int)
    requires Canonical(rs) && 0 < r.size && lo < r.pos
    requires forall k :: 0 <= k < |rs| ==> lo < rs[k].pos
    ensures Spliced(Splice(rs, r), rs, r, lo)
  {
    if rs == [] {
      ConsExact(r, []);
      assert [r] + [] == [r];
    } else if r.End() < rs[0].pos {
      assert forall k :: 0 < k < |rs| ==> rs[0].pos < rs[k].pos;
      ConsExact(r, rs);
    } else {
      SuffixCanonical(rs, 1);
      if rs[0].End() < r.pos {
        SpliceExact(rs[1..], r, rs[0].End());
        SpliceSkips(rs, r, Splice(rs[1..], r), lo);
      } else {
        SpliceExact(rs[1..], Hull(rs[0], r), lo);
        SpliceAbsorbs(rs, r, Splice(rs[1..], Hull(rs[0], r)), lo);
      }
    }
  }

  lemma SpliceSkips(rs: seq<Range>, r: Range, out: seq<Range>, lo: int)
    requires rs != [] && 0 < rs[0].size && lo < rs[0].pos && Spliced(out, rs[1..], r, rs[0].End())
    ensures Spliced([rs[0]] + out, rs, r, lo)
  {
    CoversSplit(rs, 0);
    ConsExact(rs[0], out);
  }

  lemma SpliceAbsorbs(rs: seq<Range>, r: Range, out: seq<Range>, lo: int)
    requires rs != [] && Spliced(out, rs[1..], Hull(rs[0], r), lo)
    requires r.pos <= rs[0].End() && rs[0].pos <= r.End() && 0 < rs[0].size && 0 < r.size
    ensures Spliced(out, rs, r, lo)
  {
    CoversSplit(rs, 0);
    assert forall x :: Hull(rs[0], r).Has(x) <==> rs[0].Has(x) || r.Has(x);
  }

  /** The reference insertion adds exactly the bytes of `r` and keeps the list canonical. */
  lemma InsertSpecExact(rs: seq<Range>, r: Range)
    requires Canonical(rs)
    ensures Canonical(InsertSpec(rs, r))
    ensures forall x :: Covers(InsertSpec(rs, r), x) <==> Covers(rs, x) || r.Has(x)
  {
    if !r.IsEmpty() {
      var lo := if rs == [] then r.pos - 1 else Min(r.pos, rs[0].pos) - 1;
      assert forall k :: 0 < k < |rs| ==> rs[0].pos < rs[k].pos;
      SpliceExact(rs, r, lo);
    }
  }

  function InsertAll(rs: seq<Range>, todo: seq<Range>): seq<Range>
    decreases |todo|
  {
    if todo == [] then rs else InsertAll(InsertSpec(rs, todo[0]), todo[1..])
  }

  lemma {:induction false} InsertAllExact(rs: seq<Range>, todo: seq<Range>)
    requires Canonical(rs)
    ensures Canonical(InsertAll(rs, todo))
    ensures forall x :: Covers(InsertAll(rs, todo), x) <==> Covers(rs, x) || Covers(todo, x)
    decreases |todo|
  {
    if todo != [] {
      InsertSpecExact(rs, todo[0]);
      InsertAllExact(InsertSpec(rs, todo[0]), todo[1..]);
      CoversSplit(todo, 0);
    }
  }

  /** The same ranges inserted in any order, with any repetition, give the identical list. */
  lemma InsertOrderIrrelevant(rs: seq<Range>, s: seq<Range>, t: seq<Range>)
    requires Canonical(rs)
    requires forall r :: r in s <==> r in t
    ensures InsertAll(rs, s) == InsertAll(rs, t)
  {
    InsertAllExact(rs, s);
    InsertAllExact(rs, t);
    SameElements(s, t);
    SameElements(t, s);
    CanonicalUnique(InsertAll(rs, s), InsertAll(rs, t));
  }

  lemma SameElements(s: seq<Range>, t: seq<Range>)
    requires forall r :: r in s ==> r in t
    ensures forall x :: Covers(s, x) ==> Covers(t, x)
  {
    forall x | Covers(s, x) ensures Covers(t, x) {
      var i :| 0 <= i < |s| && s[i].Has(x);
      assert s[i] in t;
    }
  }

  /** Insert grows the set by exactly the bytes it newly covers. */
  lemma InsertGrowth(rs: seq<Range>, r: Range)
    requires Canonical(rs)
    ensures |Bytes(InsertSpec(rs, r))| == |Bytes(rs)| + |Interval(r.pos, r.End()) - Bytes(rs)|
  {
    InsertSpecExact(rs, r);
    assert Bytes(InsertSpec(rs, r)) == Bytes(rs) + (Interval(r.pos, r.End()) - Bytes(rs));
  }

  // ---------- Queries ----------

  datatype Found = Found(curr: Range, next: Range, present: bool)

  /** The first stretch of `r` that is wholly present or wholly absent, and the rest of `r`. */
  function Find(rs: seq<Range>, r: Range): Found {
    if r.IsEmpty() then Found(r, Range(0, 0), false)
    else
      var i := Search(rs, r);
      var prev := if i > 0 then rs[i - 1].Intersection(r) else Range(0, 0);
      if i > 0 && !prev.IsEmpty() then
        Found(prev, Range(prev.End(), r.size - prev.size), true)
      else if i >= |rs| then Found(r, Range(0, 0), false)
      else
        var x := rs[i].Intersection(r);
        if x.IsEmpty() then Found(r, Range(0, 0), false)
        else if r.pos < x.pos then
          var curr := Range(r.pos, x.pos - r.pos);
          Found(curr, Range(curr.End(), r.size - curr.size), false)
        else Found(x, Range(x.End(), r.size - x.size), true)
  }

  /** `curr` starts `r`, is wholly present or wholly absent, and `next` is the rest of `r`. */
  ghost predicate Stretch(rs: seq<Range>, r: Range, f: Found) {
    && f.curr.pos == r.pos && 0 < f.curr.size && f.curr.End() <= r.End()
    && (forall x :: f.curr.Has(x) ==> (Covers(rs, x) <==> f.present))
    && (f.next.IsEmpty() <==> f.curr.End() == r.End())
    && (!f.next.IsEmpty() ==>
          && f.next == Range(f.curr.End(), r.End() - f.curr.End())
          && (Covers(rs, f.next.pos) <==> !f.present))
  }

  /** What Find promises: a maximal uniform stretch at the start of `r`, and exactly the rest. */
  lemma FindExact(rs: seq<Range>, r: Range)
    requires Canonical(rs) && !r.IsEmpty()
    ensures Stretch(rs, r, Find(rs, r))
  {
    SearchSplits(rs, r);
    FindFrom(rs, r, Search(rs, r));
  }

  /** The part of Find after the search. */
  lemma FindFrom(rs: seq<Range>, r: Range, i: nat)
    requires Canonical(rs) && !r.IsEmpty() && i == Search(rs, r)
    requires forall k :: 0 <= k < i ==> rs[k].pos < r.pos
    requires forall k :: i <= k < |rs| ==> r.pos <= rs[k].pos
    ensures Stretch(rs, r, Find(rs, r))
  {
    if i > 0 && !rs[i - 1].Intersection(r).IsEmpty() {
      var x := rs[i - 1].Intersection(r);
      assert Find(rs, r) == Found(x, Range(x.End(), r.size - x.size), true);
      FindInside(rs, r, i - 1);
    } else {
      NothingBefore(rs, r, i);
      if i == |rs| || rs[i].Intersection(r).IsEmpty() {
        FindNothing(rs, r, i);
      } else if r.pos < rs[i].pos {
        FindGap(rs, r, i);
      } else {
        FindInside(rs, r, i);
      }
    }
  }

  lemma FindNothing(rs: seq<Range>, r: Range, i: nat)
    requires Canonical(rs) && i <= |rs| && !r.IsEmpty()
    requires forall x :: Covers(rs, x) && r.Has(x) ==> i < |rs| && rs[i].pos <= x
    requires i < |rs| ==> r.pos <= rs[i].pos && rs[i].Intersection(r).IsEmpty()
    ensures Stretch(rs, r, Found(r, Range(0, 0), false))
  {
    assert i < |rs| ==> 0 < rs[i].size && r.End() <= rs[i].pos;
  }

  /** The stretch before the first element that meets `r` is absent, and that element begins the rest. */
  lemma FindGap(rs: seq<Range>, r: Range, i: nat)
    requires Canonical(rs) && i < |rs| && !r.IsEmpty()
    requires forall x :: Covers(rs, x) && r.Has(x) ==> rs[i].pos <= x
    requires r.pos < rs[i].pos && !rs[i].Intersection(r).IsEmpty()
    ensures var x := rs[i].Intersection(r);
            var curr := Range(r.pos, x.pos - r.pos);
            r.pos < x.pos && Stretch(rs, r, Found(curr, Range(curr.End(), r.size - curr.size), false))
  {
    var x := rs[i].Intersection(r);
    assert x.Has(x.pos);
    assert x.pos == rs[i].pos && rs[i].Has(x.pos);
  }

  /** The stretch of `r` inside an element that holds r's first byte ends in a gap. */
  lemma FindInside(rs: seq<Range>, r: Range, i: nat)
    requires Canonical(rs) && i < |rs| && !r.IsEmpty()
    requires rs[i].pos <= r.pos && !rs[i].Intersection(r).IsEmpty()
    ensures var x := rs[i].Intersection(r);
            Stretch(rs, r, Found(x, Range(x.End(), r.size - x.size), true))
  {
    GapAfter(rs, i);
    var c := rs[i].Intersection(r);
    assert c.Has(c.pos);
    assert forall x :: c.Has(x) ==> rs[i].Has(x);
  }

  /** When the element before the search position misses `r`, no byte of `r` precedes the next element. */
  lemma NothingBefore(rs: seq<Range>, r: Range, i: nat)
    requires Canonical(rs) && i <= |rs| && !r.IsEmpty()
    requires forall k :: 0 <= k < i ==> rs[k].pos < r.pos
    requires forall k :: i <= k < |rs| ==> r.pos <= rs[k].pos
    requires i > 0 ==> rs[i - 1].Intersection(r).IsEmpty()
    ensures forall x :: Covers(rs, x) && r.Has(x) ==> i < |rs| && rs[i].pos <= x
  {
    assert i > 0 ==> forall k :: 0 <= k < i - 1 ==> rs[k].End() < rs[i - 1].pos;
    assert i > 0 ==> forall x :: rs[i - 1].Has(x) && r.Has(x) ==> rs[i - 1].Intersection(r).Has(x);
    assert forall k :: i < k < |rs| ==> rs[i].End() < rs[k].pos;
  }

  /** Whether every byte of `r` is in the set. */
  predicate Present(rs: seq<Range>, r: Range) {
    r.IsEmpty() || (var f := Find(rs, r); f.present && f.next.IsEmpty())
  }

  lemma PresentExact(rs: seq<Range>, r: Range)
    requires Canonical(rs)
    ensures Present(rs, r) <==> forall x :: r.Has(x) ==> Covers(rs, x)
  {
    if !r.IsEmpty() {
      FindExact(rs, r);
      var f := Find(rs, r);
      assert f.curr.Has(f.curr.pos) && r.Has(f.curr.pos);
      assert !f.next.IsEmpty() ==> r.Has(f.next.pos);
    }
  }

  /** The part of `r` from its first absent byte on. */
  function FindMissing(rs: seq<Range>, r: Range): Range {
    if r.IsEmpty() then r
    else
      var f := Find(rs, r);
      if !f.present then r
      else Range(f.curr.End(), r.size - (f.curr.End() - r.pos))
  }

  /** FindMissing starts at the least absent byte of `r`, or at its end, and keeps the end of `r`. */
  lemma FindMissingExact(rs: seq<Range>, r: Range)
    requires Canonical(rs)
    ensures var m := FindMissing(rs, r);
            && m.End() == r.End() && r.pos <= m.pos
            && (forall x :: r.pos <= x < m.pos ==> Covers(rs, x))
            && (!m.IsEmpty() ==> !Covers(rs, m.pos))
            && (m.IsEmpty() <==> forall x :: r.Has(x) ==> Covers(rs, x))
  {
    if !r.IsEmpty() {
      FindExact(rs, r);
      var f := Find(rs, r);
      assert f.curr.Has(f.curr.pos);
      var m := FindMissing(rs, r);
      assert !m.IsEmpty() ==> r.Has(m.pos);
      assert f.present ==> forall x :: r.pos <= x < m.pos ==> f.curr.Has(x);
    }
  }

  datatype FoundRange = FoundRange(r: Range, present: bool)

  /** `frs` cuts [from, to) into contiguous, non-empty, uniform, strictly alternating pieces. */
  ghost predicate Tiles(rs: seq<Range>, frs: seq<FoundRange>, from: int, to: int) {
    && (frs == [] <==> to <= from)
    && (frs != [] ==> frs[0].r.pos == from && frs[|frs| - 1].r.End() == to)
    && (forall i :: 0 <= i < |frs| ==> 0 < frs[i].r.size)
    && (forall i, j :: 0 <= i && j == i + 1 && j < |frs| ==>
          frs[i].r.End() == frs[j].r.pos && frs[i].present != frs[j].present)
    && (forall i, x :: 0 <= i < |frs| && frs[i].r.Has(x) ==> (Covers(rs, x) <==> frs[i].present))
  }

  /** Cuts `r` into alternating present and absent pieces; terminates on every input. */
  method FindAll(rs: seq<Range>, r: Range) returns (frs: seq<FoundRange>)
    requires Canonical(rs)
    ensures Tiles(rs, frs, r.pos, r.End())
  {
    frs := [];
    var rest := r;
    ghost var at := r.pos;
    while !rest.IsEmpty()
      invariant Tiles(rs, frs, r.pos, at)
      invariant if rest.IsEmpty() then r.End() <= at && (at == r.End() || frs == [])
                else rest == Range(at, r.End() - at)
      invariant !rest.IsEmpty() && frs != [] ==> (Covers(rs, at) <==> !frs[|frs| - 1].present)
      decreases rest.size
    {
      var f := Find(rs, rest);
      FindExact(rs, rest);
      assert f.curr.Has(f.curr.pos);
      TilesExtend(rs, frs, FoundRange(f.curr, f.present), r.pos, at);
      frs := frs + [FoundRange(f.curr, f.present)];
      rest := f.next;
      at := f.curr.End();
    }
  }

  lemma TilesExtend(rs: seq<Range>, frs: seq<FoundRange>, f: FoundRange, from: int, at: int)
    requires Tiles(rs, frs, from, at) && f.r.pos == at && 0 < f.r.size && from <= at
    requires forall x :: f.r.Has(x) ==> (Covers(rs, x) <==> f.present)
    requires frs != [] ==> frs[|frs| - 1].present != f.present
    ensures Tiles(rs, frs + [f], from, f.r.End())
  {
    var out := frs + [f];
    assert out[|frs|] == f;
    assert forall i :: 0 <= i < |frs| ==> out[i] == frs[i];
    assert frs == [] ==> from == at;
  }

  /** The bytes of the list that lie in `r`, again as a canonical list. */
  method Intersect(rs: seq<Range>, r: Range) returns (out: seq<Range>)
    requires Canonical(rs)
    ensures Canonical(out)
    ensures forall x :: Covers(out, x) <==> Covers(rs, x) && r.Has(x)
  {
    if |rs| == 0 {
      return rs;
    }
    var newRs := new RangeSet();
    var rest := r;
    ghost var at := r.pos;
    while !rest.IsEmpty()
      invariant Canonical(newRs.list) && r.pos <= at
      invariant if rest.IsEmpty() then r.End() <= at else rest == Range(at, r.End() - at)
      invariant forall x :: Covers(newRs.list, x) <==> Covers(rs, x) && r.Has(x) && x < at
      decreases rest.size
    {
      var f := Find(rs, rest);
      FindExact(rs, rest);
      if f.present {
        newRs.Insert(f.curr);
      }
      rest := f.next;
      assert forall x :: f.curr.Has(x) <==> at <= x < f.curr.End();
      at := f.curr.End();
    }
    return newRs.list;
  }

  /** Element-wise comparison decides equality of the byte sets. */
  method Equal(rs: seq<Range>, bs: seq<Range>) returns (eq: bool)
    requires Canonical(rs) && Canonical(bs)
    ensures eq <==> SameBytes(rs, bs)
  {
    if SameBytes(rs, bs) { CanonicalUnique(rs, bs); }
    if |rs| != |bs| {
      return false;
    }
    for i := 0 to |rs|
      invariant forall k :: 0 <= k < i ==> rs[k] == bs[k]
    {
      if rs[i] != bs[i] {
        return false;
      }
    }
    assert rs == bs;
    return true;
  }

  /** The sum of the sizes is the number of bytes covered, and no partial sum leaves int64. */
  method Size(rs: seq<Range>) returns (size: int)
    requires Canonical(rs)
    ensures size == |Bytes(rs)|
    ensures Fits(rs) ==> 0 <= size <= MAX_INT64
  {
    size := 0;
    NothingCovered(rs[..0]);
    for i := 0 to |rs|
      invariant size == |Bytes(rs[..i])| && 0 <= size
      invariant Fits(rs) ==> size <= (if i == 0 then 0 else rs[i - 1].End()) <= MAX_INT64
    {
      PrefixSize(rs, i);
      assert i > 0 ==> rs[i - 1].End() < rs[i].pos;
      size := size + rs[i].size;
    }
    assert rs[..|rs|] == rs;
  }

  // ---------- Machine integers ----------

  predicate InInt64(x: int) { -MAX_INT64 - 1 <= x <= MAX_INT64 }

  predicate RangeFits(r: Range) { 0 <= r.pos && 0 <= r.size && r.End() <= MAX_INT64 }

  predicate Fits(rs: seq<Range>) { forall i :: 0 <= i < |rs| ==> RangeFits(rs[i]) }

  /** Every value `merge` and `Clip` compute from ranges that fit is an int64, and the results fit. */
  lemma MergeClipStayInInt64(a: Range, b: Range, offset: int)
    requires RangeFits(a) && RangeFits(b) && a.pos <= b.pos && 0 <= offset <= MAX_INT64
    ensures InInt64(a.End()) && InInt64(b.pos - a.pos)
    ensures a.End() <= b.End() ==> InInt64(b.size + (b.pos - a.pos))
    ensures Merge(a, b).Some? ==> RangeFits(Merge(a, b).value)
    ensures InInt64(a.End() - offset) && InInt64(a.size - (a.End() - offset))
    ensures RangeFits(a.Clip(offset))
  {
  }

  /** Insert keeps every position and end inside int64, so no run of inserts ever overflows. */
  lemma InsertStaysInInt64(rs: seq<Range>, r: Range)
    requires Canonical(rs) && Fits(rs) && RangeFits(r)
    ensures Fits(InsertSpec(rs, r))
  {
    InsertSpecExact(rs, r);
    var out := InsertSpec(rs, r);
    assert forall x :: Covers(rs, x) || r.Has(x) ==> 0 <= x < MAX_INT64;
    forall i | 0 <= i < |out| ensures RangeFits(out[i]) {
      assert out[i].Has(out[i].pos) && out[i].Has(out[i].End() - 1);
      assert Covers(out, out[i].pos) && Covers(out, out[i].End() - 1);
    }
  }
}
