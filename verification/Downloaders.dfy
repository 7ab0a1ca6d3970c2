/**
 The downloads that fill a cached item, and the readers that wait for them.

 `Dl` and `Group` are the values of a downloader and of a set of downloaders with its
 queue of waiters; the functions on them say what each operation of the source does.
 The classes have the fields themselves and are proved to follow the functions.
 */
module DownloadGroup {
  import opened CacheItem
  import opened PlainReader
  import opened Ranges
  import opened Wrappers

  const MAX_SKIP_BYTES: int := 1024 * 1024
  const MAX_ERROR_COUNT: int := 10
  const WINDOW: int := 1024 * 1024

  /** One download; `inPos` is where its source reader stands, `done` that its copy loop has ended. */
  datatype Dl = Dl(start: int, offset: int, maxOffset: int, inPos: int, skipped: int,
                   stop: bool, done: bool, closed: bool)

  datatype Waiter = Waiter(id: nat, r: Range)

  /** What a waiter was sent: nil for success, or an error. */
  datatype Answer = Answer(id: nat, err: Option<Error>)

  datatype Group = Group(dls: seq<Dl>, waiters: seq<Waiter>, errorCount: nat, lastErr: Option<Error>)

  // ---------- Finding or starting a download ----------

  function RemoveClosed(dls: seq<Dl>): (out: seq<Dl>)
    ensures forall d :: d in out ==> d in dls && !d.closed
  {
    if dls == [] then []
    else RemoveClosed(dls[..|dls| - 1]) + if dls[|dls| - 1].closed then [] else [dls[|dls| - 1]]
  }

  /** Close enough ahead of `pos`: a downloader that will soon have that byte. */
  predicate Near(d: Dl, pos: int) { d.start <= pos < d.offset + WINDOW }

  /** The first downloader near `pos` at or after index i. */
  function FirstNear(dls: seq<Dl>, pos: int, i: nat): (k: nat)
    requires i <= |dls|
    ensures i <= k <= |dls| && (k < |dls| ==> Near(dls[k], pos))
    ensures forall j :: i <= j < k ==> !Near(dls[j], pos)
    decreases |dls| - i
  {
    if i == |dls| || Near(dls[i], pos) then i else FirstNear(dls, pos, i + 1)
  }

  function Extended(d: Dl, r: Range): Dl { d.(maxOffset := Max(d.maxOffset, r.End())) }

  function NewDl(r: Range): Dl { Dl(r.pos, r.pos, r.End(), r.pos, 0, false, false, false) }

  function AheadOf(r: Range, readAhead: nat): Range { Range(r.pos, r.size + readAhead) }

  /** The range to look for: what is missing of `r`, or a point in the window behind it; and whether to start. */
  function Wanted(rs: seq<Range>, size: int, r: Range, readAhead: nat): (Range, bool) {
    var m := Missing(rs, size, AheadOf(r, readAhead));
    if m.IsEmpty() then BehindWindow(rs, size, m) else (m, true)
  }

  function BehindWindow(rs: seq<Range>, size: int, m: Range): (w: (Range, bool))
    ensures w.0.size == 0
  {
    var window := Range(m.pos, m.size + WINDOW);
    var clipped := Missing(rs, size, window);
    if clipped.IsEmpty() then (Range(window.End(), 0), false) else (Range(clipped.pos, 0), true)
  }

  /** A positive error count comes with the last error. */
  predicate ErrorsKnown(g: Group) { g.errorCount > 0 ==> g.lastErr.Some? }

  function CountErrors(g: Group, n: int, err: Option<Error>): (g': Group)
    ensures ErrorsKnown(g) ==> ErrorsKnown(g')
  {
    if err == None && n != 0 then
      if g.errorCount != 0 then g.(errorCount := 0, lastErr := None) else g
    else if err.Some? then g.(errorCount := g.errorCount + 1, lastErr := err)
    else g
  }

  /** _ensureDownloader: `size` is the item's size, `total` that of the source. */
  function Ensure(g: Group, rs: seq<Range>, size: int, total: nat, readAhead: nat, r: Range)
    : (e: (Option<Error>, Group))
    ensures e.1.waiters == g.waiters && (ErrorsKnown(g) ==> ErrorsKnown(e.1))
  {
    var (w, startNew) := Wanted(rs, size, r, readAhead);
    Obtain(g, w, startNew, total)
  }

  /** Kick a downloader near `w`, or start one there. */
  function Obtain(g: Group, w: Range, startNew: bool, total: nat): (e: (Option<Error>, Group))
    ensures e.1.waiters == g.waiters && (ErrorsKnown(g) ==> ErrorsKnown(e.1))
  {
    var dls := RemoveClosed(g.dls);
    var k := FirstNear(dls, w.pos, 0);
    if k < |dls| then (None, g.(dls := dls[k := Extended(dls[k], w)]))
    else if !startNew || w.size == 0 then (None, g.(dls := dls))
    else if w.pos < 0 || total <= w.pos then
      (Some(OtherError), CountErrors(g.(dls := dls), 0, Some(OtherError)))
    else (None, g.(dls := dls + [NewDl(w)]))
  }

  // ---------- Waiters ----------

  predicate Ready(w: Waiter, rs: seq<Range>, total: nat) { Present(rs, w.r.Clip(total)) }

  function Remaining(waiters: seq<Waiter>, rs: seq<Range>, total: nat): (out: seq<Waiter>)
    ensures forall w :: w in out <==> w in waiters && !Ready(w, rs, total)
  {
    if waiters == [] then []
    else
      var last := waiters[|waiters| - 1];
      Remaining(waiters[..|waiters| - 1], rs, total) + if Ready(last, rs, total) then [] else [last]
  }

  function Delivered(waiters: seq<Waiter>, rs: seq<Range>, total: nat): (out: seq<Answer>)
    ensures forall a :: a in out <==> a.err == None && exists w :: w in waiters && w.id == a.id && Ready(w, rs, total)
  {
    if waiters == [] then []
    else
      var last := waiters[|waiters| - 1];
      Delivered(waiters[..|waiters| - 1], rs, total) + if Ready(last, rs, total) then [Answer(last.id, None)] else []
  }

  function Refused(waiters: seq<Waiter>, err: Option<Error>): (out: seq<Answer>)
    ensures |out| == |waiters| && forall i :: 0 <= i < |out| ==> out[i] == Answer(waiters[i].id, err)
  {
    if waiters == [] then [] else [Answer(waiters[0].id, err)] + Refused(waiters[1..], err)
  }

  function EnsureEach(g: Group, rs: seq<Range>, size: int, total: nat, readAhead: nat, waiters: seq<Waiter>)
    : (g': Group)
    ensures g'.waiters == g.waiters
    ensures ErrorsKnown(g) ==> ErrorsKnown(g')
  {
    if waiters == [] then g
    else
      var n := |waiters| - 1;
      Ensure(EnsureEach(g, rs, size, total, readAhead, waiters[..n]), rs, size, total, readAhead, waiters[n].r).1
  }

  /** kickWaiters: answer who can be answered, keep a download going for the rest, or give up on all. */
  function Kick(g: Group, rs: seq<Range>, size: int, total: nat, readAhead: nat): (seq<Answer>, Group) {
    var sent := Delivered(g.waiters, rs, total);
    var g1 := g.(waiters := Remaining(g.waiters, rs, total));
    if g1.waiters == [] then (sent, g1)
    else
      var g2 := EnsureEach(g1, rs, size, total, readAhead, g1.waiters);
      if g2.lastErr == Some(NoSpace) || g2.errorCount > MAX_ERROR_COUNT then
        (sent + Refused(g2.waiters, g2.lastErr), g2.(waiters := []))
      else (sent, g2)
  }

  // ---------- Writing ----------

  /** How a Write call ended for the copy loop. */
  datatype WriteError = Nothing | EndOfStream | Failed(error: Error)

  /** downloader.Write after `n` of `len` bytes were processed, `skipped` of them already present. */
  function AfterWrite(d: Dl, len: nat, n: nat, skipped: nat, err: Option<Error>): (WriteError, Dl) {
    var sk := if skipped == n then d.skipped + skipped else 0;
    var stop := d.stop || sk > MAX_SKIP_BYTES;
    var werr := if err.Some? then Failed(err.value) else if stop then EndOfStream else Nothing;
    (werr, d.(offset := d.offset + n, inPos := d.inPos + len, skipped := sk, stop := stop,
              done := d.done || !werr.Nothing? || n < len))
  }

  /** A downloader that leaves its sleep at the maximum because of the idle timeout stops itself. */
  function Woken(d: Dl, timedOut: bool): Dl {
    if d.offset >= d.maxOffset && timedOut then d.(stop := true) else d
  }

  // ---------- Coverage ----------

  /** Everything the downloader has passed is present, and a running one reads where it writes. */
  ghost predicate Covered(d: Dl, rs: seq<Range>, total: nat) {
    && 0 <= d.start <= d.offset <= total
    && (d.done || d.inPos == d.offset)
    && forall x :: d.start <= x < d.offset ==> Covers(rs, x)
  }

  ghost predicate AllCovered(dls: seq<Dl>, rs: seq<Range>, total: nat) {
    forall i :: 0 <= i < |dls| ==> Covered(dls[i], rs, total)
  }

  /** A download is under way that leads over the whole of `m`. */
  ghost predicate UnderWay(dls: seq<Dl>, m: Range) {
    exists i :: 0 <= i < |dls| && Serves(dls[i], m)
  }

  predicate Serves(d: Dl, m: Range) {
    !d.closed && d.start <= m.pos && d.offset <= m.pos < d.offset + WINDOW && m.End() <= d.maxOffset
  }

  lemma MissingExact(rs: seq<Range>, size: nat, r: Range)
    requires Canonical(rs)
    ensures var m := Missing(rs, size, r);
            && (forall x :: m.Has(x) ==> r.Has(x) && x < size)
            && (!m.IsEmpty() ==> !Covers(rs, m.pos) && r.pos <= m.pos < size && m.End() == Min(r.End(), size))
            && (forall x :: r.Has(x) && x < size ==> Covers(rs, x) || m.Has(x))
            && (0 <= r.pos ==> 0 <= m.pos)
  {
    FindMissingExact(rs, r);
    var f := Ranges.FindMissing(rs, r);
    assert forall x :: f.Has(x) <==> f.pos <= x < f.End();
    var m := Missing(rs, size, r);
    assert !m.IsEmpty() ==> m.Has(m.pos) && f.Has(m.pos);
  }

  lemma RemoveClosedCovered(dls: seq<Dl>, rs: seq<Range>, total: nat)
    requires AllCovered(dls, rs, total)
    ensures AllCovered(RemoveClosed(dls), rs, total)
  {
    var out := RemoveClosed(dls);
    forall i | 0 <= i < |out| ensures Covered(out[i], rs, total) {
      assert out[i] in dls;
    }
  }

  /** No operation on the group moves a downloader back or breaks its trail. */
  lemma EnsureKeepsCovered(g: Group, rs: seq<Range>, total: nat, readAhead: nat, r: Range)
    requires Canonical(rs) && AllCovered(g.dls, rs, total) && 0 <= r.pos
    ensures var (err, g') := Ensure(g, rs, total, total, readAhead, r);
            err == None && AllCovered(g'.dls, rs, total) && g' == g.(dls := g'.dls)
  {
    RemoveClosedCovered(g.dls, rs, total);
    WantedInFile(rs, total, r, readAhead);
    var w := Wanted(rs, total, r, readAhead).0;
    var dls := RemoveClosed(g.dls);
    var k := FirstNear(dls, w.pos, 0);
    if k < |dls| {
      assert Covered(Extended(dls[k], w), rs, total) by { assert Covered(dls[k], rs, total); }
    } else if 0 < w.size {
      assert Covered(NewDl(w), rs, total);
    }
  }

  lemma WantedInFile(rs: seq<Range>, total: nat, r: Range, readAhead: nat)
    requires Canonical(rs) && 0 <= r.pos
    ensures var w := Wanted(rs, total, r, readAhead).0; 0 <= w.size && (0 < w.size ==> 0 <= w.pos < total)
  {
    var m := Missing(rs, total, AheadOf(r, readAhead));
    if !m.IsEmpty() {
      MissingExact(rs, total, AheadOf(r, readAhead));
    }
  }

  /** A downloader near a missing byte has not passed it yet. */
  lemma NearMissing(d: Dl, rs: seq<Range>, total: nat, m: Range)
    requires Covered(d, rs, total) && !d.closed && Near(d, m.pos) && !Covers(rs, m.pos)
    ensures Serves(Extended(d, m), m)
  {
  }

  /**
   Once _ensureDownloader has succeeded, either nothing of the wanted range is missing, or a
   download that was not closed leads over all of what is missing: it has not passed it, and
   its maximum lies behind it.
   */
  lemma EnsureCovers(g: Group, rs: seq<Range>, total: nat, readAhead: nat, r: Range)
    requires Canonical(rs) && AllCovered(g.dls, rs, total) && 0 <= r.pos
    ensures var (err, g') := Ensure(g, rs, total, total, readAhead, r);
            err == None && Served(g'.dls, rs, total, readAhead, r)
  {
    EnsureKeepsCovered(g, rs, total, readAhead, r);
    EnsureServesIff(g, rs, total, readAhead, r);
    var m, dls := Missing(rs, total, AheadOf(r, readAhead)), RemoveClosed(g.dls);
    if !m.IsEmpty() && FirstNear(dls, m.pos, 0) < |dls| {
      MissingExact(rs, total, AheadOf(r, readAhead));
      RemoveClosedCovered(g.dls, rs, total);
      NearMissing(dls[FirstNear(dls, m.pos, 0)], rs, total, m);
    }
  }

  lemma {:induction false} OpenOnesStay(dls: seq<Dl>, d: Dl)
    requires d in dls && !d.closed
    ensures d in RemoveClosed(dls)
    decreases |dls|
  {
    var init, last := dls[..|dls| - 1], dls[|dls| - 1];
    assert dls == init + [last];
    if d != last {
      OpenOnesStay(init, d);
    }
  }

  /** Looking for another download leaves one that is under way in place. */
  lemma UnderWayKept(g: Group, rs: seq<Range>, size: int, total: nat, readAhead: nat, r: Range, m: Range)
    requires UnderWay(g.dls, m)
    ensures UnderWay(Ensure(g, rs, size, total, readAhead, r).1.dls, m)
  {
    var (w, startNew) := Wanted(rs, size, r, readAhead);
    ObtainKeeps(g, w, startNew, total, m);
  }

  lemma ObtainKeeps(g: Group, w: Range, startNew: bool, total: nat, m: Range)
    requires UnderWay(g.dls, m)
    ensures UnderWay(Obtain(g, w, startNew, total).1.dls, m)
  {
    var i :| 0 <= i < |g.dls| && Serves(g.dls[i], m);
    OpenOnesStay(g.dls, g.dls[i]);
    var dls := RemoveClosed(g.dls);
    var j :| 0 <= j < |dls| && dls[j] == g.dls[i];
    assert Serves(Obtain(g, w, startNew, total).1.dls[j], m);
  }

  /** Nothing of what the waiter wants is missing, or a download of it is under way. */
  ghost predicate Served(dls: seq<Dl>, rs: seq<Range>, total: nat, readAhead: nat, r: Range) {
    var m := Missing(rs, total, AheadOf(r, readAhead));
    m.IsEmpty() || UnderWay(dls, m)
  }

  /**
   Without any assumption on the downloads there are: the wanted range is served afterwards
   exactly when it was before, or the first download near its first missing byte, if there
   is one, has not passed that byte.  One that has is reused all the same.
   */
  lemma EnsureServesIff(g: Group, rs: seq<Range>, total: nat, readAhead: nat, r: Range)
    requires Canonical(rs) && 0 <= r.pos
    ensures var m, dls := Missing(rs, total, AheadOf(r, readAhead)), RemoveClosed(g.dls);
            var k := FirstNear(dls, m.pos, 0);
            Served(Ensure(g, rs, total, total, readAhead, r).1.dls, rs, total, readAhead, r) <==>
              Served(g.dls, rs, total, readAhead, r) || k == |dls| || dls[k].offset <= m.pos
  {
    var m, dls := Missing(rs, total, AheadOf(r, readAhead)), RemoveClosed(g.dls);
    var k := FirstNear(dls, m.pos, 0);
    var dls' := Ensure(g, rs, total, total, readAhead, r).1.dls;
    MissingExact(rs, total, AheadOf(r, readAhead));
    if !m.IsEmpty() {
      if UnderWay(g.dls, m) {
        UnderWayKept(g, rs, total, total, readAhead, r, m);
      } else if k == |dls| {
        assert Serves(dls'[k], m);
      } else if dls[k].offset <= m.pos {
        assert dls[k] in dls && Serves(dls'[k], m);
      } else {
        StillUnserved(g.dls, dls, k, m);
      }
    }
  }

  /** A download that is extended although it has passed the missing byte serves nobody who was not served before. */
  lemma StillUnserved(all: seq<Dl>, dls: seq<Dl>, k: nat, m: Range)
    requires !UnderWay(all, m) && (forall d :: d in dls ==> d in all) && k < |dls| && m.pos < dls[k].offset
    ensures !UnderWay(dls[k := Extended(dls[k], m)], m)
  {
    var dls' := dls[k := Extended(dls[k], m)];
    forall i | 0 <= i < |dls'| ensures !Serves(dls'[i], m) {
      assert i != k ==> dls'[i] in dls;
    }
  }

  /** Ensuring a download for each waiter in turn leaves every one of them served. */
  lemma {:induction false} EnsureEachServes(g: Group, rs: seq<Range>, total: nat, readAhead: nat, waiters: seq<Waiter>)
    requires Canonical(rs) && AllCovered(g.dls, rs, total) && forall w :: w in waiters ==> 0 <= w.r.pos
    ensures var g' := EnsureEach(g, rs, total, total, readAhead, waiters);
            && AllCovered(g'.dls, rs, total)
            && forall w :: w in waiters ==> Served(g'.dls, rs, total, readAhead, w.r)
    decreases |waiters|
  {
    if waiters != [] {
      var init, last := waiters[..|waiters| - 1], waiters[|waiters| - 1];
      assert waiters == init + [last];
      assert last in waiters;
      EnsureEachServes(g, rs, total, readAhead, init);
      var g1 := EnsureEach(g, rs, total, total, readAhead, init);
      EnsureKeepsCovered(g1, rs, total, readAhead, last.r);
      EnsureCovers(g1, rs, total, readAhead, last.r);
      forall w | w in init
        ensures Served(EnsureEach(g, rs, total, total, readAhead, waiters).dls, rs, total, readAhead, w.r)
      {
        var m := Missing(rs, total, AheadOf(w.r, readAhead));
        if !m.IsEmpty() {
          UnderWayKept(g1, rs, total, total, readAhead, last.r, m);
        }
      }
    }
  }

  /** Whoever is still queued after a kick is served. */
  lemma KickServes(g: Group, rs: seq<Range>, total: nat, readAhead: nat)
    requires Canonical(rs) && AllCovered(g.dls, rs, total) && forall w :: w in g.waiters ==> 0 <= w.r.pos
    ensures var g' := Kick(g, rs, total, total, readAhead).1;
            && AllCovered(g'.dls, rs, total)
            && forall w :: w in g'.waiters ==> Served(g'.dls, rs, total, readAhead, w.r)
  {
    var g1 := g.(waiters := Remaining(g.waiters, rs, total));
    if g1.waiters != [] {
      EnsureEachServes(g1, rs, total, readAhead, g1.waiters);
    }
  }

  /** A download that served `m` and has reached its maximum has made all of `r` present. */
  lemma ServedRangePresent(rs: seq<Range>, rs': seq<Range>, total: nat, r: Range, d: Dl, d': Dl)
    requires Canonical(rs) && Canonical(rs') && forall x :: Covers(rs, x) ==> Covers(rs', x)
    requires Serves(d, Missing(rs, total, r))
    requires AllPresent(rs', d.offset, d'.offset) && d.maxOffset <= d'.maxOffset <= d'.offset
    ensures Present(rs', r.Clip(total))
  {
    MissingExact(rs, total, r);
    PresentExact(rs', r.Clip(total));
  }

  /**
   In bytes: afterwards one open download has not passed any of the bytes of the range and
   its read-ahead that are missing, and its maximum lies behind all of them.
   */
  lemma EnsureReaches(g: Group, rs: seq<Range>, total: nat, readAhead: nat, r: Range)
    requires Canonical(rs) && AllCovered(g.dls, rs, total) && 0 <= r.pos
    ensures var dls' := Ensure(g, rs, total, total, readAhead, r).1.dls;
            || (forall x :: r.pos <= x < r.End() + readAhead && x < total ==> Covers(rs, x))
            || exists i :: 0 <= i < |dls'| && LeadsOver(dls'[i], rs, total, r.pos, r.End() + readAhead)
  {
    var m := Missing(rs, total, AheadOf(r, readAhead));
    EnsureCovers(g, rs, total, readAhead, r);
    MissingExact(rs, total, AheadOf(r, readAhead));
    assert forall x :: AheadOf(r, readAhead).Has(x) <==> r.pos <= x < r.End() + readAhead;
    var dls' := Ensure(g, rs, total, total, readAhead, r).1.dls;
    if !m.IsEmpty() {
      var i :| 0 <= i < |dls'| && Serves(dls'[i], m);
      assert LeadsOver(dls'[i], rs, total, r.pos, r.End() + readAhead);
    }
  }

  ghost predicate LeadsOver(d: Dl, rs: seq<Range>, total: nat, from: int, to: int) {
    !d.closed && forall x :: from <= x < to && x < total && !Covers(rs, x) ==>
      d.start <= x && d.offset <= x < d.maxOffset
  }

  /** An open download that will be at `pos` soon: less than a mebibyte before it, and not begun behind it. */
  ghost predicate SoonAt(dls: seq<Dl>, pos: int) {
    exists d :: d in dls && !d.closed && d.start <= pos < d.offset + 1_048_576
  }

  /**
   A request for missing bytes starts a download exactly when none will be there soon, and
   asks for nothing behind them: no maximum is moved beyond the end of the range, its
   read-ahead and the file.
   */
  lemma EnsureStartsIff(g: Group, rs: seq<Range>, total: nat, readAhead: nat, r: Range)
    requires Canonical(rs) && 0 <= r.pos
    ensures var m, dls := Missing(rs, total, AheadOf(r, readAhead)), RemoveClosed(g.dls);
            var dls' := Ensure(g, rs, total, total, readAhead, r).1.dls;
            !m.IsEmpty() ==>
              && |dls'| == |dls| + (if SoonAt(g.dls, m.pos) then 0 else 1)
              && forall d :: d in dls' ==> d in g.dls || d.maxOffset == Min(r.End() + readAhead, total)
  {
    var m, dls := Missing(rs, total, AheadOf(r, readAhead)), RemoveClosed(g.dls);
    MissingExact(rs, total, AheadOf(r, readAhead));
    var k := FirstNear(dls, m.pos, 0);
    if d :| d in g.dls && !d.closed && d.start <= m.pos < d.offset + 1_048_576 {
      OpenOnesStay(g.dls, d);
      var j :| 0 <= j < |dls| && dls[j] == d;
      assert Near(dls[j], m.pos);
    }
    if k < |dls| {
      assert dls[k] in dls;
    }
  }

  /** Where the read-ahead ends: at the first missing byte of the mebibyte behind the range, or at its end. */
  lemma WindowEnds(rs: seq<Range>, size: nat, end: nat)
    requires Canonical(rs)
    ensures var p := BehindWindow(rs, size, Range(end, 0)).0.pos;
            && end <= p <= end + 1_048_576 && (forall x :: end <= x < p && x < size ==> Covers(rs, x))
            && (p < end + 1_048_576 ==> p < size && !Covers(rs, p))
  {
    var window := Range(end, WINDOW);
    MissingExact(rs, size, window);
    assert forall x :: window.Has(x) <==> end <= x < end + WINDOW;
    var c := Missing(rs, size, window);
    FindMissingExact(rs, window);
    assert !c.IsEmpty() ==> c.pos == Ranges.FindMissing(rs, window).pos;
  }

  /**
   A request for nothing missing starts no download, but the first one that nears the end of the window
   goes on to it.
   */
  lemma NothingMissingKicks(g: Group, rs: seq<Range>, size: int, total: nat, readAhead: nat, r: Range)
    requires Missing(rs, size, AheadOf(r, readAhead)).IsEmpty()
    ensures var p := BehindWindow(rs, size, Missing(rs, size, AheadOf(r, readAhead))).0.pos;
            var (err, g') := Ensure(g, rs, size, total, readAhead, r);
            var dls := RemoveClosed(g.dls);
            && err == None && g' == g.(dls := g'.dls) && |g'.dls| == |dls|
            && (forall i :: 0 <= i < |dls| ==>
                  || g'.dls[i] == dls[i]
                  || (Near(dls[i], p) && g'.dls[i] == dls[i].(maxOffset := Max(dls[i].maxOffset, p))))
            && (SoonAt(g.dls, p) ==> exists i :: 0 <= i < |dls| && Near(dls[i], p) && g'.dls[i].maxOffset >= p)
  {
    var p := BehindWindow(rs, size, Missing(rs, size, AheadOf(r, readAhead))).0.pos;
    var dls := RemoveClosed(g.dls);
    if d :| d in g.dls && !d.closed && d.start <= p < d.offset + 1_048_576 {
      OpenOnesStay(g.dls, d);
      var j :| 0 <= j < |dls| && dls[j] == d;
      assert Near(dls[j], p);
    }
  }

  /**
   A request is refused, and counted as an error, exactly when a download would have to start behind
   the source's end.
   */
  lemma EnsureFailsIff(g: Group, rs: seq<Range>, size: nat, total: nat, readAhead: nat, r: Range)
    requires Canonical(rs) && 0 <= r.pos
    ensures var m := Missing(rs, size, AheadOf(r, readAhead));
            var (err, g') := Ensure(g, rs, size, total, readAhead, r);
            && (err.Some? <==> !m.IsEmpty() && !SoonAt(g.dls, m.pos) && total <= m.pos)
            && g'.errorCount == g.errorCount + (if err.Some? then 1 else 0)
            && g'.lastErr == (if err.Some? then err else g.lastErr)
  {
    var m, dls := Missing(rs, size, AheadOf(r, readAhead)), RemoveClosed(g.dls);
    MissingExact(rs, size, AheadOf(r, readAhead));
    if d :| d in g.dls && !d.closed && d.start <= m.pos < d.offset + 1_048_576 {
      OpenOnesStay(g.dls, d);
      var j :| 0 <= j < |dls| && dls[j] == d;
      assert Near(dls[j], m.pos);
    }
    var k := FirstNear(dls, m.pos, 0);
    if k < |dls| {
      assert dls[k] in dls;
    }
  }

  /** A write that processed `n` bytes keeps the downloader's trail covered. */
  lemma WriteCovers(d: Dl, rs: seq<Range>, total: nat, len: nat, n: nat, skipped: nat, err: Option<Error>)
    requires Canonical(rs) && Covered(d, rs, total) && n <= len && d.offset + n <= total && !d.done
    ensures Covered(AfterWrite(d, len, n, skipped, err).1, InsertSpec(rs, Range(d.offset, n)), total)
  {
    InsertSpecExact(rs, Range(d.offset, n));
  }

  lemma CoveredMonotone(dls: seq<Dl>, rs: seq<Range>, rs': seq<Range>, total: nat)
    requires AllCovered(dls, rs, total) && forall x :: Covers(rs, x) ==> Covers(rs', x)
    ensures AllCovered(dls, rs', total)
  {
  }

  // ---------- Counting errors and skipped bytes ----------

  /** How a download ended: the bytes it brought, and its error. */
  datatype Ended = Ended(n: int, err: Option<Error>)

  predicate Success(e: Ended) { e.err == None && e.n != 0 }

  /** The books after the downloads have ended in this order. */
  function AfterEnds(g: Group, ends: seq<Ended>): Group {
    if ends == [] then g
    else
      var last := ends[|ends| - 1];
      CountErrors(AfterEnds(g, ends[..|ends| - 1]), last.n, last.err)
  }

  /** The failures from the k-th end on. */
  ghost function Failures(ends: seq<Ended>, k: nat): set<nat> {
    set i: nat | k <= i < |ends| && ends[i].err.Some?
  }

  /** The last success was just before the k-th end, or there was none and k is 0. */
  ghost predicate SinceSuccess(ends: seq<Ended>, k: nat) {
    k <= |ends| && (k == 0 || Success(ends[k - 1])) && forall i :: k <= i < |ends| ==> !Success(ends[i])
  }

  /** The count is the number of failures from the k-th end on, and the error that is kept is the last of them. */
  ghost predicate Tallied(count: nat, lastErr: Option<Error>, ends: seq<Ended>, k: nat) {
    && count == |Failures(ends, k)| && (count == 0 <==> lastErr == None)
    && forall i :: k <= i < |ends| && LastFailure(ends, i) ==> lastErr == ends[i].err
  }

  ghost predicate LastFailure(ends: seq<Ended>, i: nat)
    requires i < |ends|
  {
    ends[i].err.Some? && forall j :: i < j < |ends| ==> ends[j].err == None
  }

  /** The books show the failures since the last success. */
  lemma {:induction false} ErrorsCounted(g: Group, ends: seq<Ended>, k: nat)
    requires g.errorCount == 0 && g.lastErr == None && SinceSuccess(ends, k)
    ensures var g' := AfterEnds(g, ends);
            Tallied(g'.errorCount, g'.lastErr, ends, k) && g' == g.(errorCount := g'.errorCount, lastErr := g'.lastErr)
    decreases |ends|
  {
    if ends == [] {
      assert Failures(ends, k) == {};
    } else {
      var n := |ends| - 1;
      if Success(ends[n]) {
        var k' := LastSuccess(ends[..n]);
        ErrorsCounted(g, ends[..n], k');
        assert Failures(ends, k) == {};
      } else {
        ErrorsCounted(g, ends[..n], k);
        BookOne(AfterEnds(g, ends[..n]), ends, k);
      }
    }
  }

  lemma BookOne(g: Group, ends: seq<Ended>, k: nat)
    requires ends != [] && !Success(ends[|ends| - 1]) && k < |ends|
    requires Tallied(g.errorCount, g.lastErr, ends[..|ends| - 1], k)
    ensures var g' := CountErrors(g, ends[|ends| - 1].n, ends[|ends| - 1].err);
            Tallied(g'.errorCount, g'.lastErr, ends, k)
  {
    var n := |ends| - 1;
    var g' := CountErrors(g, ends[n].n, ends[n].err);
    FailuresSnoc(ends, k);
    forall i | k <= i < |ends| && LastFailure(ends, i) ensures g'.lastErr == ends[i].err {
      if i < n {
        assert ends[n].err == None && ends[..n][i] == ends[i];
        assert LastFailure(ends[..n], i);
      }
    }
  }

  lemma FailuresSnoc(ends: seq<Ended>, k: nat)
    requires k < |ends|
    ensures var n := |ends| - 1; |Failures(ends, k)| == |Failures(ends[..n], k)| + if ends[n].err.Some? then 1 else 0
  {
    var n := |ends| - 1;
    var before := Failures(ends[..n], k);
    assert n !in before;
    assert Failures(ends, k) == if ends[n].err.Some? then before + {n} else before;
  }

  lemma {:induction false} LastSuccess(ends: seq<Ended>) returns (k: nat)
    ensures SinceSuccess(ends, k)
    decreases |ends|
  {
    if ends == [] || Success(ends[|ends| - 1]) {
      k := |ends|;
    } else {
      k := LastSuccess(ends[..|ends| - 1]);
    }
  }

  /** After more than ten failures in a row a kick leaves nobody waiting: whoever is not ready gets the last error. */
  lemma TooManyFailures(g: Group, ends: seq<Ended>, rs: seq<Range>, total: nat, readAhead: nat)
    requires g.errorCount == 0 && g.lastErr == None && |ends| > 10
    requires forall i :: 0 <= i < |ends| ==> ends[i].err.Some?
    requires Canonical(rs) && AllCovered(g.dls, rs, total) && forall w :: w in g.waiters ==> 0 <= w.r.pos
    ensures var (sent, g') := Kick(AfterEnds(g, ends), rs, total, total, readAhead);
            && g'.waiters == []
            && forall w :: w in g.waiters && !Ready(w, rs, total) ==> Answer(w.id, ends[|ends| - 1].err) in sent
  {
    ErrorsCounted(g, ends, 0);
    AllFailures(ends);
    assert LastFailure(ends, |ends| - 1);
    var g0 := AfterEnds(g, ends);
    var g1 := g0.(waiters := Remaining(g.waiters, rs, total));
    EnsureEachQuiet(g1, rs, total, readAhead, g1.waiters);
    var g2 := EnsureEach(g1, rs, total, total, readAhead, g1.waiters);
    forall w | w in g.waiters && !Ready(w, rs, total)
      ensures Answer(w.id, g0.lastErr) in Refused(g1.waiters, g0.lastErr)
    {
      var i :| 0 <= i < |g1.waiters| && g1.waiters[i] == w;
      assert Refused(g1.waiters, g0.lastErr)[i] == Answer(w.id, g0.lastErr);
    }
  }

  lemma {:induction false} AllFailures(ends: seq<Ended>)
    requires forall i :: 0 <= i < |ends| ==> ends[i].err.Some?
    ensures |Failures(ends, 0)| == |ends|
    decreases |ends|
  {
    if ends == [] {
      assert Failures(ends, 0) == {};
    } else {
      var n := |ends| - 1;
      AllFailures(ends[..n]);
      FailuresSnoc(ends, 0);
    }
  }

  /** Inside the file no request fails, so the books stay. */
  lemma {:induction false} EnsureEachQuiet(g: Group, rs: seq<Range>, total: nat, readAhead: nat, waiters: seq<Waiter>)
    requires Canonical(rs) && AllCovered(g.dls, rs, total) && forall w :: w in waiters ==> 0 <= w.r.pos
    ensures var g' := EnsureEach(g, rs, total, total, readAhead, waiters);
            g' == g.(dls := g'.dls) && AllCovered(g'.dls, rs, total)
    decreases |waiters|
  {
    if waiters != [] {
      var n := |waiters| - 1;
      assert waiters[n] in waiters;
      EnsureEachQuiet(g, rs, total, readAhead, waiters[..n]);
      EnsureKeepsCovered(EnsureEach(g, rs, total, total, readAhead, waiters[..n]), rs, total, readAhead, waiters[n].r);
    }
  }

  /** One write: `n` of `len` bytes processed, `skipped` of them present already. */
  datatype Wrote = Wrote(len: nat, n: nat, skipped: nat, err: Option<Error>)

  /** The download after these writes. */
  function AfterAll(d: Dl, writes: seq<Wrote>): Dl {
    if writes == [] then d
    else
      var w := writes[|writes| - 1];
      AfterWrite(AfterAll(d, writes[..|writes| - 1]), w.len, w.n, w.skipped, w.err).1
  }

  function Processing(writes: seq<Wrote>): nat {
    if writes == [] then 0 else Processing(writes[..|writes| - 1]) + writes[|writes| - 1].n
  }

  /** The writes from the k-th on skipped all they processed; the one before, if any, did not. */
  ghost predicate SkippingSince(writes: seq<Wrote>, k: nat) {
    && k <= |writes| && (k > 0 ==> writes[k - 1].skipped != writes[k - 1].n)
    && forall i :: k <= i < |writes| ==> writes[i].skipped == writes[i].n
  }

  /** A download moves by what it processed, and counts the bytes it skipped in a row. */
  lemma {:induction false} SkipsCounted(d: Dl, writes: seq<Wrote>, k: nat)
    requires SkippingSince(writes, k)
    ensures var d' := AfterAll(d, writes);
            && d'.skipped == Processing(writes[k..]) + (if k == 0 then d.skipped else 0)
            && d'.offset == d.offset + Processing(writes) && d'.start == d.start && d'.maxOffset == d.maxOffset
    decreases |writes|
  {
    if writes != [] {
      var n := |writes| - 1;
      var init := writes[..n];
      if k == |writes| {
        var k' := LastSkip(init);
        SkipsCounted(d, init, k');
      } else {
        SkipsCounted(d, init, k);
        assert writes[k..][..n - k] == init[k..];
      }
    }
  }

  lemma {:induction false} LastSkip(writes: seq<Wrote>) returns (k: nat)
    ensures SkippingSince(writes, k)
    decreases |writes|
  {
    if writes == [] || writes[|writes| - 1].skipped != writes[|writes| - 1].n {
      k := |writes|;
    } else {
      k := LastSkip(writes[..|writes| - 1]);
    }
  }

  /**
   A download stops itself when it has skipped more than a mebibyte in a row, and only then;
   its copy loop ends exactly with a failed or short write, or once it has been stopped.
   */
  lemma WriteEnds(d: Dl, len: nat, n: nat, skipped: nat, err: Option<Error>)
    ensures var (werr, d') := AfterWrite(d, len, n, skipped, err);
            && (d'.stop <==> d.stop || d'.skipped > 1_048_576)
            && (d'.done <==> d.done || err.Some? || n < len || d'.stop)
            && (werr == EndOfStream <==> err == None && d'.stop) && (err.Some? <==> werr.Failed?)
            && (err.Some? ==> werr == Failed(err.value)) && d'.closed == d.closed && d'.inPos == d.inPos + len
  {
  }

  // ---------- Conservation of waiters ----------

  ghost predicate Increasing(waiters: seq<Waiter>) {
    forall i, j :: 0 <= i < j < |waiters| ==> waiters[i].id < waiters[j].id
  }

  ghost predicate Queued(waiters: seq<Waiter>, id: nat) {
    exists i :: 0 <= i < |waiters| && waiters[i].id == id
  }

  ghost predicate Answered(answers: seq<Answer>, id: nat) {
    exists i :: 0 <= i < |answers| && answers[i].id == id
  }

  /**
   Of the waiters 0, ..., issued - 1 each is either still queued, in order of arrival, or was
   answered, and none was answered twice.
   */
  ghost predicate Conserved(waiters: seq<Waiter>, answers: seq<Answer>, issued: nat) {
    && Increasing(waiters)
    && (forall i, j :: 0 <= i < j < |answers| ==> answers[i].id != answers[j].id)
    && (forall id :: 0 <= id < issued ==> (Queued(waiters, id) <==> !Answered(answers, id)))
    && (forall i :: 0 <= i < |waiters| ==> waiters[i].id < issued)
    && (forall i :: 0 <= i < |answers| ==> answers[i].id < issued)
  }

  lemma Issue(waiters: seq<Waiter>, answers: seq<Answer>, issued: nat, r: Range)
    requires Conserved(waiters, answers, issued)
    ensures Conserved(waiters + [Waiter(issued, r)], answers, issued + 1)
  {
    var w := Waiter(issued, r);
    QueuedConcat(waiters, [w]);
    assert [w][0] == w && forall id: nat :: Queued([w], id) <==> id == issued;
    assert forall id: nat :: Queued(waiters, id) ==> id < issued;
    assert forall id: nat :: Answered(answers, id) ==> id < issued;
  }

  lemma Assoc<T>(a: seq<T>, b: seq<T>, c: seq<T>)
    ensures a + b + c == a + (b + c)
  {
  }

  lemma QueuedConcat(a: seq<Waiter>, b: seq<Waiter>)
    ensures forall id :: Queued(a + b, id) <==> Queued(a, id) || Queued(b, id)
  {
    forall id | Queued(a, id) || Queued(b, id) ensures Queued(a + b, id) {
      if Queued(a, id) {
        var i :| 0 <= i < |a| && a[i].id == id;
        assert (a + b)[i].id == id;
      } else {
        var i :| 0 <= i < |b| && b[i].id == id;
        assert (a + b)[|a| + i].id == id;
      }
    }
  }

  lemma AnsweredSnoc(a: seq<Answer>, x: Answer)
    ensures forall id :: Answered(a + [x], id) <==> Answered(a, id) || id == x.id
  {
    assert (a + [x])[|a|] == x;
    forall id | Answered(a, id) ensures Answered(a + [x], id) {
      var i :| 0 <= i < |a| && a[i].id == id;
      assert (a + [x])[i].id == id;
    }
  }

  /** Answering one queued waiter keeps the books. */
  lemma AnswerOne(pre: seq<Waiter>, w: Waiter, post: seq<Waiter>, answers: seq<Answer>, issued: nat, err: Option<Error>)
    requires Conserved(pre + [w] + post, answers, issued)
    ensures Conserved(pre + post, answers + [Answer(w.id, err)], issued)
  {
    var all, out := pre + [w] + post, pre + post;
    QueuedConcat(pre + [w], post);
    QueuedConcat(pre, [w]);
    QueuedConcat(pre, post);
    AnsweredSnoc(answers, Answer(w.id, err));
    assert all[|pre|] == w && [w][0] == w;
    assert forall i :: 0 <= i < |pre| ==> all[i] == pre[i];
    assert forall i :: 0 <= i < |post| ==> all[|pre| + 1 + i] == post[i];
    assert forall i :: 0 <= i < |out| ==> out[i] == all[if i < |pre| then i else i + 1];
    assert !Queued(pre, w.id) && !Queued(post, w.id);
    assert Queued(all, w.id);
    assert forall id: nat :: Queued([w], id) <==> id == w.id;
    assert !Answered(answers, w.id);
  }

  /** Dispatching conserves the waiters: the ready ones are answered once, the others stay in order. */
  lemma {:induction false} DispatchConserves(waiters: seq<Waiter>, rest: seq<Waiter>, answers: seq<Answer>, issued: nat,
                                             rs: seq<Range>, total: nat)
    requires Conserved(waiters + rest, answers, issued)
    ensures Conserved(Remaining(waiters, rs, total) + rest, answers + Delivered(waiters, rs, total), issued)
    decreases |waiters|
  {
    if waiters == [] {
      assert answers + [] == answers;
    } else {
      var init, last := waiters[..|waiters| - 1], waiters[|waiters| - 1];
      assert waiters + rest == init + ([last] + rest);
      DispatchConserves(init, [last] + rest, answers, issued, rs, total);
      var kept, sent := Remaining(init, rs, total), answers + Delivered(init, rs, total);
      assert kept + ([last] + rest) == kept + [last] + rest;
      if Ready(last, rs, total) {
        AnswerOne(kept, last, rest, sent, issued, None);
        assert kept + [] == kept;
        Assoc(answers, Delivered(init, rs, total), [Answer(last.id, None)]);
      } else {
        assert answers + (Delivered(init, rs, total) + []) == sent;
      }
    }
  }

  lemma {:induction false} RefuseConserves(waiters: seq<Waiter>, answers: seq<Answer>, issued: nat, err: Option<Error>)
    requires Conserved(waiters, answers, issued)
    ensures Conserved([], answers + Refused(waiters, err), issued)
    decreases |waiters|
  {
    if waiters == [] {
      assert answers + Refused(waiters, err) == answers;
    } else {
      var first, rest := waiters[0], waiters[1..];
      assert waiters == [] + [first] + rest && rest == [] + rest;
      AnswerOne([], first, rest, answers, issued, err);
      RefuseConserves(rest, answers + [Answer(first.id, err)], issued, err);
      Assoc(answers, [Answer(first.id, err)], Refused(rest, err));
    }
  }

  /** kickWaiters conserves the waiters. */
  lemma KickConserves(g: Group, answers: seq<Answer>, issued: nat, rs: seq<Range>, size: int, total: nat,
                      readAhead: nat)
    requires Conserved(g.waiters, answers, issued)
    ensures var (sent, g') := Kick(g, rs, size, total, readAhead);
            Conserved(g'.waiters, answers + sent, issued)
  {
    assert g.waiters + [] == g.waiters;
    DispatchConserves(g.waiters, [], answers, issued, rs, total);
    var kept := Remaining(g.waiters, rs, total);
    assert kept + [] == kept;
    if kept != [] {
      var sent := Delivered(g.waiters, rs, total);
      var g2 := EnsureEach(g.(waiters := kept), rs, size, total, readAhead, kept);
      RefuseConserves(kept, answers + sent, issued, g2.lastErr);
      Assoc(answers, sent, Refused(kept, g2.lastErr));
    }
  }

  /**
   A kick answers nil to exactly those whose bytes are present.  The others get the last error
   when there is no space or there were more than ten errors, and only then; else they wait on.
   */
  lemma KickAnswers(g: Group, rs: seq<Range>, size: int, total: nat, readAhead: nat)
    requires ErrorsKnown(g)
    ensures var (sent, g') := Kick(g, rs, size, total, readAhead);
            && ErrorsKnown(g')
            && (forall w :: w in g'.waiters ==> w in g.waiters && !Ready(w, rs, total))
            && (GivesUp(g') ==> g'.waiters == [])
            && (forall w :: w in g.waiters && !Ready(w, rs, total) ==>
                  if GivesUp(g') then Answer(w.id, g'.lastErr) in sent else w in g'.waiters)
            && (forall w :: w in g.waiters && Ready(w, rs, total) ==> Answer(w.id, None) in sent)
            && (forall a :: a in sent && a.err == None ==>
                  exists w :: w in g.waiters && w.id == a.id && Ready(w, rs, total))
  {
    var g1 := g.(waiters := Remaining(g.waiters, rs, total));
    var g2 := EnsureEach(g1, rs, size, total, readAhead, g1.waiters);
    forall a | a in Refused(g2.waiters, g2.lastErr) ensures a.err == g2.lastErr {
      var i :| 0 <= i < |g2.waiters| && Refused(g2.waiters, g2.lastErr)[i] == a;
    }
    forall w | w in g1.waiters ensures Answer(w.id, g2.lastErr) in Refused(g1.waiters, g2.lastErr) {
      var i :| 0 <= i < |g1.waiters| && g1.waiters[i] == w;
      assert Refused(g1.waiters, g2.lastErr)[i] == Answer(w.id, g2.lastErr);
    }
  }

  /** No space, or more than ten errors. */
  predicate GivesUp(g: Group) { g.lastErr == Some(NoSpace) || g.errorCount > 10 }

  // ---------- The object ----------

  /** The downloaders of an item, with the queue of readers waiting for bytes. */
  class Downloaders {
    const item: Item
    const total: nat
    const readAhead: nat
    var dls: seq<Dl>
    var waiters: seq<Waiter>
    var errorCount: nat
    var lastErr: Option<Error>
    var answers: seq<Answer>   // what was sent to the waiters, in order
    var issued: nat            // how many waiters there have been

    function State(): Group
      reads this
    {
      Group(dls, waiters, errorCount, lastErr)
    }

    ghost predicate Valid()
      reads this, item, item.rs
    {
      item.Valid() && Conserved(waiters, answers, issued) && ErrorsKnown(State())
    }

    constructor (item: Item, total: nat, readAhead: nat)
      requires item.Valid()
      ensures Valid() && State() == Group([], [], 0, None) && issued == 0
      ensures this.item == item && this.total == total && this.readAhead == readAhead
    {
      this.item, this.total, this.readAhead := item, total, readAhead;
      dls, waiters, errorCount, lastErr := [], [], 0, None;
      answers, issued := [], 0;
    }

    method RecordError(n: int, err: Option<Error>)
      modifies this`errorCount, this`lastErr
      ensures State() == CountErrors(old(State()), n, err)
    {
      if err == None && n != 0 {
        if errorCount != 0 {
          errorCount := 0;
          lastErr := None;
        }
        return;
      }
      if err.Some? {
        errorCount := errorCount + 1;
        lastErr := err;
      }
    }

    /** A download ends: it is closed, and its error or success goes into the books; a kick follows. */
    method DownloadEnds(i: nat, n: int, err: Option<Error>)
      requires Valid() && i < |dls|
      modifies this`dls, this`errorCount, this`lastErr
      ensures Valid()
      ensures var g := old(State());
              State() == CountErrors(g.(dls := g.dls[i := g.dls[i].(closed := true, done := true)]), n, err)
    {
      dls := dls[i := dls[i].(closed := true, done := true)];
      RecordError(n, err);
    }

    /** _removeClosed: filters the slice in place. */
    method DropClosed()
      modifies this`dls
      ensures State() == old(State()).(dls := RemoveClosed(old(dls)))
    {
      var kept: seq<Dl> := [];
      for i := 0 to |dls|
        invariant dls == old(dls) && kept == RemoveClosed(dls[..i])
      {
        assert dls[..i + 1][..i] == dls[..i];
        if !dls[i].closed {
          kept := kept + [dls[i]];
        }
      }
      assert dls[..|dls|] == dls;
      dls := kept;
    }

    /** The last two thirds of _ensureDownloader: kick a downloader near `w`, or start one there. */
    method ObtainDownloader(w: Range, startNew: bool) returns (err: Option<Error>)
      modifies this`dls, this`errorCount, this`lastErr
      ensures (err, State()) == Obtain(old(State()), w, startNew, total)
    {
      DropClosed();
      var i := 0;
      while i < |dls|
        invariant 0 <= i <= |dls| && FirstNear(dls, w.pos, 0) == FirstNear(dls, w.pos, i)
        invariant State() == old(State()).(dls := RemoveClosed(old(dls)))
      {
        if w.pos >= dls[i].start && w.pos < dls[i].offset + WINDOW {
          // close enough: it is told to go on at least to the end of w
          dls := dls[i := Extended(dls[i], w)];
          return None;
        }
        i := i + 1;
      }
      if !startNew || w.size == 0 {
        return None;
      }
      if w.pos < 0 || w.pos >= total {
        RecordError(0, Some(OtherError));
        return Some(OtherError);
      }
      dls := dls + [NewDl(w)];
      return None;
    }

    /** _ensureDownloader. */
    method EnsureDownloader(r: Range) returns (err: Option<Error>)
      modifies this`dls, this`errorCount, this`lastErr
      ensures (err, State()) == Ensure(old(State()), item.rs.list, item.size, total, readAhead, r)
    {
      var (w, startNew) := Wanted(item.rs.list, item.size, r, readAhead);
      err := ObtainDownloader(w, startNew);
    }

    /** Download, up to the point where it waits for its answer. */
    method Download(r: Range) returns (err: Option<Error>, id: nat)
      requires Valid()
      modifies this`dls, this`errorCount, this`lastErr, this`waiters, this`issued
      ensures Valid() && id == old(issued)
      ensures var (e, g) := Ensure(old(State()), item.rs.list, item.size, total, readAhead, r);
              err == e && State() == if e.Some? then g else g.(waiters := g.waiters + [Waiter(id, r)])
    {
      id := issued;
      err := EnsureDownloader(r);
      if err.Some? {
        return;
      }
      Issue(waiters, answers, issued, r);
      waiters := waiters + [Waiter(issued, r)];
      issued := issued + 1;
    }

    /** _closeWaiters: everyone gets the same answer. */
    method CloseWaiters(err: Option<Error>)
      requires Valid()
      modifies this`waiters, this`answers
      ensures Valid() && State() == old(State()).(waiters := [])
      ensures answers == old(answers) + Refused(old(waiters), err)
    {
      ghost var all := answers + Refused(waiters, err);
      RefuseConserves(waiters, answers, issued, err);
      for i := 0 to |waiters|
        invariant waiters == old(waiters) && all == answers + Refused(waiters[i..], err)
      {
        assert waiters[i..][1..] == waiters[i + 1..];
        Assoc(answers, [Answer(waiters[i].id, err)], Refused(waiters[i + 1..], err));
        answers := answers + [Answer(waiters[i].id, err)];
      }
      assert answers + [] == answers;
      waiters := [];
    }

    /** The loop of _dispatchWaiters. */
    method SendReady() returns (kept: seq<Waiter>)
      modifies this`answers
      ensures kept == Remaining(waiters, item.rs.list, total)
      ensures answers == old(answers) + Delivered(waiters, item.rs.list, total)
    {
      kept := [];
      ghost var was := answers;
      for i := 0 to |waiters|
        invariant kept == Remaining(waiters[..i], item.rs.list, total)
        invariant answers == was + Delivered(waiters[..i], item.rs.list, total)
      {
        assert waiters[..i + 1][..i] == waiters[..i];
        // what lies behind the source's end is never waited for
        var r := waiters[i].r.Clip(total);
        if item.HasRange(r) {
          Assoc(was, Delivered(waiters[..i], item.rs.list, total), [Answer(waiters[i].id, None)]);
          answers := answers + [Answer(waiters[i].id, None)];
        } else {
          kept := kept + [waiters[i]];
        }
      }
      assert waiters[..|waiters|] == waiters;
    }

    /** _dispatchWaiters: answers nil to exactly those whose bytes are present, in place. */
    method DispatchWaiters()
      requires Valid()
      modifies this`waiters, this`answers
      ensures Valid()
      ensures State() == old(State()).(waiters := Remaining(old(waiters), item.rs.list, total))
      ensures answers == old(answers) + Delivered(old(waiters), item.rs.list, total)
    {
      assert waiters + [] == waiters;
      DispatchConserves(waiters, [], answers, issued, item.rs.list, total);
      waiters := SendReady();
      assert waiters + [] == waiters;
    }

    /** The loop of kickWaiters: a download for each waiter; failures are left to the next kick. */
    method EnsureAll()
      modifies this`dls, this`errorCount, this`lastErr
      ensures State() == EnsureEach(old(State()), item.rs.list, item.size, total, readAhead, waiters)
    {
      for i := 0 to |waiters|
        invariant State() == EnsureEach(old(State()), item.rs.list, item.size, total, readAhead, waiters[..i])
      {
        assert waiters[..i + 1][..i] == waiters[..i];
        var _ := EnsureDownloader(waiters[i].r);
      }
      assert waiters[..|waiters|] == waiters;
    }

    /** kickWaiters. */
    method KickWaiters() returns (err: Option<Error>)
      requires Valid()
      modifies this`dls, this`errorCount, this`lastErr, this`waiters, this`answers
      ensures Valid()
      ensures var (sent, g) := Kick(old(State()), item.rs.list, item.size, total, readAhead);
              State() == g && answers == old(answers) + sent
      ensures err == if GivesUp(State()) && Remaining(old(waiters), item.rs.list, total) != [] then lastErr else None
    {
      DispatchWaiters();
      if |waiters| == 0 {
        return None;
      }
      EnsureAll();
      ghost var sent := Delivered(old(waiters), item.rs.list, total);
      err := GiveUp(old(answers), sent);
    }

    /** The end of kickWaiters: nobody is kept waiting after too many errors, or for space. */
    method GiveUp(ghost was: seq<Answer>, ghost sent: seq<Answer>) returns (err: Option<Error>)
      requires Valid() && answers == was + sent
      modifies this`waiters, this`answers
      ensures Valid()
      ensures var g := old(State());
              if g.lastErr == Some(NoSpace) || g.errorCount > MAX_ERROR_COUNT then
                State() == g.(waiters := []) && answers == was + (sent + Refused(g.waiters, g.lastErr))
              else State() == g && answers == was + sent
      ensures err == if GivesUp(old(State())) then lastErr else None
    {
      if lastErr == Some(NoSpace) || errorCount > MAX_ERROR_COUNT {
        Assoc(was, sent, Refused(waiters, lastErr));
        err := lastErr;
        CloseWaiters(lastErr);
        return;
      }
      return None;
    }

    /**
     downloader.Write for the i-th downloader, without the kick that follows.  At its maximum
     the downloader sleeps until a kick moves the maximum or it is stopped; `timedOut` says
     that it stopped itself.
     */
    method Write(i: nat, p: seq<byte>, timedOut: bool)
      returns (n: nat, skipped: nat, werr: Option<Error>, err: WriteError)
      requires item.Valid() && i < |dls| && !dls[i].done
      requires dls[i].offset < dls[i].maxOffset || dls[i].stop || timedOut
      modifies this`dls, item`fd, item`disk, item`writeLimits, item.rs
      ensures item.Valid() && Processed(old(item.State()), item.State(), p, old(dls[i]).offset, n)
      ensures skipped == PresentCount(old(item.rs.list), old(dls[i]).offset, n) && (werr == None <==> n == |p|)
      ensures var (e, d) := AfterWrite(Woken(old(dls[i]), timedOut), |p|, n, skipped, werr);
              err == e && dls == old(dls)[i := d]
      ensures old(dls[i].offset >= dls[i].maxOffset) && timedOut ==> dls[i].stop && dls[i].done
      ensures !timedOut && !old(dls[i].stop) ==> (dls[i].stop <==> dls[i].skipped > 1_048_576)
    {
      if dls[i].offset >= dls[i].maxOffset && timedOut {
        dls := dls[i := dls[i].(stop := true)];
      }
      n, skipped, werr := item.WriteAtNoOverwrite(p, dls[i].offset);
      err := Advance(i, |p|, n, skipped, werr);
    }

    /** What downloader.Write does with the outcome of WriteAtNoOverwrite. */
    method Advance(i: nat, len: nat, n: nat, skipped: nat, werr: Option<Error>) returns (err: WriteError)
      requires i < |dls|
      modifies this`dls
      ensures var (e, d) := AfterWrite(old(dls[i]), len, n, skipped, werr); err == e && dls == old(dls)[i := d]
    {
      var d := dls[i];
      d := d.(skipped := if skipped == n then d.skipped + skipped else 0,
              offset := d.offset + n, inPos := d.inPos + len);
      // running through what is there already is not worth a connection
      if !d.stop && d.skipped > MAX_SKIP_BYTES {
        d := d.(stop := true);
      }
      err := if werr.Some? then Failed(werr.value) else if d.stop then EndOfStream else Nothing;
      // the copy loop ends on an error or a short write
      dls := dls[i := d.(done := d.done || !err.Nothing? || n < len)];
    }
  }
}
