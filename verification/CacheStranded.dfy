/**
 What a removal does to readers when an open got in after it was decided: who keeps his
 range, who is still served, and who is stranded.

 The removal empties the presence set and takes the item for empty.  Until something restores
 its size, a queued reader gets no new download; he is let through only if one that is there
 already comes by.
 */
module CacheStranded {
  import opened CacheAgreement
  import opened CacheCore
  import opened CacheHarm
  import opened CacheItem
  import opened CacheMachine
  import opened CacheQueue
  import opened CacheService
  import opened DownloadGroup
  import opened PlainReader
  import opened Ranges
  import opened Wrappers

  // ---------- No download is started for an item taken for empty ----------

  /** Every download that still runs has passed `y`. */
  predicate Beyond(dls: seq<Dl>, y: int) { forall d :: d in dls ==> d.done || y < d.offset }

  lemma NothingMissing(rs: seq<Range>, r: Range)
    requires Canonical(rs) && 0 <= r.pos
    ensures Missing(rs, 0, r).IsEmpty() && 0 <= Missing(rs, 0, r).pos
  {
    MissingExact(rs, 0, r);
    var m := Missing(rs, 0, r);
    assert !m.IsEmpty() ==> m.Has(m.pos);
  }

  lemma EnsureStartsNone(g: Group, rs: seq<Range>, total: nat, readAhead: nat, r: Range, y: int)
    requires Canonical(rs) && 0 <= r.pos && Beyond(g.dls, y)
    ensures var (err, g') := Ensure(g, rs, 0, total, readAhead, r); err == None && Beyond(g'.dls, y)
  {
    NothingMissing(rs, AheadOf(r, readAhead));
    var m := Missing(rs, 0, AheadOf(r, readAhead));
    NothingMissing(rs, Range(m.pos, m.size + WINDOW));
    var dls := RemoveClosed(g.dls);
    assert Beyond(dls, y);
    var w := BehindWindow(rs, 0, m).0;
    var k := FirstNear(dls, w.pos, 0);
    assert k < |dls| ==> dls[k] in dls;
  }

  lemma {:induction false} EnsureEachStartsNone(g: Group, rs: seq<Range>, total: nat, readAhead: nat,
                                                waiters: seq<Waiter>, y: int)
    requires Canonical(rs) && (forall w :: w in waiters ==> 0 <= w.r.pos) && Beyond(g.dls, y)
    ensures Beyond(EnsureEach(g, rs, 0, total, readAhead, waiters).dls, y)
    decreases |waiters|
  {
    if waiters != [] {
      var n := |waiters| - 1;
      assert waiters[n] in waiters;
      EnsureEachStartsNone(g, rs, total, readAhead, waiters[..n], y);
      EnsureStartsNone(EnsureEach(g, rs, 0, total, readAhead, waiters[..n]), rs, total, readAhead, waiters[n].r, y);
    }
  }

  // ---------- Stranded readers ----------

  /** Byte `y` is absent, and nothing that runs can still write it. */
  ghost predicate OutOfReach(s: System, y: int) {
    !Covers(s.item.rs, y) && (s.item.fd.NoFd? || (Beyond(s.group.dls, y) && Beyond(s.strays, y)))
  }

  /** The thread is in its read, waiting or refused. */
  predicate InRead(p: Phase) { p.Waiting? || (p.Resumed? && !p.ok) }

  lemma StillOutOfReach(cfg: Config, s: System, step: Step, h: nat, y: int)
    requires Tracked(cfg, s) && Enabled(cfg, s, step) && s.item.size == 0 && OutOfReach(s, y)
    requires h in s.handles && InRead(s.handles[h])
    ensures OutOfReach(Apply(cfg, s, step), y)
  {
    Counted(s.item, s.handles, h);
    assert forall x :: !Covers([], x);
    if step.DlWrite? || step.StrayWrite? {
      WritesElsewhere(cfg, s, step, y);
    } else if step.ReadEnsure? {
      AsksInVain(cfg, s, step.h, y);
    } else if step.KickAll? {
      KicksInVain(cfg, s, y);
    } else if step.DlStop? || step.DlEnd? || step.StrayStop? {
      StopsInVain(cfg, s, step, y);
    } else if step.OpenRun? {
      OpensInVain(cfg, s, step, y);
    } else {
      RestInVain(cfg, s, step, y);
    }
  }

  lemma WritesElsewhere(cfg: Config, s: System, step: Step, y: int)
    requires HandleOk(s.item) && Tracks(|cfg.remote|, s) && OutOfReach(s, y)
    requires Enabled(cfg, s, step) && (step.DlWrite? || step.StrayWrite?)
    ensures OutOfReach(Apply(cfg, s, step), y)
  {
    var d := if step.DlWrite? then s.group.dls[step.i] else s.strays[step.i];
    assert DlOk(|cfg.remote|, d);
    WrittenIs(cfg, s.item, d, step.len, step.n);
    assert !s.item.fd.NoFd? ==> y < d.offset;
  }

  lemma AsksInVain(cfg: Config, s: System, h: nat, y: int)
    requires Tracks(|cfg.remote|, s) && h in s.handles && s.handles[h].Ensuring? && s.item.size == 0 && OutOfReach(s, y)
    ensures OutOfReach(ApplyEnsure(s, h, Asked(cfg, s, s.handles[h].r)), y)
  {
    assert Asking(s.handles[h]);
    if !s.item.fd.NoFd? {
      var g := if s.item.attached then s.group else NO_GROUP;
      EnsureStartsNone(g, s.item.rs, |cfg.remote|, cfg.readAhead, s.handles[h].r, y);
    }
  }

  lemma KicksInVain(cfg: Config, s: System, y: int)
    requires QueueOk(s.group.waiters, s.handles) && Tracks(|cfg.remote|, s)
    requires Enabled(cfg, s, KickAll) && s.item.size == 0
    requires OutOfReach(s, y)
    ensures OutOfReach(Apply(cfg, s, KickAll), y)
  {
    var g1 := s.group.(waiters := Remaining(s.group.waiters, s.item.rs, |cfg.remote|));
    forall w | w in g1.waiters ensures 0 <= w.r.pos {
      assert Asking(s.handles[w.id]);
    }
    if !s.item.fd.NoFd? {
      EnsureEachStartsNone(g1, s.item.rs, |cfg.remote|, cfg.readAhead, g1.waiters, y);
    }
  }

  lemma StopsInVain(cfg: Config, s: System, step: Step, y: int)
    requires OutOfReach(s, y)
    requires Enabled(cfg, s, step) && (step.DlStop? || step.DlEnd? || step.StrayStop?)
    ensures OutOfReach(Apply(cfg, s, step), y)
  {
    var d := if step.StrayStop? then s.strays[step.i] else s.group.dls[step.i];
    assert !s.item.fd.NoFd? ==> d.done || y < d.offset;
  }

  lemma OpensInVain(cfg: Config, s: System, step: Step, y: int)
    requires TidyOk(s.item, s.group) && s.item.opens > 0 && OutOfReach(s, y)
    requires Enabled(cfg, s, step) && step.OpenRun?
    ensures OutOfReach(Apply(cfg, s, step), y)
  {
    OpenCounts(s.item, |cfg.remote|, step.mkdir, step.check, step.create);
    OpenKeepsOrLoses(s.item, |cfg.remote|, step.mkdir, step.check, step.create);
    OpenedInVain(s, step.h, OpenBody(s.item, |cfg.remote|, step.mkdir, step.check, step.create), y);
  }

  lemma OpenedInVain(s: System, h: nat, outcome: (OpenStep, ItemState), y: int)
    requires s.item.opens > 0 && OutOfReach(s, y)
    requires OpenCounted(s.item, outcome.0, outcome.1) && KeptOrLost(s.item, outcome.1)
    ensures OutOfReach(ApplyOpen(s, h, outcome), y)
  {
    assert forall x :: !Covers([], x);
  }

  lemma RestInVain(cfg: Config, s: System, step: Step, y: int)
    requires Core(s) && s.item.opens > 0 && s.item.pending > 0 && OutOfReach(s, y)
    requires Enabled(cfg, s, step) && !step.DlWrite? && !step.StrayWrite? && !step.ReadEnsure? && !step.KickAll?
    requires !step.DlStop? && !step.DlEnd? && !step.StrayStop? && !step.OpenRun?
    ensures OutOfReach(Apply(cfg, s, step), y)
  {
    assert forall x :: !Covers([], x);
  }

  /** A refused thread stays where it is until it returns. */
  lemma RefusedStays(cfg: Config, s: System, step: Step, h: nat)
    requires Enabled(cfg, s, step) && h in s.handles && s.handles[h].Resumed? && !(step.ReadReturn? && step.h == h)
    ensures Stays(s.handles, Apply(cfg, s, step).handles, h)
  {
    if step.OpenRun? {
      var outcome := OpenBody(s.item, |cfg.remote|, step.mkdir, step.check, step.create);
      NotAnswered(s, outcome.1.(attached := outcome.1.attached && !outcome.0.Created?), h);
    } else if step.CloseRun? {
      NotAnswered(s, CloseBody(s.item, |cfg.remote|, cfg.handleCaching).1, h);
    } else if step.GraceFires? {
      NotAnswered(s, GraceBody(s.item, |cfg.remote|).1, h);
    } else if step.ResetStart? {
      NotAnswered(s, ResetBegin(s.item).2, h);
    } else if !step.KickAll? {
      BystanderStays(cfg, s, step, h);
    }
  }

  /** A thread in its read that wants a byte out of reach. */
  ghost predicate InVain(cfg: Config, s: System, h: nat, y: int) {
    && h in s.handles && InRead(s.handles[h]) && s.handles[h].r.Has(y) && y < |cfg.remote|
    && OutOfReach(s, y)
  }

  lemma StepInVain(cfg: Config, s: System, step: Step, h: nat, y: int)
    requires Tracked(cfg, s) && Enabled(cfg, s, step) && s.item.size == 0 && InVain(cfg, s, h, y)
    requires !(step.ReadReturn? && step.h == h)
    ensures InVain(cfg, Apply(cfg, s, step), h, y)
  {
    StillOutOfReach(cfg, s, step, h, y);
    if s.handles[h].Waiting? {
      WaiterStep(cfg, s, step, h);
      NotPresent(s.item.rs, s.handles[h].r.Clip(|cfg.remote|), y);
    } else {
      RefusedStays(cfg, s, step, h);
    }
  }

  lemma NotPresent(rs: seq<Range>, r: Range, y: int)
    requires Canonical(rs) && r.Has(y) && !Covers(rs, y)
    ensures !Present(rs, r)
  {
    PresentExact(rs, r);
  }

  /** The thread stays in its read, and the size stays lost. */
  ghost predicate Unrestored(cfg: Config, s: System, steps: seq<Step>, h: nat)
    requires Legal(cfg, s, steps)
    decreases |steps|
  {
    s.item.size == 0 &&
    (steps == [] ||
     (!(steps[0].ReadReturn? && steps[0].h == h) && Unrestored(cfg, Apply(cfg, s, steps[0]), steps[1..], h)))
  }

  lemma {:induction false} RunInVain(cfg: Config, s: System, steps: seq<Step>, h: nat, y: int)
    requires Tracked(cfg, s) && Legal(cfg, s, steps) && Unrestored(cfg, s, steps, h) && InVain(cfg, s, h, y)
    ensures InVain(cfg, Exec(cfg, s, steps), h, y)
    decreases |steps|
  {
    if steps != [] {
      StepInVain(cfg, s, steps[0], h, y);
      StepKeepsTracked(cfg, s, steps[0]);
      RunInVain(cfg, Apply(cfg, s, steps[0]), steps[1..], h, y);
    }
  }

  /** The first byte that is missing of what the thread waits for is out of reach. */
  ghost predicate Stranded(cfg: Config, s: System, r: Range) {
    var m := Ranges.FindMissing(s.item.rs, r.Clip(|cfg.remote|));
    !m.IsEmpty() && OutOfReach(s, m.pos)
  }

  /**
   From any state of any run in which the item is taken for empty: a waiting thread can still
   be let through without the size being restored if and only if it is not stranded.
   */
  lemma StrandedIff(cfg: Config, s: System, h: nat)
    requires Tracked(cfg, s) && s.item.size == 0 && h in s.handles && s.handles[h].Waiting?
    ensures Stranded(cfg, s, s.handles[h].r) <==>
              !exists steps :: Legal(cfg, s, steps) && Unrestored(cfg, s, steps, h) && ThroughAfter(cfg, s, steps, h)
  {
    var r := s.handles[h].r;
    if Stranded(cfg, s, r) {
      forall steps | Legal(cfg, s, steps) && Unrestored(cfg, s, steps, h) ensures !ThroughAfter(cfg, s, steps, h) {
        var m := Ranges.FindMissing(s.item.rs, r.Clip(|cfg.remote|));
        FindMissingExact(s.item.rs, r.Clip(|cfg.remote|));
        assert r.Clip(|cfg.remote|).Has(m.pos);
        RunInVain(cfg, s, steps, h, m.pos);
      }
    } else {
      var steps := Reached(cfg, s, h);
    }
  }

  ghost predicate ThroughAfter(cfg: Config, s: System, steps: seq<Step>, h: nat)
    requires Legal(cfg, s, steps)
  {
    var s' := Exec(cfg, s, steps);
    h in s'.handles && LetThrough(s'.handles[h])
  }

  lemma Reached(cfg: Config, s: System, h: nat) returns (steps: seq<Step>)
    requires Tracked(cfg, s) && s.item.size == 0 && h in s.handles && s.handles[h].Waiting?
    requires !Stranded(cfg, s, s.handles[h].r)
    ensures Legal(cfg, s, steps) && Unrestored(cfg, s, steps, h) && ThroughAfter(cfg, s, steps, h)
  {
    var clip := s.handles[h].r.Clip(|cfg.remote|);
    var m := Ranges.FindMissing(s.item.rs, clip);
    FindMissingExact(s.item.rs, clip);
    if m.IsEmpty() {
      PresentExact(s.item.rs, clip);
      steps := KickedThrough(cfg, s, h);
    } else if d :| d in s.group.dls && !d.done && d.offset <= m.pos {
      var i :| 0 <= i < |s.group.dls| && s.group.dls[i] == d;
      steps := AttachedArrives(cfg, s, h, i);
    } else {
      var d :| d in s.strays && !d.done && d.offset <= m.pos;
      var i :| 0 <= i < |s.strays| && s.strays[i] == d;
      steps := StrayArrives(cfg, s, h, i);
    }
  }

  /** The download can bring all that is missing of the range. */
  ghost predicate Brings(cfg: Config, s: System, r: Range, d: Dl) {
    var clip := r.Clip(|cfg.remote|);
    && !s.item.fd.NoFd? && !d.done && d.offset < clip.End()
    && forall x :: clip.Has(x) && x < d.offset ==> Covers(s.item.rs, x)
  }

  /** It stops, which lets it write once more, and that write may be of any length. */
  lemma AttachedArrives(cfg: Config, s: System, h: nat, i: nat) returns (steps: seq<Step>)
    requires Tracked(cfg, s) && s.item.size == 0 && h in s.handles && s.handles[h].Waiting?
    requires i < |s.group.dls| && Brings(cfg, s, s.handles[h].r, s.group.dls[i])
    ensures Legal(cfg, s, steps) && Unrestored(cfg, s, steps, h) && ThroughAfter(cfg, s, steps, h)
  {
    var w := QueuedAs(s.group.waiters, s.handles, h);
    var n := s.handles[h].r.Clip(|cfg.remote|).End() - s.group.dls[i].offset;
    assert DlOk(|cfg.remote|, s.group.dls[i]);
    StopKeeps(cfg, s, DlStop(i), h);
    var s' := Apply(cfg, s, DlStop(i));
    assert s'.group.dls[i] == s.group.dls[i].(stop := true);
    steps := WrittenThen(cfg, s', h, DlWrite(i, n, n));
    steps := First(cfg, s, DlStop(i), h, steps);
  }

  lemma StrayArrives(cfg: Config, s: System, h: nat, i: nat) returns (steps: seq<Step>)
    requires Tracked(cfg, s) && s.item.size == 0 && h in s.handles && s.handles[h].Waiting?
    requires i < |s.strays| && Brings(cfg, s, s.handles[h].r, s.strays[i])
    ensures Legal(cfg, s, steps) && Unrestored(cfg, s, steps, h) && ThroughAfter(cfg, s, steps, h)
  {
    var n := s.handles[h].r.Clip(|cfg.remote|).End() - s.strays[i].offset;
    assert DlOk(|cfg.remote|, s.strays[i]);
    StopKeeps(cfg, s, StrayStop(i), h);
    var s' := Apply(cfg, s, StrayStop(i));
    assert s'.strays[i] == s.strays[i].(stop := true);
    steps := WrittenThen(cfg, s', h, StrayWrite(i, n, n));
    steps := First(cfg, s, StrayStop(i), h, steps);
  }

  lemma StopKeeps(cfg: Config, s: System, step: Step, h: nat)
    requires Tracked(cfg, s) && Enabled(cfg, s, step) && (step.DlStop? || step.StrayStop?)
    requires h in s.handles && s.handles[h].Waiting?
    ensures var s' := Apply(cfg, s, step); Tracked(cfg, s') && s'.item == s.item && Stays(s.handles, s'.handles, h)
  {
    StepKeepsTracked(cfg, s, step);
  }

  /** A write that reaches to the end of what the thread waits for, and a kick. */
  lemma WrittenThen(cfg: Config, s: System, h: nat, step: Step) returns (steps: seq<Step>)
    requires Tracked(cfg, s) && s.item.size == 0 && h in s.handles && s.handles[h].Waiting?
    requires (step.DlWrite? || step.StrayWrite?) && Enabled(cfg, s, step) && !s.item.fd.NoFd?
    requires var d := if step.DlWrite? then s.group.dls[step.i] else s.strays[step.i];
             var clip := s.handles[h].r.Clip(|cfg.remote|);
             d.offset + step.n == clip.End() && forall x :: clip.Has(x) && x < d.offset ==> Covers(s.item.rs, x)
    ensures Legal(cfg, s, steps) && Unrestored(cfg, s, steps, h) && ThroughAfter(cfg, s, steps, h)
  {
    var d := if step.DlWrite? then s.group.dls[step.i] else s.strays[step.i];
    var s' := Apply(cfg, s, step);
    assert DlOk(|cfg.remote|, d);
    WrittenIs(cfg, s.item, d, step.len, step.n);
    PresentExact(s'.item.rs, s.handles[h].r.Clip(|cfg.remote|));
    StepKeepsCore(cfg, s, step);
    steps := KickedThrough(cfg, s', h);
    steps := First(cfg, s, step, h, steps);
  }

  lemma KickedThrough(cfg: Config, s: System, h: nat) returns (steps: seq<Step>)
    requires Core(s) && s.item.size == 0 && h in s.handles && s.handles[h].Waiting?
    requires Present(s.item.rs, s.handles[h].r.Clip(|cfg.remote|))
    ensures Legal(cfg, s, steps) && Unrestored(cfg, s, steps, h) && ThroughAfter(cfg, s, steps, h)
  {
    var w := QueuedAs(s.group.waiters, s.handles, h);
    WaiterStep(cfg, s, KickAll, h);
    steps := First(cfg, s, KickAll, h, []);
  }

  lemma First(cfg: Config, s: System, step: Step, h: nat, rest: seq<Step>) returns (steps: seq<Step>)
    requires Enabled(cfg, s, step) && s.item.size == 0 && !step.ReadReturn?
    requires var s' := Apply(cfg, s, step);
             Legal(cfg, s', rest) && Unrestored(cfg, s', rest, h) && ThroughAfter(cfg, s', rest, h)
    ensures Legal(cfg, s, steps) && Unrestored(cfg, s, steps, h) && ThroughAfter(cfg, s, steps, h)
  {
    steps := [step] + rest;
    assert steps[1..] == rest;
  }

  // ---------- The removal ----------

  /**
   A removal under open handles leaves a reader served exactly when a download leads over the
   whole of his range with its read-ahead, present before or not, from its start on.
   */
  lemma RemovalServesIff(cfg: Config, s: System, h: nat)
    requires s.removal.Decided? && h in s.handles && s.handles[h].Waiting?
    ensures var whole := AheadOf(s.handles[h].r, cfg.readAhead).Clip(|cfg.remote|);
            ServedIn(cfg, Apply(cfg, s, RemoveDone), s.handles[h].r) <==>
              whole.IsEmpty() || UnderWay(s.group.dls, whole)
  {
    EmptyServes(s.group.dls, |cfg.remote|, cfg.readAhead, s.handles[h].r);
    assert Apply(cfg, s, RemoveDone) == ApplyRemoval(s);
  }

  lemma EmptyServes(dls: seq<Dl>, total: nat, readAhead: nat, r: Range)
    ensures var whole := AheadOf(r, readAhead).Clip(total);
            Served(dls, [], total, readAhead, r) <==> whole.IsEmpty() || UnderWay(dls, whole)
  {
    AllMissing(AheadOf(r, readAhead));
  }

  lemma AllMissing(r: Range)
    ensures Ranges.FindMissing([], r) == r
  {
  }

  /**
   And it strands him exactly when every running download has passed the start of his range, or the
   handle is gone.
   */
  lemma RemovalStrandsIff(cfg: Config, s: System, h: nat)
    requires s.removal.Decided? && h in s.handles && s.handles[h].Waiting?
    ensures var clip := s.handles[h].r.Clip(|cfg.remote|);
            Stranded(cfg, Apply(cfg, s, RemoveDone), s.handles[h].r) <==>
              !clip.IsEmpty() && (s.item.fd.NoFd? || (Beyond(s.group.dls, clip.pos) && Beyond(s.strays, clip.pos)))
  {
    assert forall x :: !Covers([], x);
    AllMissing(s.handles[h].r.Clip(|cfg.remote|));
  }

  /** The range of a resumed reader, present until then, is present behind the removal exactly when it is empty. */
  lemma RangeKeptIff(cfg: Config, s: System, h: nat)
    requires Full(cfg, s) && s.removal.Decided? && h in s.handles && LetThrough(s.handles[h])
    ensures var r := s.handles[h].r;
            Present(s.item.rs, r) && (Present(Apply(cfg, s, RemoveDone).item.rs, r) <==> r.IsEmpty())
  {
    var r := s.handles[h].r;
    assert PhaseOk(|cfg.remote|, s.item, s.handles[h]);
    PresentExact(s.item.rs, r);
    assert forall x :: r.Has(x) <==> r.pos <= x < r.End();
  }

  /** What he reads then is right all the same, or the read fails. */
  lemma ResumedReadsRight(cfg: Config, s: System, h: nat, check: CheckFault)
    requires Sound(cfg, s) && s.removal.Decided? && h in s.handles && LetThrough(s.handles[h])
    requires !LeavesShort(cfg.remote, RemoveFiles(s.item), check)
    ensures var s' := Apply(cfg, Apply(cfg, s, RemoveDone), ReadReturn(h, check)); LogOk(cfg.remote, s'.log)
  {
    var p, s1 := s.handles[h], ApplyRemoval(s);
    assert ReaderOk(cfg.remote, s.item, p);
    RemovedReadsRight(cfg.remote, s.item, p.off, p.len, check);
    LoggedRight(cfg.remote, s1, h, ReadFinish(s1.item, |cfg.remote|, p.off, p.len, check));
  }

  lemma LoggedRight(remote: seq<byte>, s: System, h: nat, outcome: (Option<seq<byte>>, ItemState))
    requires LogOk(remote, s.log) && h in s.handles && LetThrough(s.handles[h])
    requires outcome.0.Some? ==> outcome.0.value == Slice(remote, s.handles[h].off, s.handles[h].len)
    ensures LogOk(remote, ApplyReturn(s, h, outcome).log)
  {
  }

  lemma RemovedReadsRight(remote: seq<byte>, it: ItemState, off: nat, len: nat, check: CheckFault)
    requires DataOk(remote, it) && !it.dirty && (it.fd.NoFd? || SpanGood(remote, it, off, len))
    requires !LeavesShort(remote, RemoveFiles(it), check)
    ensures var data := ReadFinish(RemoveFiles(it), |remote|, off, len, check).0;
            data.Some? ==> data.value == Slice(remote, off, len)
  {
    var it0 := RemoveFiles(it);
    assert forall x :: !Covers([], x);
    assert forall x :: Good(remote, it, x) && !it.fd.NoFd? ==> Good(remote, it0, x);
    if |remote| != 0 {
      TruncateSound(remote, it0, |remote|, check);
    }
    var (data, it') := ReadFinish(it0, |remote|, off, len, check);
    if data.Some? {
      SliceGood(remote, it', off, len);
    }
  }

  /**
   Whoever is neither served nor stranded may still be helped by chance: while the item is
   taken for empty a request, whatever it is for, extends a download near byte WINDOW.
   */
  lemma LostSizeMayServe()
    ensures var dls, r := [Dl(10, 10, 20, 10, 0, false, false, false)], Range(100, 10);
            && !Served(dls, [], 1000, 0, r)
            && Served(Ensure(Group(dls, [], 0, None), [], 0, 1000, 0, r).1.dls, [], 1000, 0, r)
  {
    var d, r := Dl(10, 10, 20, 10, 0, false, false, false), Range(100, 10);
    WantedAtZero(r);
    ObtainExtends(d, Range(WINDOW, 0), 1000);
    EmptyServes([d], 1000, 0, r);
    EmptyServes([Extended(d, Range(WINDOW, 0))], 1000, 0, r);
    assert Serves([Extended(d, Range(WINDOW, 0))][0], r);
  }

  lemma WantedAtZero(r: Range)
    requires 0 <= r.pos && 0 < r.size
    ensures Wanted([], 0, r, 0) == (Range(WINDOW, 0), false)
  {
    MissingAtZero(AheadOf(r, 0));
    MissingAtZero(Range(0, WINDOW));
  }

  lemma MissingAtZero(r: Range)
    requires 0 <= r.pos && 0 < r.size
    ensures Missing([], 0, r) == Range(0, 0)
  {
    AllMissing(r);
  }

  lemma ObtainExtends(d: Dl, w: Range, total: nat)
    requires !d.closed && Near(d, w.pos)
    ensures Obtain(Group([d], [], 0, None), w, false, total).1.dls == [Extended(d, w)]
  {
    assert [d][..0] == [] && RemoveClosed([d]) == [d];
    assert FirstNear([d], w.pos, 0) == 0;
  }

  // ---------- Runs with two handles ----------

  lemma {:induction false} Append(cfg: Config, s: System, a: seq<Step>, b: seq<Step>)
    requires Legal(cfg, s, a) && Legal(cfg, Exec(cfg, s, a), b)
    ensures Legal(cfg, s, a + b) && Exec(cfg, s, a + b) == Exec(cfg, Exec(cfg, s, a), b)
    decreases |a|
  {
    if a == [] {
      assert a + b == b;
    } else {
      Append(cfg, Apply(cfg, s, a[0]), a[1..], b);
      assert (a + b)[1..] == a[1..] + b;
    }
  }

  lemma JoinExisting(it: ItemState, total: nat)
    requires it.fd.OnPath? && it.disk.Some? && it.opens > 0
    ensures OpenBody(it, total, None, Fine, None) == (Joined, it.(size := |it.disk.value|, opens := it.opens + 1))
  {
    var d := it.disk.value;
    assert Resize(d, |d|) == d;
  }

  /** The item opened twice after its removal was decided. */
  function OpenedTwice(s: System, h: nat, k: nat): System
    requires s.item.disk.Some?
  {
    s.(item := s.item.(size := |s.item.disk.value|, opens := 2, pending := 1, fd := OnPath, attached := true),
       handles := map[h := Leaving(true), k := Idle], removal := Decided(false, true))
  }

  function TwoOpens(h: nat, k: nat): seq<Step> {
    [OpenEnter(h), OpenEnter(k), Evict(true, false),
     OpenRun(h, None, Fine, None), OpenRun(k, None, Fine, None), Leave(k)]
  }

  /**
   The first handle is held up putting the item back into the map, which the cleaner has
   locked; the second one joins in.
   */
  lemma TwoOpened(cfg: Config, s: System, h: nat, k: nat)
    requires AtRest(s) && s.inCache && s.item.disk.Some? && h != k
    ensures Legal(cfg, s, TwoOpens(h, k)) && Exec(cfg, s, TwoOpens(h, k)) == OpenedTwice(s, h, k)
  {
    var s1 := SetPhase(s, h, Opening).(item := s.item.(pending := 1));
    var s2 := SetPhase(s1, k, Opening).(item := s.item.(pending := 2));
    var steps := DecidesThenOpens(cfg, s2, h, k);
    assert OpenedTwice(s2, h, k) == OpenedTwice(s, h, k);
    steps := Prepend(cfg, s1, OpenEnter(k), s2, steps);
    steps := Prepend(cfg, s, OpenEnter(h), s1, steps);
    assert steps == TwoOpens(h, k);
  }

  lemma DecidesThenOpens(cfg: Config, s: System, h: nat, k: nat) returns (steps: seq<Step>)
    requires s.handles == map[h := Opening, k := Opening] && h != k && s.inCache && CleanerFree(s)
    requires var it := s.item;
             it.fd.NoFd? && it.disk.Some? && it.opens == 0 && it.pending == 2 && !it.grace && !it.dirty && !it.attached
    ensures steps == TwoOpens(h, k)[2..]
    ensures Legal(cfg, s, steps) && Exec(cfg, s, steps) == OpenedTwice(s, h, k)
  {
    var s1 := s.(removal := Decided(false, false));
    steps := OpensBoth(cfg, s1, h, k);
    assert OpenedTwice(s1, h, k) == OpenedTwice(s, h, k);
    steps := Prepend(cfg, s, Evict(true, false), s1, steps);
  }

  lemma OpensBoth(cfg: Config, s: System, h: nat, k: nat) returns (steps: seq<Step>)
    requires s.handles == map[h := Opening, k := Opening] && h != k && s.inCache && s.removal == Decided(false, false)
    requires var it := s.item;
             it.fd.NoFd? && it.disk.Some? && it.opens == 0 && it.pending == 2 && !it.grace && !it.dirty && !it.attached
    ensures steps == [OpenRun(h, None, Fine, None), OpenRun(k, None, Fine, None), Leave(k)]
    ensures Legal(cfg, s, steps) && Exec(cfg, s, steps) == OpenedTwice(s, h, k)
  {
    OpenExisting(s.item, |cfg.remote|);
    var s1 := ApplyOpen(s, h, OpenBody(s.item, |cfg.remote|, None, Fine, None));
    steps := JoinsThenLeaves(cfg, s1, h, k);
    steps := Prepend(cfg, s, OpenRun(h, None, Fine, None), s1, steps);
  }

  lemma JoinsThenLeaves(cfg: Config, s: System, h: nat, k: nat) returns (steps: seq<Step>)
    requires s.handles == map[h := Leaving(true), k := Opening] && h != k && s.inCache
    requires s.removal == Decided(false, true)
    requires s.item.fd.OnPath? && s.item.disk.Some? && s.item.opens == 1 && s.item.pending == 2 && s.item.attached
    ensures steps == [OpenRun(k, None, Fine, None), Leave(k)]
    ensures Legal(cfg, s, steps) && Exec(cfg, s, steps) == OpenedTwice(s, h, k)
  {
    JoinExisting(s.item, |cfg.remote|);
    var s1 := ApplyOpen(s, k, OpenBody(s.item, |cfg.remote|, None, Fine, None));
    var s2 := Apply(cfg, s1, Leave(k));
    assert s2.handles == map[h := Leaving(true), k := Idle];
    steps := Prepend(cfg, s1, Leave(k), s2, []);
    steps := Prepend(cfg, s, OpenRun(k, None, Fine, None), s1, steps);
  }

  lemma SizeKnown(cfg: Config, s: System, k: nat)
    requires k in s.handles && s.handles[k].Idle? && s.item.fd.OnPath? && s.item.disk.Some?
    requires s.item.size == |s.item.disk.value|
    ensures Enabled(cfg, s, GetSize(k)) && Apply(cfg, s, GetSize(k)) == s
  {
  }

  /**
   As `OpenInGapReadsWrong`, where each handle asks for the size right after its open: the
   second handle has done so before the removal, and the first has not yet.
   */
  lemma SecondHandleReadsWrong(cfg: Config, s: System, h: nat, k: nat, x: nat) returns (rest: seq<Step>)
    requires Start(cfg, s) && s.inCache && s.item.disk.Some? && h != k
    requires x < |cfg.remote| && !Good(cfg.remote, s.item, x)
    ensures var steps := TwoOpens(h, k) + ([GetSize(k), RemoveDone] + rest);
            Legal(cfg, s, steps) && !LogOk(cfg.remote, Exec(cfg, s, steps).log)
  {
    TwoOpened(cfg, s, h, k);
    var s1 := OpenedTwice(s, h, k);
    rest := RemovedReadsWrong(cfg, s1, k, x);
    var steps := Prepend(cfg, s1, RemoveDone, ApplyRemoval(s1), rest);
    SizeKnown(cfg, s1, k);
    steps := Prepend(cfg, s1, GetSize(k), s1, steps);
    assert steps == [GetSize(k), RemoveDone] + rest;
    Append(cfg, s, TwoOpens(h, k), steps);
  }

  /** A reader asks for one byte. */
  lemma Looks(cfg: Config, s: System, k: nat, x: nat) returns (s': System)
    requires k in s.handles && s.handles[k].Idle? && !s.item.beingReset && !s.item.fd.NoFd? && x < s.item.size
    ensures Legal(cfg, s, [ReadEnter(k, x, 1), ReadLook(k)]) && Exec(cfg, s, [ReadEnter(k, x, 1), ReadLook(k)]) == s'
    ensures s' == s.(item := s.item.(pending := s.item.pending + 1),
                     handles := s.handles[k := Ensuring(x, 1, Range(x, 1), Present(s.item.rs, Range(x, 1)))])
  {
    var s1 := Apply(cfg, s, ReadEnter(k, x, 1));
    s' := Apply(cfg, s1, ReadLook(k));
    var steps := Prepend(cfg, s1, ReadLook(k), s', []);
    steps := Prepend(cfg, s, ReadEnter(k, x, 1), s1, steps);
  }

  /** A reader who was told that his range is present finds it absent when he reads. */
  lemma RemovalTakesRange(cfg: Config, s: System, h: nat, k: nat, x: nat)
    requires Fresh(cfg, s) && s.inCache && s.item.disk.Some? && h != k && Covers(s.item.rs, x)
    ensures var steps := TwoOpens(h, k) + ([ReadEnter(k, x, 1), ReadLook(k)] + [ReadEnsure(k), RemoveDone]);
            && Legal(cfg, s, steps)
            && var s' := Exec(cfg, s, steps);
               && k in s'.handles && s'.handles[k] == Resumed(x, 1, Range(x, 1), true)
               && !Present(s'.item.rs, Range(x, 1))
  {
    TwoOpened(cfg, s, h, k);
    var s1 := OpenedTwice(s, h, k);
    PresentExact(s.item.rs, Range(x, 1));
    var s2 := Looks(cfg, s1, k, x);
    EnsuresThenLoses(cfg, s2, k, Range(x, 1));
    Append(cfg, s1, [ReadEnter(k, x, 1), ReadLook(k)], [ReadEnsure(k), RemoveDone]);
    Append(cfg, s, TwoOpens(h, k), [ReadEnter(k, x, 1), ReadLook(k)] + [ReadEnsure(k), RemoveDone]);
  }

  lemma EnsuresThenLoses(cfg: Config, s: System, k: nat, r: Range)
    requires s.removal.Decided? && k in s.handles && s.handles[k].Ensuring?
    requires s.handles[k].present && s.handles[k].r == r
    requires s.item.attached && s.group == NO_GROUP && Canonical(s.item.rs) && s.item.size == |cfg.remote|
    requires 0 <= r.pos && 0 < r.size
    ensures var steps, p := [ReadEnsure(k), RemoveDone], s.handles[k];
            && Legal(cfg, s, steps)
            && var s' := Exec(cfg, s, steps);
               k in s'.handles && s'.handles[k] == Resumed(p.off, p.len, r, true) && !Present(s'.item.rs, r)
  {
    EnsureKeepsCovered(NO_GROUP, s.item.rs, |cfg.remote|, cfg.readAhead, r);
    var s1 := ApplyEnsure(s, k, Asked(cfg, s, r));
    var steps := Prepend(cfg, s1, RemoveDone, ApplyRemoval(s1), []);
    steps := Prepend(cfg, s, ReadEnsure(k), s1, steps);
    assert Find([], r).present == false;
  }

  /**
   A reader who queued up, whose download has ended, is left waiting with no download, and a
   kick starts none: the item is taken for empty.
   */
  lemma RemovalStrands(cfg: Config, s: System, h: nat, k: nat, x: nat)
    requires Fresh(cfg, s) && s.inCache && s.item.disk.Some? && h != k && x < |cfg.remote| && !Covers(s.item.rs, x)
    ensures var steps := TwoOpens(h, k) + ([ReadEnter(k, x, 1), ReadLook(k)]
                                           + [ReadEnsure(k), DlEnd(0, 0, None), RemoveDone, KickAll]);
            && Legal(cfg, s, steps)
            && var s' := Exec(cfg, s, steps);
               && k in s'.handles && s'.handles[k] == Waiting(x, 1, Range(x, 1)) && Stranded(cfg, s', Range(x, 1))
               && s'.item.attached && s'.item.size == 0 && s'.group.dls == [] && s'.strays == []
  {
    TwoOpened(cfg, s, h, k);
    var s1 := OpenedTwice(s, h, k);
    PresentExact(s.item.rs, Range(x, 1));
    assert Range(x, 1).Has(x);
    var s2 := Looks(cfg, s1, k, x);
    QueuesThenLoses(cfg, s2, k, x);
    Append(cfg, s1, [ReadEnter(k, x, 1), ReadLook(k)], [ReadEnsure(k), DlEnd(0, 0, None), RemoveDone, KickAll]);
    Append(cfg, s, TwoOpens(h, k),
           [ReadEnter(k, x, 1), ReadLook(k)] + [ReadEnsure(k), DlEnd(0, 0, None), RemoveDone, KickAll]);
  }

  lemma QueuesThenLoses(cfg: Config, s: System, k: nat, x: nat)
    requires s.removal.Decided? && k in s.handles && s.handles[k] == Ensuring(x, 1, Range(x, 1), false)
    requires s.item.attached && s.group == NO_GROUP && s.strays == []
    requires Canonical(s.item.rs) && s.item.size == |cfg.remote| && x < |cfg.remote| && !Covers(s.item.rs, x)
    ensures var steps := [ReadEnsure(k), DlEnd(0, 0, None), RemoveDone, KickAll];
            && Legal(cfg, s, steps)
            && var s' := Exec(cfg, s, steps);
               && k in s'.handles && s'.handles[k] == Waiting(x, 1, Range(x, 1)) && Stranded(cfg, s', Range(x, 1))
               && s'.item.attached && s'.item.size == 0 && s'.group.dls == [] && s'.strays == []
  {
    var d := AsksFirst(cfg, s, x);
    var s1 := JoinsQueue(s, k, x, Asked(cfg, s, Range(x, 1)));
    var steps := EndsThenLoses(cfg, s1, k, x, d);
    steps := Prepend(cfg, s, ReadEnsure(k), s1, steps);
  }

  lemma AsksFirst(cfg: Config, s: System, x: nat) returns (d: Dl)
    requires s.item.attached && s.group == NO_GROUP
    requires Canonical(s.item.rs) && s.item.size == |cfg.remote| && x < |cfg.remote| && !Covers(s.item.rs, x)
    ensures Asked(cfg, s, Range(x, 1)) == (None, Group([d], [], 0, None)) && !d.closed && !d.done
  {
    d := StartsOne(s.item.rs, |cfg.remote|, cfg.readAhead, x);
  }

  lemma JoinsQueue(s: System, k: nat, x: nat, asked: (Option<Error>, Group)) returns (s': System)
    requires k in s.handles && s.handles[k] == Ensuring(x, 1, Range(x, 1), false) && s.item.attached
    requires asked.0 == None && asked.1.waiters == []
    ensures s' == ApplyEnsure(s, k, asked)
    ensures s' == s.(group := asked.1.(waiters := [Waiter(k, Range(x, 1))]),
                     handles := s.handles[k := Waiting(x, 1, Range(x, 1))])
  {
    s' := ApplyEnsure(s, k, asked);
  }

  lemma EndsThenLoses(cfg: Config, s: System, k: nat, x: nat, d: Dl) returns (steps: seq<Step>)
    requires s.removal.Decided? && k in s.handles && s.handles[k] == Waiting(x, 1, Range(x, 1)) && x < |cfg.remote|
    requires s.item.attached && s.group == Group([d], [Waiter(k, Range(x, 1))], 0, None) && !d.closed && s.strays == []
    ensures steps == [DlEnd(0, 0, None), RemoveDone, KickAll] && Legal(cfg, s, steps)
    ensures var s' := Exec(cfg, s, steps);
            && k in s'.handles && s'.handles[k] == Waiting(x, 1, Range(x, 1)) && Stranded(cfg, s', Range(x, 1))
            && s'.item.attached && s'.item.size == 0 && s'.group.dls == [] && s'.strays == []
  {
    var e := d.(closed := true, done := true);
    var s1 := s.(group := s.group.(dls := [e]));
    steps := LosesThenKicks(cfg, s1, k, x, e);
    steps := Prepend(cfg, s, DlEnd(0, 0, None), s1, steps);
  }

  lemma LosesThenKicks(cfg: Config, s: System, k: nat, x: nat, d: Dl) returns (steps: seq<Step>)
    requires s.removal.Decided? && k in s.handles && s.handles[k] == Waiting(x, 1, Range(x, 1)) && x < |cfg.remote|
    requires s.item.attached && s.group == Group([d], [Waiter(k, Range(x, 1))], 0, None) && d.closed && s.strays == []
    ensures steps == [RemoveDone, KickAll] && Legal(cfg, s, steps)
    ensures var s' := Exec(cfg, s, steps);
            && k in s'.handles && s'.handles[k] == Waiting(x, 1, Range(x, 1)) && Stranded(cfg, s', Range(x, 1))
            && s'.item.attached && s'.item.size == 0 && s'.group.dls == [] && s'.strays == []
  {
    var s1 := ApplyRemoval(s);
    KickStartsNone(d, Waiter(k, Range(x, 1)), |cfg.remote|, cfg.readAhead);
    DeliverNothing(s1.handles);
    var s2 := s1.(group := s1.group.(dls := []));
    NoneLeft(cfg, s2, Range(x, 1));
    steps := Prepend(cfg, s1, KickAll, s2, []);
    steps := Prepend(cfg, s, RemoveDone, s1, steps);
  }

  /** Nothing is present, and nothing runs. */
  lemma NoneLeft(cfg: Config, s: System, r: Range)
    requires s.item.rs == [] && s.group.dls == [] && s.strays == [] && 0 <= r.pos < r.End() <= |cfg.remote|
    ensures Stranded(cfg, s, r)
  {
    AllMissing(r);
    assert forall y :: !Covers([], y);
  }

  /**
   Asking for the size ends all that: it is the file's again, and the next kick starts
   downloads for whoever is still queued.
   */
  lemma SizeServesAgain(cfg: Config, s: System, h: nat)
    requires Tracked(cfg, s) && h in s.handles && s.handles[h].Idle? && s.item.attached && s.group.dls == []
    requires Contents(s.item).Some? && |Contents(s.item).value| == |cfg.remote|
    ensures Legal(cfg, s, [GetSize(h), KickAll])
    ensures var s' := Exec(cfg, s, [GetSize(h), KickAll]);
            s'.item.size == |cfg.remote| && forall w :: w in s'.group.waiters ==> ServedIn(cfg, s', w.r)
  {
    var s1 := s.(item := s.item.(size := |cfg.remote|));
    KickServesQueue(cfg, s1);
    var steps := Prepend(cfg, s1, KickAll, Apply(cfg, s1, KickAll), []);
    steps := Prepend(cfg, s, GetSize(h), s1, steps);
    assert steps == [GetSize(h), KickAll];
  }

  lemma KickServesQueue(cfg: Config, s: System)
    requires Tracked(cfg, s) && s.item.attached && s.group.dls == [] && s.item.size == |cfg.remote|
    ensures var s' := Apply(cfg, s, KickAll);
            s'.item == s.item && forall w :: w in s'.group.waiters ==> ServedIn(cfg, s', w.r)
  {
    forall w | w in s.group.waiters ensures 0 <= w.r.pos {
      assert Asking(s.handles[w.id]);
    }
    var kicked := Kick(s.group, s.item.rs, |cfg.remote|, |cfg.remote|, cfg.readAhead);
    assert Apply(cfg, s, KickAll) == ApplyKick(s, kicked);
    KickServes(s.group, s.item.rs, |cfg.remote|, cfg.readAhead);
  }

  /** The first download, for a byte that is missing. */
  lemma StartsOne(rs: seq<Range>, total: nat, readAhead: nat, x: nat) returns (d: Dl)
    requires Canonical(rs) && x < total && !Covers(rs, x)
    ensures Ensure(NO_GROUP, rs, total, total, readAhead, Range(x, 1)) == (None, Group([d], [], 0, None))
    ensures !d.closed && !d.done
  {
    var r := AheadOf(Range(x, 1), readAhead);
    var m := Missing(rs, total, r);
    MissingExact(rs, total, r);
    assert r.Has(x);
    d := NewDl(m);
    ObtainFirst(m, total);
  }

  lemma ObtainFirst(w: Range, total: nat)
    requires 0 < w.size && 0 <= w.pos < total
    ensures Obtain(NO_GROUP, w, true, total) == (None, Group([NewDl(w)], [], 0, None))
  {
    assert [] + [NewDl(w)] == [NewDl(w)];
  }

  lemma KickStartsNone(d: Dl, w: Waiter, total: nat, readAhead: nat)
    requires d.closed && w.r.size == 1 && 0 <= w.r.pos < total
    ensures Kick(Group([d], [w], 0, None), [], 0, total, readAhead) == ([], Group([], [w], 0, None))
  {
    var g := Group([d], [w], 0, None);
    NotReady(w, total);
    assert [w][..0] == [];
    assert Remaining([w], [], total) == [] + [w];
    assert Delivered([], [], total) + [] == [] && Delivered([w], [], total) == [];
    assert EnsureEach(g, [], 0, total, readAhead, []) == g;
    ClosedOnly(d, [w], [], total, readAhead, w.r);
  }

  lemma NotReady(w: Waiter, total: nat)
    requires w.r.size == 1 && 0 <= w.r.pos < total
    ensures !Ready(w, [], total)
  {
    assert w.r.Clip(total) == w.r;
  }

  lemma ClosedOnly(d: Dl, waiters: seq<Waiter>, rs: seq<Range>, total: nat, readAhead: nat, r: Range)
    requires d.closed && Canonical(rs) && 0 <= r.pos
    ensures Ensure(Group([d], waiters, 0, None), rs, 0, total, readAhead, r).1 == Group([], waiters, 0, None)
  {
    var m := Missing(rs, 0, AheadOf(r, readAhead));
    NothingMissing(rs, AheadOf(r, readAhead));
    NothingMissing(rs, Range(m.pos, m.size + WINDOW));
    assert [d][..0] == [] && RemoveClosed([d]) == [];
  }
}
