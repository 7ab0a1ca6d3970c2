/**
 Readers are served.

 A run is steady when no removal finds the item open that it was decided for unopened, no
 open gets in while a failed one is being undone, and no file stays behind unsized.  In
 steady runs a resumed reader finds its range present until it has read it, every waiting
 reader has a download under way for all that it misses, and what that download passes stays.
 */
module CacheService {
  import opened CacheAgreement
  import opened CacheCore
  import opened CacheItem
  import opened CacheMachine
  import opened CacheQueue
  import opened DownloadGroup
  import opened PlainReader
  import opened Ranges
  import opened Wrappers

  // ---------- Steady runs ----------

  ghost predicate SomeUndoing(handles: map<nat, Phase>) { exists h :: h in handles && handles[h].Undoing? }

  /** Does an open, or a removal, get in where nobody is expected? */
  ghost predicate Disturbs(cfg: Config, s: System, step: Step) {
    match step
    case RemoveDone => s.item.opens > 0 || s.item.grace
    case OpenRun(_, mkdir, check, create) =>
      SomeUndoing(s.handles) && !OpenBody(s.item, |cfg.remote|, mkdir, check, create).0.NotOpened?
    case _ => false
  }

  /** A file is created but cannot be sized. */
  predicate Unsized(step: Step) {
    match step
    case OpenRun(_, _, check, _) => check.CannotTruncate?
    case ResetStop(_, check, _) => check.CannotTruncate?
    case _ => false
  }

  ghost predicate Steady(cfg: Config, s: System, steps: seq<Step>)
    requires Legal(cfg, s, steps)
    decreases |steps|
  {
    steps == [] ||
    (!Disturbs(cfg, s, steps[0]) && !Unsized(steps[0]) && Steady(cfg, Apply(cfg, s, steps[0]), steps[1..]))
  }

  // ---------- The invariant ----------

  /** The file has the remote's length. */
  ghost predicate SizedOk(total: nat, it: ItemState) {
    && Canonical(it.rs) && HandleOk(it) && (it.fd.Unlinked? ==> it.disk.None?)
    && (forall x :: Covers(it.rs, x) ==> 0 <= x < total)
    && (Contents(it).Some? ==> |Contents(it).value| == total)
  }

  /** What the counters tell about the file handle and the downloaders; an open being undone does not count. */
  ghost predicate LifeOk(total: nat, it: ItemState, undoing: bool) {
    var opens := if undoing then 0 else it.opens;
    && (undoing ==> it.opens == 1)
    && (opens > 0 || it.grace ==> !it.fd.Unlinked?)
    && (opens > 0 && !it.fd.NoFd? ==> it.size == total)
    && (opens == 0 && !it.grace ==> !it.attached)
    && (it.attached ==> it.disk.Some?)
  }

  /** A thread past the first part of readAt knows its range, and it stays in the file it read from. */
  ghost predicate PhaseOk(total: nat, it: ItemState, p: Phase) {
    match p
    case Ensuring(off, len, r, present) =>
      Reading(total, it, off, len, r) && (present ==> AllPresent(it.rs, r.pos, r.End()))
    case Waiting(off, len, r) => Reading(total, it, off, len, r)
    case Resumed(off, len, r, ok) => Reading(total, it, off, len, r) && (ok ==> AllPresent(it.rs, r.pos, r.End()))
    case _ => true
  }

  ghost predicate Reading(total: nat, it: ItemState, off: nat, len: nat, r: Range) {
    it.disk.Some? && it.size == total && r == Range(off, Min(len, total - off))
  }

  ghost predicate PhasesOk(total: nat, it: ItemState, handles: map<nat, Phase>) {
    forall h :: h in handles ==> PhaseOk(total, it, handles[h])
  }

  ghost predicate Service(total: nat, s: System) {
    && SizedOk(total, s.item) && LifeOk(total, s.item, SomeUndoing(s.handles)) && PhasesOk(total, s.item, s.handles)
    && AllCovered(s.group.dls, s.item.rs, total) && DlsOk(total, s.strays)
  }

  ghost predicate Full(cfg: Config, s: System) { Core(s) && Service(|cfg.remote|, s) }

  // ---------- What the item's sections keep ----------

  /** Readers keep their file, its size and their ranges. */
  ghost predicate KeepsReaders(it: ItemState, it': ItemState) {
    && (it.disk.Some? ==> it'.disk.Some? && it'.size == it.size)
    && forall x :: Covers(it.rs, x) ==> Covers(it'.rs, x)
  }

  lemma PhasesKept(total: nat, it: ItemState, it': ItemState, handles: map<nat, Phase>)
    requires PhasesOk(total, it, handles) && (KeepsReaders(it, it') || NoReaders(handles))
    ensures PhasesOk(total, it', handles)
  {
    forall h | h in handles ensures PhaseOk(total, it', handles[h]) {
      assert PhaseOk(total, it, handles[h]);
    }
  }

  lemma PhasesSet(total: nat, it: ItemState, handles: map<nat, Phase>, h: nat, p: Phase)
    requires PhasesOk(total, it, handles) && PhaseOk(total, it, p)
    ensures PhasesOk(total, it, handles[h := p])
  {
  }

  lemma CheckKeeps(total: nat, it: ItemState, fault: CheckFault)
    requires SizedOk(total, it) && !fault.CannotTruncate?
    ensures var (err, it') := CheckObject(it, total, fault);
            && SizedOk(total, it') && it'.size == total && Touched(it, it')
            && (err == None ==> Contents(it').Some?)
            && (Contents(it).Some? ==> it'.disk == it.disk && it'.rs == it.rs && it'.fd == it.fd)
  {
    CheckTouches(it, total, fault);
    EmptyDiskSize(it.rs);
    assert forall x :: !Covers([], x);
    if Contents(it).Some? {
      var d := Contents(it).value;
      assert Resize(d, |d|) == d;
    }
  }

  lemma RemoveKeeps(total: nat, it: ItemState)
    requires SizedOk(total, it)
    ensures SizedOk(total, RemoveFiles(it)) && RemoveFiles(it).disk == None && SizedOk(total, OpenUndo(it))
  {
    assert forall x :: !Covers([], x);
  }

  /** An open never hurts threads that hold the item, and only the first opener changes much. */
  lemma OpenKeeps(total: nat, it: ItemState, mkdir: Option<Error>, check: CheckFault, create: Option<Error>)
    requires SizedOk(total, it) && LifeOk(total, it, false) && 0 <= it.opens && (it.grace ==> it.opens == 0)
    requires !check.CannotTruncate?
    ensures var (how, it') := OpenBody(it, total, mkdir, check, create);
            && SizedOk(total, it') && LifeOk(total, it', how.CreateFailed?)
            && (it.opens > 0 && it.size == total && it.disk.Some? ==> KeepsReaders(it, it'))
            && (it.attached ==> it'.rs == it.rs && it'.attached && !how.Created?)
            && (how.Created? ==> it'.attached)
  {
    if mkdir == None {
      CheckKeeps(total, it, check);
      var (err, it1) := CheckObject(it, total, check);
      if err == None && it.opens == 0 {
        OpenFirstKeeps(total, it1.(opens := 1), create);
      }
    }
  }

  lemma OpenFirstKeeps(total: nat, it: ItemState, create: Option<Error>)
    requires SizedOk(total, it) && it.opens == 1 && it.size == total && Contents(it).Some?
    requires it.grace ==> !it.fd.Unlinked?
    requires (!it.grace ==> !it.attached) && (it.attached ==> it.disk.Some?)
    ensures var (how, it') := OpenFirst(it, create);
            && SizedOk(total, it') && LifeOk(total, it', how.CreateFailed?)
            && (it.attached ==> it'.rs == it.rs && it'.attached && !how.Created?)
            && (how.Created? ==> it'.attached)
  {
  }

  lemma CloseKeeps(total: nat, it: ItemState, handleCaching: bool)
    requires SizedOk(total, it) && LifeOk(total, it, false) && it.opens > 0 && !it.grace
    ensures var (cs, it') := CloseBody(it, total, handleCaching);
            && SizedOk(total, it') && LifeOk(total, it', false)
            && it'.rs == it.rs && (it'.opens > 0 ==> KeepsReaders(it, it') && it'.attached == it.attached)
            && (it'.attached ==> it.attached)
  {
  }

  lemma GraceKeeps(total: nat, it: ItemState)
    requires SizedOk(total, it) && LifeOk(total, it, false)
    ensures var (cs, it') := GraceBody(it, total);
            && SizedOk(total, it') && LifeOk(total, it', false)
            && it'.rs == it.rs && (it.opens > 0 ==> it' == it) && (it'.attached ==> it.attached)
  {
  }

  lemma FinishKeeps(total: nat, it: ItemState, undoing: bool)
    requires SizedOk(total, it) && LifeOk(total, it, undoing)
    ensures SizedOk(total, CloseFinish(it)) && LifeOk(total, CloseFinish(it), undoing)
    ensures KeepsReaders(it, CloseFinish(it))
  {
  }

  /** The first part of Reset goes on only when no thread is in an access. */
  lemma ResetBeginKeeps(total: nat, it: ItemState)
    requires SizedOk(total, it) && LifeOk(total, it, false) && 0 <= it.opens && !it.dirty && ResetBegin(it).0.Resetting?
    ensures var it' := ResetBegin(it).2;
            && SizedOk(total, it') && LifeOk(total, it', false)
            && it.pending <= 0 && it.opens > 0 && it' == it.(beingReset := true, attached := false)
  {
  }

  /** The second part ends the reset, or leaves it pending on a lack of space. */
  lemma ResetEndKeeps(total: nat, it: ItemState, close: Option<Error>, check: CheckFault, create: Option<Error>)
    requires SizedOk(total, it) && LifeOk(total, it, false) && it.opens > 0 && !it.grace && !it.attached
    requires !check.CannotTruncate?
    ensures var (rr, err, _, it') := ResetEnd(it, total, close, check, create);
            && SizedOk(total, it') && LifeOk(total, it', false)
            && (it'.beingReset ==> err == Some(NoSpace))
            && (err == None <==> rr == ResetComplete) && (it'.attached <==> rr == ResetComplete)
  {
    if it.fd.NoFd? || close == None {
      RemoveKeeps(total, it.(fd := NoFd));
      RecreateKeeps(total, RemoveFiles(it.(fd := NoFd)), check, create);
    }
  }

  lemma RecreateKeeps(total: nat, it: ItemState, check: CheckFault, create: Option<Error>)
    requires SizedOk(total, it) && it.fd.NoFd? && it.opens > 0 && !it.grace && !it.attached && !check.CannotTruncate?
    ensures var (err, it') := Recreate(it, total, check, create);
            && SizedOk(total, it') && LifeOk(total, it', false)
            && (it'.beingReset ==> err == Some(NoSpace)) && (it'.attached <==> err == None)
  {
    CheckKeeps(total, it, check);
    RemoveKeeps(total, CheckObject(it, total, check).1);
  }

  /** Writing inside the file keeps its length and makes the bytes present. */
  lemma WriteKeeps(cfg: Config, it: ItemState, d: Dl, len: nat, n: nat, undoing: bool)
    requires var total := |cfg.remote|; SizedOk(total, it) && LifeOk(total, it, undoing) && DlOk(total, d)
    requires CanWrite(cfg, it, d, len, n)
    ensures var it' := Written(cfg, it, d, len, n).0;
            && SizedOk(|cfg.remote|, it') && LifeOk(|cfg.remote|, it', undoing) && KeepsReaders(it, it')
            && it'.rs == InsertSpec(it.rs, Range(d.offset, n)) && it'.attached == it.attached
  {
    WrittenIs(cfg, it, d, len, n);
  }

  // ---------- Steps ----------

  lemma UndoingSet(handles: map<nat, Phase>, h: nat, p: Phase)
    requires !p.Undoing? && (h in handles ==> !handles[h].Undoing?)
    ensures SomeUndoing(handles[h := p]) == SomeUndoing(handles)
  {
    if k :| k in handles && handles[k].Undoing? {
      assert handles[h := p][k].Undoing?;
    }
  }

  /** While a failed open is being undone nobody else has the item open. */
  lemma UndoingAlone(total: nat, s: System)
    requires CountsOk(s.item.pending, s.item.opens, s.handles) && LifeOk(total, s.item, SomeUndoing(s.handles))
    ensures SomeUndoing(s.handles) ==>
              NoReaders(s.handles) && forall h :: h in s.handles && Holds(s.handles[h]) ==> s.handles[h].Undoing?
  {
    if h :| h in s.handles && s.handles[h].Undoing? {
      AloneIn(s.item.pending, s.handles, h);
    }
  }

  lemma ServiceEnter(cfg: Config, s: System, step: Step)
    requires Full(cfg, s) && Enabled(cfg, s, step) && (step.OpenEnter? || step.ReadEnter? || step.CloseEnter?)
    ensures Service(|cfg.remote|, Apply(cfg, s, step))
  {
    var s' := Apply(cfg, s, step);
    UndoingSet(s.handles, step.h, s'.handles[step.h]);
    PhasesKept(|cfg.remote|, s.item, s'.item, s.handles);
    PhasesSet(|cfg.remote|, s'.item, s.handles, step.h, s'.handles[step.h]);
  }

  lemma ServiceLeave(cfg: Config, s: System, h: nat)
    requires Full(cfg, s) && Enabled(cfg, s, Leave(h))
    ensures Service(|cfg.remote|, Apply(cfg, s, Leave(h)))
  {
    var s' := Apply(cfg, s, Leave(h));
    PhasesKept(|cfg.remote|, s.item, s'.item, s.handles);
    UndoingSet(s.handles, h, Idle);
    if !s.handles[h].open {
      assert s'.handles == s.handles - {h};
      assert SomeUndoing(s'.handles) == SomeUndoing(s.handles) by {
        if k :| k in s.handles && s.handles[k].Undoing? {
          assert s'.handles[k].Undoing?;
        }
      }
    }
  }

  lemma ServiceOpen(cfg: Config, s: System, step: Step)
    requires Full(cfg, s) && Enabled(cfg, s, step) && step.OpenRun? && !Disturbs(cfg, s, step) && !Unsized(step)
    ensures Service(|cfg.remote|, Apply(cfg, s, step))
  {
    var outcome := OpenBody(s.item, |cfg.remote|, step.mkdir, step.check, step.create);
    Counted(s.item, s.handles, step.h);
    OpenCounts(s.item, |cfg.remote|, step.mkdir, step.check, step.create);
    if SomeUndoing(s.handles) {
      UndoingAlone(|cfg.remote|, s);
      CheckKeeps(|cfg.remote|, s.item, step.check);
      ServiceNotOpened(cfg, s, step.h, outcome);
    } else {
      OpenKeeps(|cfg.remote|, s.item, step.mkdir, step.check, step.create);
      ServiceOpened(cfg, s, step.h, outcome);
    }
  }

  lemma ServiceNotOpened(cfg: Config, s: System, h: nat, outcome: (OpenStep, ItemState))
    requires Full(cfg, s) && h in s.handles && s.handles[h].Opening? && SomeUndoing(s.handles) && NoReaders(s.handles)
    requires outcome.0.NotOpened? && SizedOk(|cfg.remote|, outcome.1) && OpenCounted(s.item, outcome.0, outcome.1)
    ensures Service(|cfg.remote|, ApplyOpen(s, h, outcome))
  {
    UndoingSet(s.handles, h, Leaving(false));
    PhasesKept(|cfg.remote|, s.item, outcome.1, s.handles);
    PhasesSet(|cfg.remote|, outcome.1, s.handles, h, Leaving(false));
    CoveredNothing(outcome.1.rs, |cfg.remote|);
  }

  lemma CoveredNothing(rs: seq<Range>, total: nat)
    ensures AllCovered([], rs, total)
  {
  }

  lemma ServiceOpened(cfg: Config, s: System, h: nat, outcome: (OpenStep, ItemState))
    requires Full(cfg, s) && h in s.handles && s.handles[h].Opening? && !SomeUndoing(s.handles)
    requires SizedOk(|cfg.remote|, outcome.1) && LifeOk(|cfg.remote|, outcome.1, outcome.0.CreateFailed?)
    requires s.item.opens > 0 && s.item.size == |cfg.remote| && s.item.disk.Some? ==> KeepsReaders(s.item, outcome.1)
    requires s.item.attached ==> outcome.1.rs == s.item.rs && outcome.1.attached && !outcome.0.Created?
    ensures Service(|cfg.remote|, ApplyOpen(s, h, outcome))
  {
    var total := |cfg.remote|;
    var s' := ApplyOpen(s, h, outcome);
    var p := s'.handles[h];
    assert s'.handles == s.handles[h := p] && s'.group == s.group && s'.strays == s.strays;
    assert SomeUndoing(s'.handles) == outcome.0.CreateFailed? by {
      if outcome.0.CreateFailed? {
        assert s'.handles[h].Undoing?;
      } else {
        UndoingSet(s.handles, h, p);
      }
    }
    NobodyIn(s.item.pending, s.item.opens, s.handles);
    ReadersRead(total, s.item, s.handles);
    PhasesKept(total, s.item, outcome.1, s.handles);
    PhasesSet(total, outcome.1, s.handles, h, p);
  }

  /** Where somebody reads there is a file of the remote's size. */
  lemma ReadersRead(total: nat, it: ItemState, handles: map<nat, Phase>)
    requires PhasesOk(total, it, handles)
    ensures NoReaders(handles) || (it.disk.Some? && it.size == total)
  {
    if h :| h in handles && IsReading(handles[h]) {
      assert PhaseOk(total, it, handles[h]);
    }
  }

  lemma ServiceGivesUp(cfg: Config, s: System, h: nat)
    requires Full(cfg, s) && Enabled(cfg, s, OpenGivesUp(h))
    ensures Service(|cfg.remote|, Apply(cfg, s, OpenGivesUp(h)))
  {
    var s' := Apply(cfg, s, OpenGivesUp(h));
    assert SomeUndoing(s.handles);
    AloneIn(s.item.pending, s.handles, h);
    UndoingAlone(|cfg.remote|, s);
    RemoveKeeps(|cfg.remote|, s.item);
    assert !SomeUndoing(s'.handles);
    PhasesKept(|cfg.remote|, s.item, s'.item, s.handles);
    PhasesSet(|cfg.remote|, s'.item, s.handles, h, Leaving(false));
    CoveredNothing(s'.item.rs, |cfg.remote|);
  }

  lemma ServiceRemoved(cfg: Config, s: System)
    requires Full(cfg, s) && Enabled(cfg, s, RemoveDone) && !Disturbs(cfg, s, RemoveDone)
    ensures Service(|cfg.remote|, Apply(cfg, s, RemoveDone))
  {
    var s' := Apply(cfg, s, RemoveDone);
    NobodyIn(s.item.pending, s.item.opens, s.handles);
    RemoveKeeps(|cfg.remote|, s.item);
    PhasesKept(|cfg.remote|, s.item, s'.item, s.handles);
    CoveredNothing(s'.item.rs, |cfg.remote|);
  }

  lemma ServiceLook(cfg: Config, s: System, h: nat)
    requires Full(cfg, s) && Enabled(cfg, s, ReadLook(h))
    ensures Service(|cfg.remote|, Apply(cfg, s, ReadLook(h)))
  {
    var s' := Apply(cfg, s, ReadLook(h));
    var Entered(off, len) := s.handles[h];
    var look := ReadBody(s.item, off, len);
    Counted(s.item, s.handles, h);
    UndoingAlone(|cfg.remote|, s);
    UndoingSet(s.handles, h, s'.handles[h]);
    if look.Wants? {
      PresentExact(s.item.rs, look.r);
      assert forall x :: look.r.Has(x) <==> look.r.pos <= x < look.r.End();
    }
    PhasesSet(|cfg.remote|, s.item, s.handles, h, s'.handles[h]);
  }

  lemma ServiceEnsure(cfg: Config, s: System, h: nat)
    requires Full(cfg, s) && Enabled(cfg, s, ReadEnsure(h))
    ensures Service(|cfg.remote|, Apply(cfg, s, ReadEnsure(h)))
  {
    var p := s.handles[h];
    assert PhaseOk(|cfg.remote|, s.item, p);
    EnsureKeepsCovered(if s.item.attached then s.group else NO_GROUP, s.item.rs, |cfg.remote|, cfg.readAhead, p.r);
    ServiceAsked(cfg, s, h, Asked(cfg, s, p.r));
  }

  lemma ServiceAsked(cfg: Config, s: System, h: nat, asked: (Option<Error>, Group))
    requires Full(cfg, s) && h in s.handles && s.handles[h].Ensuring?
    requires AllCovered(asked.1.dls, s.item.rs, |cfg.remote|)
    ensures Service(|cfg.remote|, ApplyEnsure(s, h, asked))
  {
    var s' := ApplyEnsure(s, h, asked);
    Counted(s.item, s.handles, h);
    UndoingAlone(|cfg.remote|, s);
    UndoingSet(s.handles, h, s'.handles[h]);
    assert PhaseOk(|cfg.remote|, s.item, s.handles[h]);
    PhasesSet(|cfg.remote|, s.item, s.handles, h, s'.handles[h]);
    PhasesKept(|cfg.remote|, s.item, s'.item, s'.handles);
  }

  lemma ServiceReturn(cfg: Config, s: System, step: Step)
    requires Full(cfg, s) && Enabled(cfg, s, step) && step.ReadReturn?
    ensures Service(|cfg.remote|, Apply(cfg, s, step))
  {
    var p := s.handles[step.h];
    assert PhaseOk(|cfg.remote|, s.item, p);
    assert ReadFinish(s.item, |cfg.remote|, p.off, p.len, step.check).1 == s.item;
    UndoingSet(s.handles, step.h, Leaving(true));
    PhasesSet(|cfg.remote|, s.item, s.handles, step.h, Leaving(true));
  }

  lemma ServiceClose(cfg: Config, s: System, h: nat)
    requires Full(cfg, s) && Enabled(cfg, s, CloseRun(h))
    ensures Service(|cfg.remote|, Apply(cfg, s, CloseRun(h)))
  {
    Counted(s.item, s.handles, h);
    UndoingAlone(|cfg.remote|, s);
    CloseKeeps(|cfg.remote|, s.item, cfg.handleCaching);
    if s.item.opens == 1 {
      AloneIn(s.item.pending, s.handles, h);
    }
    ServiceClosed(cfg, s, h, CloseBody(s.item, |cfg.remote|, cfg.handleCaching));
  }

  lemma ServiceClosed(cfg: Config, s: System, h: nat, outcome: (CloseStep, ItemState))
    requires Full(cfg, s) && h in s.handles && s.handles[h].ClosingStart? && !SomeUndoing(s.handles)
    requires SizedOk(|cfg.remote|, outcome.1) && LifeOk(|cfg.remote|, outcome.1, false) && outcome.1.rs == s.item.rs
    requires outcome.1.attached ==> s.item.attached
    requires if outcome.1.opens > 0 then KeepsReaders(s.item, outcome.1) && outcome.1.attached == s.item.attached
             else NoReaders(s.handles)
    ensures Service(|cfg.remote|, ApplyClose(s, h, outcome))
  {
    var total := |cfg.remote|;
    var p := if outcome.0.Closing? then ClosingWindow else Leaving(false);
    if outcome.1.opens <= 0 {
      SettleQuiet(s, outcome.1);
    }
    ServiceDetached(total, s, outcome.1);
    UndoingSet(s.handles, h, p);
    PhasesKept(total, s.item, outcome.1, s.handles);
    PhasesSet(total, outcome.1, s.handles, h, p);
  }

  /** Detached downloads write inside the file, as they did before. */
  lemma ServiceDetached(total: nat, s: System, item: ItemState)
    requires AllCovered(s.group.dls, s.item.rs, total) && DlsOk(total, s.strays) && item.rs == s.item.rs
    ensures AllCovered(Settle(s, item).group.dls, item.rs, total) && DlsOk(total, Settle(s, item).strays)
  {
    CoveredNothing(item.rs, total);
    forall d | d in s.group.dls ensures DlOk(total, d) {
      var i :| 0 <= i < |s.group.dls| && s.group.dls[i] == d;
      assert Covered(s.group.dls[i], s.item.rs, total);
    }
  }

  lemma ServiceFinish(cfg: Config, s: System, step: Step)
    requires Full(cfg, s) && Enabled(cfg, s, step) && (step.CloseDone? || step.GraceDone?)
    ensures Service(|cfg.remote|, Apply(cfg, s, step))
  {
    var s' := Apply(cfg, s, step);
    FinishKeeps(|cfg.remote|, s.item, SomeUndoing(s.handles));
    PhasesKept(|cfg.remote|, s.item, s'.item, s.handles);
    if step.CloseDone? {
      UndoingSet(s.handles, step.h, Leaving(false));
      PhasesSet(|cfg.remote|, s'.item, s.handles, step.h, Leaving(false));
    }
  }

  lemma ServiceGrace(cfg: Config, s: System)
    requires Full(cfg, s)
    ensures Service(|cfg.remote|, Apply(cfg, s, GraceFires))
  {
    var outcome := GraceBody(s.item, |cfg.remote|);
    NobodyIn(s.item.pending, s.item.opens, s.handles);
    if s.item.opens == 0 {
      GraceKeeps(|cfg.remote|, s.item);
      SettleQuiet(s, outcome.1);
      PhasesKept(|cfg.remote|, s.item, outcome.1, s.handles);
    }
    ServiceDetached(|cfg.remote|, s, outcome.1);
  }

  lemma ServiceWrite(cfg: Config, s: System, step: Step)
    requires Full(cfg, s) && Enabled(cfg, s, step) && (step.DlWrite? || step.StrayWrite?)
    ensures Service(|cfg.remote|, Apply(cfg, s, step))
  {
    if step.DlWrite? {
      var d := s.group.dls[step.i];
      assert Covered(d, s.item.rs, |cfg.remote|);
      ServiceWrote(cfg, s, d, step.len, step.n);
      WriteCovers(d, s.item.rs, |cfg.remote|, step.len, step.n, PresentCount(s.item.rs, d.offset, step.n),
                  if step.n < step.len then Some(OtherError) else None);
    } else {
      assert DlOk(|cfg.remote|, s.strays[step.i]);
      ServiceWrote(cfg, s, s.strays[step.i], step.len, step.n);
    }
  }

  lemma ServiceWrote(cfg: Config, s: System, d: Dl, len: nat, n: nat)
    requires Service(|cfg.remote|, s) && DlOk(|cfg.remote|, d) && CanWrite(cfg, s.item, d, len, n)
    ensures var (item, d') := Written(cfg, s.item, d, len, n);
            && Service(|cfg.remote|, s.(item := item)) && DlOk(|cfg.remote|, d')
            && item.rs == InsertSpec(s.item.rs, Range(d.offset, n))
  {
    var item := Written(cfg, s.item, d, len, n).0;
    WriteKeeps(cfg, s.item, d, len, n, SomeUndoing(s.handles));
    PhasesKept(|cfg.remote|, s.item, item, s.handles);
    CoveredMonotone(s.group.dls, s.item.rs, item.rs, |cfg.remote|);
  }

  lemma ServiceDl(cfg: Config, s: System, step: Step)
    requires Full(cfg, s) && Enabled(cfg, s, step) && (step.DlStop? || step.DlEnd? || step.StrayStop?)
    ensures Service(|cfg.remote|, Apply(cfg, s, step))
  {
    var s' := Apply(cfg, s, step);
    if step.StrayStop? {
      assert DlOk(|cfg.remote|, s.strays[step.i]);
    } else {
      assert Covered(s.group.dls[step.i], s.item.rs, |cfg.remote|);
      assert Covered(s'.group.dls[step.i], s.item.rs, |cfg.remote|);
    }
  }

  lemma ServiceSized(cfg: Config, s: System, h: nat)
    requires Full(cfg, s) && Enabled(cfg, s, GetSize(h))
    ensures Service(|cfg.remote|, Apply(cfg, s, GetSize(h)))
  {
    ReadersRead(|cfg.remote|, s.item, s.handles);
    PhasesKept(|cfg.remote|, s.item, Apply(cfg, s, GetSize(h)).item, s.handles);
  }

  lemma ServiceKick(cfg: Config, s: System)
    requires Full(cfg, s) && Enabled(cfg, s, KickAll)
    ensures Service(|cfg.remote|, Apply(cfg, s, KickAll))
  {
    var total := |cfg.remote|;
    var s' := Apply(cfg, s, KickAll);
    if s.group.waiters == [] {
      assert s.group.(waiters := []) == s.group;
      DeliverNothing(s.handles);
      assert s' == s;
    } else {
      WaitersRead(cfg, s);
      KickServes(s.group, s.item.rs, total, cfg.readAhead);
      KickedPhases(cfg, s);
      DeliveredUndoing(s.handles, Kick(s.group, s.item.rs, s.item.size, total, cfg.readAhead).0);
    }
  }

  lemma DeliveredUndoing(handles: map<nat, Phase>, answers: seq<Answer>)
    ensures SomeUndoing(Deliver(handles, answers)) == SomeUndoing(handles)
  {
    forall h | h in handles ensures Deliver(handles, answers)[h].Undoing? == handles[h].Undoing? {
      DeliverKeepsKind(handles[h], h, answers);
    }
    if k :| k in handles && handles[k].Undoing? {
      assert Deliver(handles, answers)[k].Undoing?;
    }
    if k :| k in handles && Deliver(handles, answers)[k].Undoing? {
      assert handles[k].Undoing?;
    }
  }

  /** Whoever is queued reads a file of the remote's size. */
  lemma WaitersRead(cfg: Config, s: System)
    requires Full(cfg, s)
    ensures forall w :: w in s.group.waiters ==> 0 <= w.r.pos && s.item.size == |cfg.remote|
    ensures s.group.waiters == [] || s.item.size == |cfg.remote|
  {
    forall w | w in s.group.waiters ensures 0 <= w.r.pos && s.item.size == |cfg.remote| {
      assert PhaseOk(|cfg.remote|, s.item, s.handles[w.id]);
    }
    assert s.group.waiters == [] || s.group.waiters[0] in s.group.waiters;
  }

  lemma KickedPhases(cfg: Config, s: System)
    requires Full(cfg, s) && s.item.attached && s.item.size == |cfg.remote|
    ensures PhasesOk(|cfg.remote|, s.item,
                     Deliver(s.handles, Kick(s.group, s.item.rs, s.item.size, |cfg.remote|, cfg.readAhead).0))
  {
    var answers := Kick(s.group, s.item.rs, s.item.size, |cfg.remote|, cfg.readAhead).0;
    forall h | h in s.handles ensures PhaseOk(|cfg.remote|, s.item, DeliverTo(s.handles[h], h, answers)) {
      KickedPhase(cfg, s, h, answers);
    }
  }

  lemma KickedPhase(cfg: Config, s: System, h: nat, answers: seq<Answer>)
    requires Full(cfg, s) && s.item.attached && h in s.handles
    requires answers == Kick(s.group, s.item.rs, s.item.size, |cfg.remote|, cfg.readAhead).0
    ensures PhaseOk(|cfg.remote|, s.item, DeliverTo(s.handles[h], h, answers))
  {
    var total := |cfg.remote|;
    var p := s.handles[h];
    var q := DeliverTo(p, h, answers);
    DeliverKeepsKind(p, h, answers);
    assert PhaseOk(total, s.item, p);
    if p.Waiting? && Answered(answers, h) && q.ok {
      KickAnswers(s.group, s.item.rs, s.item.size, total, cfg.readAhead);
      var a :| a in answers && a.id == h && q == Resumed(p.off, p.len, p.r, a.err == None);
      var w :| w in s.group.waiters && w.id == a.id && Ready(w, s.item.rs, total);
      PresentExact(s.item.rs, w.r.Clip(total));
      assert forall x :: w.r.Has(x) <==> w.r.pos <= x < w.r.End();
    }
  }

  lemma ServiceResetStart(cfg: Config, s: System, retry: bool)
    requires Full(cfg, s) && Enabled(cfg, s, ResetStart(retry))
    ensures Service(|cfg.remote|, Apply(cfg, s, ResetStart(retry)))
  {
    var (rr, _, item) := ResetBegin(s.item);
    NobodyIn(s.item.pending, s.item.opens, s.handles);
    if rr.Resetting? {
      UndoingAlone(|cfg.remote|, s);
      assert !SomeUndoing(s.handles);
      ResetBeginKeeps(|cfg.remote|, s.item);
      SettleQuiet(s, item);
      ServiceDetached(|cfg.remote|, s, item);
      PhasesKept(|cfg.remote|, s.item, item, s.handles);
    }
  }

  lemma ServiceResetStop(cfg: Config, s: System, step: Step)
    requires Full(cfg, s) && Enabled(cfg, s, step) && step.ResetStop? && !Unsized(step)
    ensures Service(|cfg.remote|, Apply(cfg, s, step))
  {
    var s' := Apply(cfg, s, step);
    NobodyIn(s.item.pending, s.item.opens, s.handles);
    assert !SomeUndoing(s.handles);
    ResetEndKeeps(|cfg.remote|, s.item, step.close, step.check, step.create);
    PhasesKept(|cfg.remote|, s.item, s'.item, s.handles);
    CoveredNothing(s'.item.rs, |cfg.remote|);
  }

  lemma ServiceThread(cfg: Config, s: System, step: Step)
    requires Full(cfg, s) && Enabled(cfg, s, step) && !Disturbs(cfg, s, step) && !Unsized(step)
    requires step.OpenEnter? || step.OpenRun? || step.OpenGivesUp? || step.ReadEnter? || step.ReadLook?
          || step.ReadEnsure? || step.ReadReturn? || step.CloseEnter? || step.CloseRun? || step.CloseDone?
          || step.Leave?
    ensures Service(|cfg.remote|, Apply(cfg, s, step))
  {
    if step.OpenEnter? || step.ReadEnter? || step.CloseEnter? {
      ServiceEnter(cfg, s, step);
    } else if step.OpenRun? {
      ServiceOpen(cfg, s, step);
    } else if step.OpenGivesUp? {
      ServiceGivesUp(cfg, s, step.h);
    } else if step.ReadLook? {
      ServiceLook(cfg, s, step.h);
    } else if step.ReadEnsure? {
      ServiceEnsure(cfg, s, step.h);
    } else if step.ReadReturn? {
      ServiceReturn(cfg, s, step);
    } else if step.CloseRun? {
      ServiceClose(cfg, s, step.h);
    } else if step.CloseDone? {
      ServiceFinish(cfg, s, step);
    } else {
      ServiceLeave(cfg, s, step.h);
    }
  }

  lemma ServiceDownloads(cfg: Config, s: System, step: Step)
    requires Full(cfg, s) && Enabled(cfg, s, step)
    requires step.DlWrite? || step.StrayWrite? || step.DlStop? || step.DlEnd? || step.StrayStop? || step.KickAll?
    ensures Service(|cfg.remote|, Apply(cfg, s, step))
  {
    if step.KickAll? {
      ServiceKick(cfg, s);
    } else if step.DlWrite? || step.StrayWrite? {
      ServiceWrite(cfg, s, step);
    } else {
      ServiceDl(cfg, s, step);
    }
  }

  lemma ServiceBehind(cfg: Config, s: System, step: Step)
    requires Full(cfg, s) && Enabled(cfg, s, step) && !Disturbs(cfg, s, step) && !Unsized(step)
    requires step.GraceFires? || step.GraceDone? || step.GetSize? || step.Evict? || step.ResetStart?
          || step.RemoveDone? || step.ResetStop? || step.RetryGone?
    ensures Service(|cfg.remote|, Apply(cfg, s, step))
  {
    match step
    case GraceFires => ServiceGrace(cfg, s);
    case GraceDone => ServiceFinish(cfg, s, step);
    case GetSize(h) => ServiceSized(cfg, s, h);
    case ResetStart(retry) => ServiceResetStart(cfg, s, retry);
    case RemoveDone => ServiceRemoved(cfg, s);
    case ResetStop(_, _, _) => ServiceResetStop(cfg, s, step);
    case Evict(_, _) =>
    case RetryGone =>
  }

  /** Every step that disturbs nobody keeps the service. */
  lemma StepKeepsFull(cfg: Config, s: System, step: Step)
    requires Full(cfg, s) && Enabled(cfg, s, step) && !Disturbs(cfg, s, step) && !Unsized(step)
    ensures Full(cfg, Apply(cfg, s, step))
  {
    StepKeepsCore(cfg, s, step);
    if step.OpenEnter? || step.OpenRun? || step.OpenGivesUp? || step.ReadEnter? || step.ReadLook? || step.ReadEnsure?
      || step.ReadReturn? || step.CloseEnter? || step.CloseRun? || step.CloseDone? || step.Leave? {
      ServiceThread(cfg, s, step);
    } else if step.DlWrite? || step.StrayWrite? || step.DlStop? || step.DlEnd? || step.StrayStop? || step.KickAll? {
      ServiceDownloads(cfg, s, step);
    } else {
      ServiceBehind(cfg, s, step);
    }
  }

  lemma {:induction false} SteadyKeepsFull(cfg: Config, s: System, steps: seq<Step>)
    requires Full(cfg, s) && Legal(cfg, s, steps) && Steady(cfg, s, steps)
    ensures Full(cfg, Exec(cfg, s, steps))
    decreases |steps|
  {
    if steps != [] {
      StepKeepsFull(cfg, s, steps[0]);
      SteadyKeepsFull(cfg, Apply(cfg, s, steps[0]), steps[1..]);
    }
  }

  // ---------- What steady runs promise ----------

  /** An item at rest, without a file or with one of the remote's length. */
  ghost predicate Fresh(cfg: Config, s: System) { AtRest(s) && SizedOk(|cfg.remote|, s.item) }

  lemma FreshFull(cfg: Config, s: System)
    requires Fresh(cfg, s)
    ensures Full(cfg, s)
  {
    RestIsCore(s);
    assert !SomeUndoing(s.handles);
  }

  /** No step of a steady run does harm, so all its reads agree with the remote. */
  lemma {:induction false} SteadyIsCalm(cfg: Config, s: System, steps: seq<Step>)
    requires Full(cfg, s) && Legal(cfg, s, steps) && Steady(cfg, s, steps)
    ensures Calm(cfg, s, steps)
    decreases |steps|
  {
    if steps != [] {
      var step := steps[0];
      if step.ReadReturn? {
        assert PhaseOk(|cfg.remote|, s.item, s.handles[step.h]);
      }
      StepKeepsFull(cfg, s, step);
      SteadyIsCalm(cfg, Apply(cfg, s, step), steps[1..]);
    }
  }

  /** Over every steady run, a thread told that its bytes are there finds them there until it has read them. */
  lemma ResumedMeansPresent(cfg: Config, s: System, steps: seq<Step>, h: nat)
    requires Fresh(cfg, s) && Legal(cfg, s, steps) && Steady(cfg, s, steps)
    ensures var s' := Exec(cfg, s, steps);
            h in s'.handles && s'.handles[h].Resumed? && s'.handles[h].ok ==>
              s'.item.disk.Some? && Present(s'.item.rs, s'.handles[h].r)
  {
    FreshFull(cfg, s);
    SteadyKeepsFull(cfg, s, steps);
    var s' := Exec(cfg, s, steps);
    if h in s'.handles && s'.handles[h].Resumed? && s'.handles[h].ok {
      var r := s'.handles[h].r;
      assert PhaseOk(|cfg.remote|, s'.item, s'.handles[h]);
      PresentExact(s'.item.rs, r);
      assert forall x :: r.Has(x) <==> r.pos <= x < r.End();
    }
  }

  lemma AskedIsServed(cfg: Config, s: System, h: nat)
    requires Full(cfg, s) && Enabled(cfg, s, ReadEnsure(h))
    ensures var s' := Apply(cfg, s, ReadEnsure(h)); s'.item.attached ==> ServedIn(cfg, s', s'.handles[h].r)
    ensures var s' := Apply(cfg, s, ReadEnsure(h)); s'.handles[h].Waiting? ==> s'.item.attached
  {
    assert PhaseOk(|cfg.remote|, s.item, s.handles[h]);
    EnsureCovers(if s.item.attached then s.group else NO_GROUP, s.item.rs, |cfg.remote|, cfg.readAhead, s.handles[h].r);
  }

  /**
   Over every steady run, a thread that asks for its range finds a download under way for all
   that is missing of it and its read-ahead, also when it need not wait; only where its range
   is present and there are no downloads none is made.
   */
  lemma WaitingIsServed(cfg: Config, s: System, steps: seq<Step>, h: nat)
    requires Fresh(cfg, s) && Legal(cfg, s, steps) && Steady(cfg, s, steps)
    requires Enabled(cfg, Exec(cfg, s, steps), ReadEnsure(h))
    ensures var s1 := Exec(cfg, s, steps);
            var s' := Apply(cfg, s1, ReadEnsure(h));
            && (s'.item.attached <==> s1.item.attached || !s1.handles[h].present)
            && (s'.item.attached ==> ServedIn(cfg, s', s'.handles[h].r))
            && (s'.handles[h].Waiting? ==> s'.item.attached)
  {
    FreshFull(cfg, s);
    SteadyKeepsFull(cfg, s, steps);
    AskedIsServed(cfg, Exec(cfg, s, steps), h);
  }

  lemma KickServesAll(cfg: Config, s: System)
    requires Full(cfg, s) && Enabled(cfg, s, KickAll)
    ensures var s' := Apply(cfg, s, KickAll); forall w :: w in s'.group.waiters ==> ServedIn(cfg, s', w.r)
  {
    WaitersRead(cfg, s);
    if s.group.waiters == [] {
      assert s.group.(waiters := []) == s.group;
    } else {
      KickServes(s.group, s.item.rs, |cfg.remote|, cfg.readAhead);
    }
  }

  /** Over every steady run, each thread still queued after a kick has a download under way for all that it misses. */
  lemma KickedAreServed(cfg: Config, s: System, steps: seq<Step>)
    requires Fresh(cfg, s) && Legal(cfg, s, steps) && Steady(cfg, s, steps)
    requires Enabled(cfg, Exec(cfg, s, steps), KickAll)
    ensures var s' := Apply(cfg, Exec(cfg, s, steps), KickAll);
            forall w :: w in s'.group.waiters ==> ServedIn(cfg, s', w.r)
  {
    FreshFull(cfg, s);
    SteadyKeepsFull(cfg, s, steps);
    KickServesAll(cfg, Exec(cfg, s, steps));
  }

  // ---------- Nothing is destroyed ----------

  /** The downloads stay attached all along, and none that began where `d` did ends. */
  ghost predicate Attached(cfg: Config, s: System, steps: seq<Step>, d: Dl)
    requires Legal(cfg, s, steps)
    decreases |steps|
  {
    s.item.attached &&
    (steps == [] ||
     ((steps[0].DlEnd? && steps[0].i < |s.group.dls| ==> s.group.dls[steps[0].i].start != d.start)
      && Attached(cfg, Apply(cfg, s, steps[0]), steps[1..], d)))
  }

  lemma FullTracked(cfg: Config, s: System)
    requires Full(cfg, s)
    ensures Tracked(cfg, s)
  {
    forall d | d in s.group.dls ensures DlOk(|cfg.remote|, d) {
      var i :| 0 <= i < |s.group.dls| && s.group.dls[i] == d;
      assert Covered(s.group.dls[i], s.item.rs, |cfg.remote|);
    }
    forall h | h in s.handles ensures Asking(s.handles[h]) {
      assert PhaseOk(|cfg.remote|, s.item, s.handles[h]);
    }
  }

  lemma StepSpares(cfg: Config, s: System, step: Step, d: Dl)
    requires Full(cfg, s) && Enabled(cfg, s, step) && !Disturbs(cfg, s, step) && s.item.attached
    requires step.DlEnd? && step.i < |s.group.dls| ==> s.group.dls[step.i].start != d.start
    ensures Spares(s, step, d)
  {
    UndoingAlone(|cfg.remote|, s);
    assert step.OpenGivesUp? ==> SomeUndoing(s.handles);
    assert step.ReadReturn? ==> PhaseOk(|cfg.remote|, s.item, s.handles[step.h]);
  }

  /**
   In a steady run attached downloads lose nothing: whoever is served gets his range
   (`ServedGetsItsRange`) as long as the downloads stay attached and his does not end.
   */
  lemma {:induction false} SteadySpares(cfg: Config, s: System, steps: seq<Step>, d: Dl)
    requires Full(cfg, s) && Legal(cfg, s, steps) && Steady(cfg, s, steps) && Attached(cfg, s, steps, d)
    ensures Tracked(cfg, s) && Undisturbed(cfg, s, steps, d)
    decreases |steps|
  {
    FullTracked(cfg, s);
    if steps != [] {
      StepSpares(cfg, s, steps[0], d);
      StepKeepsFull(cfg, s, steps[0]);
      SteadySpares(cfg, Apply(cfg, s, steps[0]), steps[1..], d);
    }
  }

  // ---------- Reads that succeed ----------

  /**
   Over every steady run, a thread that was let through and whose handle is not closed reads
   exactly what the remote holds there, whatever becomes of an attempt to size the file.
   */
  lemma ReadReturnsExactly(cfg: Config, s0: System, steps: seq<Step>, h: nat, check: CheckFault)
    requires Start(cfg, s0) && Fresh(cfg, s0) && Legal(cfg, s0, steps) && Steady(cfg, s0, steps)
    requires var s := Exec(cfg, s0, steps); h in s.handles && LetThrough(s.handles[h])
    ensures var s := Exec(cfg, s0, steps);
            var p := s.handles[h];
            Apply(cfg, s, ReadReturn(h, check)).log ==
            s.log + if s.item.fd.NoFd? then [] else [ReadResult(p.off, p.len, Slice(cfg.remote, p.off, p.len))]
  {
    FreshFull(cfg, s0);
    StartSound(cfg, s0);
    SteadyKeepsFull(cfg, s0, steps);
    SteadyIsCalm(cfg, s0, steps);
    CalmKeepsSound(cfg, s0, steps);
    LetThroughReads(cfg, Exec(cfg, s0, steps), h, check);
  }

  lemma LetThroughReads(cfg: Config, s: System, h: nat, check: CheckFault)
    requires Full(cfg, s) && Sound(cfg, s) && h in s.handles && LetThrough(s.handles[h])
    ensures var p := s.handles[h];
            var s' := ApplyReturn(s, h, ReadFinish(s.item, |cfg.remote|, p.off, p.len, check));
            && s'.item == s.item
            && s'.log == s.log + if s.item.fd.NoFd? then []
                                 else [ReadResult(p.off, p.len, Slice(cfg.remote, p.off, p.len))]
  {
    var p := s.handles[h];
    assert PhaseOk(|cfg.remote|, s.item, p) && ReaderOk(cfg.remote, s.item, p);
    Counted(s.item, s.handles, h);
    ReadFailsIff(s.item, |cfg.remote|, p.off, p.len, check);
    if !s.item.fd.NoFd? {
      SliceGood(cfg.remote, s.item, p.off, p.len);
    }
    assert s.log + [] == s.log;
  }

  // ---------- Errors over a run ----------

  /** How the downloads ended in these steps. */
  function Ends(steps: seq<Step>): seq<Ended> {
    if steps == [] then []
    else
      (if steps[0].DlEnd? then [Ended(steps[0].downloaded, steps[0].err)] else []) + Ends(steps[1..])
  }

  /** The downloads stay attached all along. */
  ghost predicate StaysAttached(cfg: Config, s: System, steps: seq<Step>)
    requires Legal(cfg, s, steps)
    decreases |steps|
  {
    s.item.attached && (steps == [] || StaysAttached(cfg, Apply(cfg, s, steps[0]), steps[1..]))
  }

  predicate SameBooks(g: Group, g': Group) { g'.errorCount == g.errorCount && g'.lastErr == g.lastErr }

  /** Only the end of a download changes the books. */
  lemma StepCounts(cfg: Config, s: System, step: Step)
    requires Full(cfg, s) && Enabled(cfg, s, step) && !Disturbs(cfg, s, step) && !Unsized(step)
    requires s.item.attached && Apply(cfg, s, step).item.attached
    ensures var g' := Apply(cfg, s, step).group;
            SameBooks(g', if step.DlEnd? then CountErrors(s.group, step.downloaded, step.err) else s.group)
  {
    if step.DlEnd? || step.DlStop? || step.DlWrite? || step.StrayWrite? {
    } else {
      StepCountsNone(cfg, s, step);
    }
  }

  lemma StepCountsNone(cfg: Config, s: System, step: Step)
    requires Full(cfg, s) && Enabled(cfg, s, step) && !Disturbs(cfg, s, step) && !Unsized(step)
    requires !step.DlEnd? && !step.DlStop? && !step.DlWrite? && !step.StrayWrite?
    requires s.item.attached && Apply(cfg, s, step).item.attached
    ensures SameBooks(Apply(cfg, s, step).group, s.group)
  {
    if step.ReadEnsure? {
      AskCountsNone(cfg, s, step.h);
    } else if step.KickAll? {
      KickCountsNone(cfg, s);
    } else {
      StepSpares(cfg, s, step, NewDl(Range(0, 0)));
      if step.OpenRun? {
        Counted(s.item, s.handles, step.h);
        OpenGoesOn(cfg, s, step);
      } else {
        OthersGoOn(cfg, s, step);
      }
    }
  }

  lemma AskCountsNone(cfg: Config, s: System, h: nat)
    requires Full(cfg, s) && Enabled(cfg, s, ReadEnsure(h)) && s.item.attached
    ensures SameBooks(Apply(cfg, s, ReadEnsure(h)).group, s.group)
  {
    assert PhaseOk(|cfg.remote|, s.item, s.handles[h]);
    EnsureKeepsCovered(s.group, s.item.rs, |cfg.remote|, cfg.readAhead, s.handles[h].r);
  }

  lemma KickCountsNone(cfg: Config, s: System)
    requires Full(cfg, s) && Enabled(cfg, s, KickAll)
    ensures SameBooks(Apply(cfg, s, KickAll).group, s.group)
  {
    WaitersRead(cfg, s);
    if s.group.waiters != [] {
      var g1 := s.group.(waiters := Remaining(s.group.waiters, s.item.rs, |cfg.remote|));
      EnsureEachQuiet(g1, s.item.rs, |cfg.remote|, cfg.readAhead, g1.waiters);
    }
  }

  lemma {:induction false} EndsCons(g: Group, g1: Group, e: seq<Ended>, rest: seq<Ended>)
    requires |e| <= 1 && SameBooks(g1, AfterEnds(g, e))
    ensures SameBooks(AfterEnds(g1, rest), AfterEnds(g, e + rest))
    decreases |rest|
  {
    if rest == [] {
      assert e + rest == e;
    } else {
      var n := |rest| - 1;
      EndsCons(g, g1, e, rest[..n]);
      assert (e + rest)[..|e| + n] == e + rest[..n];
    }
  }

  /** Over a steady run with the downloads attached, the books are what the ends of the downloads make of them. */
  lemma {:induction false} RunCounts(cfg: Config, s: System, steps: seq<Step>)
    requires Full(cfg, s) && Legal(cfg, s, steps) && Steady(cfg, s, steps) && StaysAttached(cfg, s, steps)
    ensures SameBooks(Exec(cfg, s, steps).group, AfterEnds(s.group, Ends(steps)))
    decreases |steps|
  {
    if steps != [] {
      var s1 := Apply(cfg, s, steps[0]);
      assert s1.item.attached;
      StepCounts(cfg, s, steps[0]);
      StepKeepsFull(cfg, s, steps[0]);
      RunCounts(cfg, s1, steps[1..]);
      var e := if steps[0].DlEnd? then [Ended(steps[0].downloaded, steps[0].err)] else [];
      EndsCons(s.group, s1.group, e, Ends(steps[1..]));
    }
  }

  /**
   When more than ten downloads have failed since the last one that brought something, the
   next kick leaves nobody waiting: who is not served by then gets the error.
   */
  lemma FailuresFreeWaiters(cfg: Config, s: System, steps: seq<Step>, k: nat)
    requires Full(cfg, s) && Legal(cfg, s, steps) && Steady(cfg, s, steps) && StaysAttached(cfg, s, steps)
    requires s.group.errorCount == 0 && s.group.lastErr == None
    requires SinceSuccess(Ends(steps), k) && |Failures(Ends(steps), k)| > 10
    ensures var s1 := Exec(cfg, s, steps);
            Enabled(cfg, s1, KickAll) && NoneWaiting(Apply(cfg, s1, KickAll).handles)
  {
    RunCounts(cfg, s, steps);
    ErrorsCounted(s.group, Ends(steps), k);
    SteadyKeepsFull(cfg, s, steps);
    EndsAttached(cfg, s, steps);
    KickFrees(cfg, Exec(cfg, s, steps));
  }

  lemma {:induction false} EndsAttached(cfg: Config, s: System, steps: seq<Step>)
    requires Legal(cfg, s, steps) && StaysAttached(cfg, s, steps)
    ensures Exec(cfg, s, steps).item.attached
    decreases |steps|
  {
    if steps != [] {
      EndsAttached(cfg, Apply(cfg, s, steps[0]), steps[1..]);
    }
  }

  lemma KickEmpties(cfg: Config, s: System)
    requires Full(cfg, s) && s.item.attached && GivesUp(s.group)
    ensures Apply(cfg, s, KickAll).group.waiters == []
  {
    KickCountsNone(cfg, s);
    KickAnswers(s.group, s.item.rs, s.item.size, |cfg.remote|, cfg.readAhead);
  }

  lemma EmptyQueue(s: System)
    requires Core(s) && s.group.waiters == []
    ensures NoneWaiting(s.handles)
  {
  }

  lemma KickFrees(cfg: Config, s: System)
    requires Full(cfg, s) && s.item.attached && GivesUp(s.group)
    ensures NoneWaiting(Apply(cfg, s, KickAll).handles)
  {
    StepKeepsCore(cfg, s, KickAll);
    KickEmpties(cfg, s);
    EmptyQueue(Apply(cfg, s, KickAll));
  }
}
