/**
 The cache works: whole runs without failures, from an item at rest through an open, a read
 of any part and a close, back to rest, and a reset under an open handle.
 */
module CacheLife {
  import opened CacheAgreement
  import opened CacheCore
  import opened CacheHarm
  import opened CacheItem
  import opened CacheMachine
  import opened CacheQueue
  import opened CacheService
  import opened CacheStranded
  import opened DownloadGroup
  import opened PlainReader
  import opened Ranges
  import opened Wrappers

  /** Everything there is to know about a state that a steady run leads to. */
  ghost predicate Well(cfg: Config, s: System) { Full(cfg, s) && Sound(cfg, s) }

  lemma StepKeepsWell(cfg: Config, s: System, step: Step)
    requires Well(cfg, s) && Enabled(cfg, s, step) && !Disturbs(cfg, s, step)
    requires !Unsized(step) && !Harmful(cfg, s, step)
    ensures Well(cfg, Apply(cfg, s, step))
  {
    StepKeepsFull(cfg, s, step);
    StepKeepsSound(cfg, s, step);
  }

  // ---------- Opening ----------

  /** The item is held by one handle, which is at `p`, and nothing else is going on. */
  ghost predicate Held(cfg: Config, s: System, h: nat, p: Phase) {
    && Well(cfg, s) && s.handles == map[h := p] && s.item.fd.OnPath? && s.item.attached && s.item.opens == 1
    && !s.item.grace && s.graceWindows == 0 && CleanerFree(s) && s.item.size == |cfg.remote|
  }

  /** A first open goes through. */
  lemma Opens(cfg: Config, s: System, h: nat) returns (steps: seq<Step>)
    requires Start(cfg, s) && Fresh(cfg, s)
    ensures steps == [OpenEnter(h), OpenRun(h, None, Fine, None), Leave(h)] && Legal(cfg, s, steps)
    ensures var s' := Exec(cfg, s, steps);
            && Held(cfg, s', h, Idle) && s'.group == NO_GROUP && !s'.item.beingReset && s'.log == [] && s'.inCache
            && (s.item.disk.Some? ==> s'.item.rs == s.item.rs && s'.item.disk == s.item.disk)
  {
    FreshFull(cfg, s);
    StartSound(cfg, s);
    var s1 := SetPhase(s, h, Opening).(item := s.item.(pending := 1));
    StepKeepsWell(cfg, s, OpenEnter(h));
    var s2 := OpensItem(cfg, s1, h);
    StepKeepsWell(cfg, s1, OpenRun(h, None, Fine, None));
    var s3 := Apply(cfg, s2, Leave(h));
    StepKeepsWell(cfg, s2, Leave(h));
    assert s3.handles == map[h := Idle];
    steps := Prepend(cfg, s2, Leave(h), s3, []);
    steps := Prepend(cfg, s1, OpenRun(h, None, Fine, None), s2, steps);
    steps := Prepend(cfg, s, OpenEnter(h), s1, steps);
  }

  lemma OpensItem(cfg: Config, s: System, h: nat) returns (s': System)
    requires Well(cfg, s) && s.handles == map[h := Opening]
    requires s.item.fd.NoFd? && s.item.opens == 0 && s.item.pending == 1
    requires !s.item.grace && !s.item.attached && !s.item.dirty
    requires !s.item.beingReset && s.group == NO_GROUP && CleanerFree(s)
    ensures s' == Apply(cfg, s, OpenRun(h, None, Fine, None))
    ensures s'.handles == map[h := Leaving(true)] && s'.group == NO_GROUP && s'.removal == s.removal && s'.log == s.log
    ensures s'.resetting == s.resetting && s'.graceWindows == s.graceWindows && s'.inCache
    ensures var it := s'.item;
            && it.fd.OnPath? && it.attached && it.opens == 1 && it.pending == 1 && !it.grace && !it.beingReset
            && it.size == |cfg.remote| && (s.item.disk.Some? ==> it.rs == s.item.rs && it.disk == s.item.disk)
  {
    var total := |cfg.remote|;
    var outcome := OpenBody(s.item, total, None, Fine, None);
    CheckKeeps(total, s.item, Fine);
    OpenFailsIff(s.item, total, OpenFaults(None, Fine, None));
    if s.item.disk.Some? {
      OpenExisting(s.item, total);
    }
    s' := ApplyOpen(s, h, outcome);
  }

  // ---------- Reading ----------

  /** The read of the handle is over, and its result is the last one. */
  ghost predicate ReadOver(cfg: Config, s: System, s': System, h: nat, off: nat, len: nat) {
    Held(cfg, s', h, Leaving(true)) && s'.log == s.log + [ReadResult(off, len, Slice(cfg.remote, off, len))]
  }

  /** A read that nobody disturbs returns the remote's bytes, from the file or after a download. */
  lemma Reads(cfg: Config, s: System, h: nat, off: nat, len: nat) returns (steps: seq<Step>)
    requires Held(cfg, s, h, Idle) && s.group == NO_GROUP && !s.item.beingReset
    ensures Legal(cfg, s, steps) && ReadOver(cfg, s, Exec(cfg, s, steps), h, off, len)
  {
    var r := Range(off, Min(len, s.item.size - off));
    var s1 := Apply(cfg, s, ReadEnter(h, off, len));
    StepKeepsWell(cfg, s, ReadEnter(h, off, len));
    assert s1.handles == map[h := Entered(off, len)];
    ReadBodyExact(s1.item, off, len);
    var s2, present := LooksFor(cfg, s1, h, off, len);
    if present {
      steps := ReadsPresent(cfg, s2, h, off, len, r);
    } else {
      steps := ReadsAbsent(cfg, s2, h, off, len, r);
    }
    steps := Prepend(cfg, s1, ReadLook(h), s2, steps);
    steps := Prepend(cfg, s, ReadEnter(h, off, len), s1, steps);
  }

  lemma LooksFor(cfg: Config, s: System, h: nat, off: nat, len: nat) returns (s': System, present: bool)
    requires Held(cfg, s, h, Entered(off, len)) && s.group == NO_GROUP
    ensures s' == Apply(cfg, s, ReadLook(h)) && Enabled(cfg, s, ReadLook(h)) && s'.group == NO_GROUP && s'.log == s.log
    ensures Held(cfg, s', h, Ensuring(off, len, Range(off, Min(len, s.item.size - off)), present))
  {
    var r := Range(off, Min(len, s.item.size - off));
    StepKeepsWell(cfg, s, ReadLook(h));
    s' := ApplyLook(s, h, ReadBody(s.item, off, len));
    present := Present(s.item.rs, r);
    assert s'.handles == map[h := Ensuring(off, len, r, present)];
  }

  lemma Asking(cfg: Config, s: System, h: nat, off: nat, len: nat, r: Range, present: bool)
    requires Held(cfg, s, h, Ensuring(off, len, r, present)) && s.group == NO_GROUP
    ensures 0 <= r.pos && r.End() <= |cfg.remote| && Asked(cfg, s, r).0 == None
  {
    assert PhaseOk(|cfg.remote|, s.item, s.handles[h]);
    EnsureKeepsCovered(NO_GROUP, s.item.rs, |cfg.remote|, cfg.readAhead, r);
  }

  /** The request for a range keeps the item; only where the range is missing it makes the thread wait. */
  lemma Asks(cfg: Config, s: System, h: nat, off: nat, len: nat, r: Range, present: bool) returns (s': System)
    requires Held(cfg, s, h, Ensuring(off, len, r, present)) && s.group == NO_GROUP
    ensures s' == Apply(cfg, s, ReadEnsure(h)) && Enabled(cfg, s, ReadEnsure(h)) && s'.item == s.item && s'.log == s.log
    ensures Held(cfg, s', h, if present then Resumed(off, len, r, true) else Waiting(off, len, r))
    ensures s'.group.dls == Asked(cfg, s, r).1.dls && 0 <= r.pos && r.End() <= |cfg.remote|
  {
    Asking(cfg, s, h, off, len, r, present);
    StepKeepsWell(cfg, s, ReadEnsure(h));
    s' := ApplyEnsure(s, h, Asked(cfg, s, r));
    assert s'.handles == map[h := if present then Resumed(off, len, r, true) else Waiting(off, len, r)];
  }

  lemma ReadsPresent(cfg: Config, s: System, h: nat, off: nat, len: nat, r: Range) returns (steps: seq<Step>)
    requires Held(cfg, s, h, Ensuring(off, len, r, true)) && s.group == NO_GROUP
    ensures Legal(cfg, s, steps) && ReadOver(cfg, s, Exec(cfg, s, steps), h, off, len)
  {
    var s1 := Asks(cfg, s, h, off, len, r, true);
    steps := Returns(cfg, s1, h, off, len, r);
    steps := Prepend(cfg, s, ReadEnsure(h), s1, steps);
  }

  lemma Returns(cfg: Config, s: System, h: nat, off: nat, len: nat, r: Range) returns (steps: seq<Step>)
    requires Held(cfg, s, h, Resumed(off, len, r, true))
    ensures Legal(cfg, s, steps) && ReadOver(cfg, s, Exec(cfg, s, steps), h, off, len)
  {
    LetThroughReads(cfg, s, h, Fine);
    StepKeepsWell(cfg, s, ReadReturn(h, Fine));
    var s1 := ApplyReturn(s, h, ReadFinish(s.item, |cfg.remote|, off, len, Fine));
    assert s1.handles == map[h := Leaving(true)];
    steps := Prepend(cfg, s, ReadReturn(h, Fine), s1, []);
  }

  /** The first download, for a range that is not all there, leads from its first missing byte to its end. */
  lemma DownloadStarts(rs: seq<Range>, total: nat, readAhead: nat, r: Range) returns (m: Range)
    requires Canonical(rs) && 0 <= r.pos && r.End() <= total && !Present(rs, r)
    ensures Ensure(NO_GROUP, rs, total, total, readAhead, r) == (None, Group([NewDl(m)], [], 0, None))
    ensures 0 < m.size && 0 <= m.pos && m.End() <= total && forall x :: r.Has(x) ==> Covers(rs, x) || m.Has(x)
  {
    PresentExact(rs, r);
    var ahead := AheadOf(r, readAhead);
    m := Missing(rs, total, ahead);
    MissingExact(rs, total, ahead);
    assert forall x :: r.Has(x) ==> ahead.Has(x);
    ObtainFirst(m, total);
  }

  lemma ReadsAbsent(cfg: Config, s: System, h: nat, off: nat, len: nat, r: Range) returns (steps: seq<Step>)
    requires Held(cfg, s, h, Ensuring(off, len, r, false)) && s.group == NO_GROUP
    ensures Legal(cfg, s, steps) && ReadOver(cfg, s, Exec(cfg, s, steps), h, off, len)
  {
    var s1 := Asks(cfg, s, h, off, len, r, false);
    if Present(s1.item.rs, r.Clip(|cfg.remote|)) {
      steps := KicksAndReturns(cfg, s1, h, off, len, r);
    } else {
      var m := DownloadStarts(s.item.rs, |cfg.remote|, cfg.readAhead, r);
      steps := Downloads(cfg, s1, h, off, len, r, m);
    }
    steps := Prepend(cfg, s, ReadEnsure(h), s1, steps);
  }

  lemma Downloads(cfg: Config, s: System, h: nat, off: nat, len: nat, r: Range, m: Range) returns (steps: seq<Step>)
    requires Held(cfg, s, h, Waiting(off, len, r)) && s.group.dls == [NewDl(m)]
    requires 0 < m.size && 0 <= m.pos && m.End() <= |cfg.remote|
    requires forall x :: r.Has(x) ==> Covers(s.item.rs, x) || m.Has(x)
    ensures Legal(cfg, s, steps) && ReadOver(cfg, s, Exec(cfg, s, steps), h, off, len)
  {
    var n: nat := m.size;
    StepKeepsWell(cfg, s, DlWrite(0, n, n));
    WrittenIs(cfg, s.item, NewDl(m), n, n);
    var s1 := Apply(cfg, s, DlWrite(0, n, n));
    PresentExact(s1.item.rs, r.Clip(|cfg.remote|));
    steps := KicksAndReturns(cfg, s1, h, off, len, r);
    steps := Prepend(cfg, s, DlWrite(0, n, n), s1, steps);
  }

  lemma KicksAndReturns(cfg: Config, s: System, h: nat, off: nat, len: nat, r: Range) returns (steps: seq<Step>)
    requires Held(cfg, s, h, Waiting(off, len, r)) && Present(s.item.rs, r.Clip(|cfg.remote|))
    ensures Legal(cfg, s, steps) && ReadOver(cfg, s, Exec(cfg, s, steps), h, off, len)
  {
    var s1 := LetsThrough(cfg, s, h, off, len, r);
    steps := Returns(cfg, s1, h, off, len, r);
    steps := Prepend(cfg, s, KickAll, s1, steps);
  }

  lemma LetsThrough(cfg: Config, s: System, h: nat, off: nat, len: nat, r: Range) returns (s': System)
    requires Held(cfg, s, h, Waiting(off, len, r)) && Present(s.item.rs, r.Clip(|cfg.remote|))
    ensures Enabled(cfg, s, KickAll) && s' == Apply(cfg, s, KickAll) && s'.log == s.log
    ensures Held(cfg, s', h, Resumed(off, len, r, true))
  {
    StepKeepsWell(cfg, s, KickAll);
    var kicked := Kick(s.group, s.item.rs, s.item.size, |cfg.remote|, cfg.readAhead);
    TellsOne(s.group, s.item.rs, s.item.size, |cfg.remote|, cfg.readAhead, s.handles, h, off, len, r);
    s' := ApplyKick(s, kicked);
  }

  lemma TellsOne(g: Group, rs: seq<Range>, size: int, total: nat, readAhead: nat, handles: map<nat, Phase>, h: nat,
                 off: nat, len: nat, r: Range)
    requires ErrorsKnown(g) && QueueOk(g.waiters, handles) && handles == map[h := Waiting(off, len, r)]
    requires Present(rs, r.Clip(total))
    ensures Deliver(handles, Kick(g, rs, size, total, readAhead).0) == map[h := Resumed(off, len, r, true)]
  {
    KickTells(g, rs, size, total, readAhead, handles, h);
    DeliverOne(handles, h, Kick(g, rs, size, total, readAhead).0);
  }

  lemma DeliverOne(handles: map<nat, Phase>, h: nat, answers: seq<Answer>)
    requires handles.Keys == {h}
    ensures Deliver(handles, answers) == map[h := Deliver(handles, answers)[h]]
  {
  }

  // ---------- Closing ----------

  /** Nobody holds the item any more. */
  ghost predicate Released(s: System) {
    && s.handles == map[] && s.item.opens == 0 && s.item.pending == 0 && !s.item.attached && s.item.fd.NoFd?
    && !s.item.grace && !s.item.beingReset && s.group == NO_GROUP && s.item.disk.Some?
  }

  /** A last close goes through, after the grace period if there is one; what is present stays. */
  lemma Closes(cfg: Config, s: System, h: nat) returns (steps: seq<Step>)
    requires Held(cfg, s, h, Idle) && !s.item.beingReset
    ensures Legal(cfg, s, steps)
    ensures var s' := Exec(cfg, s, steps);
            Released(s') && s'.item.rs == s.item.rs && s'.item.disk == s.item.disk && s'.log == s.log
  {
    var s1 := Apply(cfg, s, CloseEnter(h));
    StepKeepsWell(cfg, s, CloseEnter(h));
    assert s1.handles == map[h := ClosingStart];
    var s2 := ClosesItem(cfg, s1, h);
    if cfg.handleCaching {
      steps := LeavesInGrace(cfg, s2, h);
    } else {
      steps := LeavesClosed(cfg, s2, h);
    }
    steps := Prepend(cfg, s1, CloseRun(h), s2, steps);
    steps := Prepend(cfg, s, CloseEnter(h), s1, steps);
  }

  /** What Close does to a clean item that was opened once. */
  lemma ClosesItem(cfg: Config, s: System, h: nat) returns (s': System)
    requires Held(cfg, s, h, ClosingStart)
    ensures s' == Apply(cfg, s, CloseRun(h)) && Enabled(cfg, s, CloseRun(h)) && Well(cfg, s')
    ensures s'.graceWindows == s.graceWindows && s'.log == s.log
    ensures s'.item.rs == s.item.rs && s'.item.disk == s.item.disk && s'.item.opens == 0 && s'.item.fd.OnPath?
    ensures s'.item.pending == s.item.pending && s'.item.beingReset == s.item.beingReset
    ensures if cfg.handleCaching then s'.item.grace && s'.handles == map[h := Leaving(false)]
            else !s'.item.grace && !s'.item.attached && s'.handles == map[h := ClosingWindow]
  {
    StepKeepsWell(cfg, s, CloseRun(h));
    var outcome := CloseBody(s.item, |cfg.remote|, cfg.handleCaching);
    assert NoneWaiting(s.handles);
    SettleQuiet(s, outcome.1);
    s' := ApplyClose(s, h, outcome);
    assert s'.handles == map[h := if cfg.handleCaching then Leaving(false) else ClosingWindow];
  }

  lemma LeavesClosed(cfg: Config, s: System, h: nat) returns (steps: seq<Step>)
    requires Well(cfg, s) && s.handles == map[h := ClosingWindow]
    requires s.item.opens == 0 && s.item.pending == 1 && s.item.fd.OnPath?
    requires !s.item.grace && !s.item.attached && !s.item.beingReset
    ensures Legal(cfg, s, steps)
    ensures var s' := Exec(cfg, s, steps);
            Released(s') && s'.item.rs == s.item.rs && s'.item.disk == s.item.disk && s'.log == s.log
  {
    var s1 := SetPhase(s, h, Leaving(false)).(item := s.item.(fd := NoFd));
    var s2 := s1.(item := s1.item.(pending := 0), handles := s1.handles - {h});
    assert s2.handles == map[];
    steps := Prepend(cfg, s1, Leave(h), s2, []);
    steps := Prepend(cfg, s, CloseDone(h), s1, steps);
  }

  lemma LeavesInGrace(cfg: Config, s: System, h: nat) returns (steps: seq<Step>)
    requires Well(cfg, s) && s.handles == map[h := Leaving(false)]
    requires s.item.opens == 0 && s.item.pending == 1 && s.item.fd.OnPath?
    requires s.item.grace && !s.item.beingReset && s.graceWindows == 0
    ensures Legal(cfg, s, steps)
    ensures var s' := Exec(cfg, s, steps);
            Released(s') && s'.item.rs == s.item.rs && s'.item.disk == s.item.disk && s'.log == s.log
  {
    var s1 := s.(item := s.item.(pending := 0), handles := s.handles - {h});
    assert s1.handles == map[];
    StepKeepsWell(cfg, s, Leave(h));
    var outcome := GraceBody(s1.item, |cfg.remote|);
    SettleQuiet(s1, outcome.1);
    var s2 := ApplyGrace(s1, outcome);
    StepKeepsWell(cfg, s1, GraceFires);
    var s3 := s2.(item := s2.item.(fd := NoFd), graceWindows := 0);
    steps := Prepend(cfg, s2, GraceDone, s3, []);
    steps := Prepend(cfg, s1, GraceFires, s2, steps);
    steps := Prepend(cfg, s, Leave(h), s1, steps);
  }

  // ---------- Whole lives ----------

  /** After the read the handle is idle again. */
  lemma LeavesOpen(cfg: Config, s: System, h: nat) returns (s': System)
    requires Held(cfg, s, h, Leaving(true))
    ensures Enabled(cfg, s, Leave(h)) && s' == Apply(cfg, s, Leave(h))
    ensures Held(cfg, s', h, Idle) && !s'.item.beingReset && s'.log == s.log
  {
    Counted(s.item, s.handles, h);
    StepKeepsWell(cfg, s, Leave(h));
    s' := Apply(cfg, s, Leave(h));
    assert s'.handles == map[h := Idle];
  }

  /** Read, and close. */
  lemma ReadsAndCloses(cfg: Config, s: System, h: nat, off: nat, len: nat) returns (steps: seq<Step>)
    requires Held(cfg, s, h, Idle) && s.group == NO_GROUP && !s.item.beingReset
    ensures Legal(cfg, s, steps) && Released(Exec(cfg, s, steps))
    ensures Exec(cfg, s, steps).log == s.log + [ReadResult(off, len, Slice(cfg.remote, off, len))]
  {
    var read := Reads(cfg, s, h, off, len);
    var s1 := Exec(cfg, s, read);
    var s2 := LeavesOpen(cfg, s1, h);
    var closes := Closes(cfg, s2, h);
    closes := Prepend(cfg, s1, Leave(h), s2, closes);
    Append(cfg, s, read, closes);
    steps := read + closes;
  }

  /**
   From any item at rest, with a file or without, one handle can open it, read any part and
   close it: the read returns exactly what the remote holds there, and the item is at rest again.
   */
  lemma OpenReadClose(cfg: Config, s: System, h: nat, off: nat, len: nat) returns (steps: seq<Step>)
    requires Start(cfg, s) && Fresh(cfg, s)
    ensures Legal(cfg, s, steps) && Released(Exec(cfg, s, steps))
    ensures Exec(cfg, s, steps).log == [ReadResult(off, len, Slice(cfg.remote, off, len))]
  {
    var opens := Opens(cfg, s, h);
    var s1 := Exec(cfg, s, opens);
    var rest := ReadsAndCloses(cfg, s1, h, off, len);
    Append(cfg, s, opens, rest);
    steps := opens + rest;
    var result := ReadResult(off, len, Slice(cfg.remote, off, len));
    assert [] + [result] == [result];
  }

  /** A reset under an idle handle goes through, and the handle reads on as from a new item. */
  lemma ResetThenRead(cfg: Config, s: System, h: nat, off: nat, len: nat) returns (steps: seq<Step>)
    requires Held(cfg, s, h, Idle) && !s.item.beingReset && s.inCache && DiskSize(s.item) > 0
    ensures Legal(cfg, s, steps) && |steps| > 2 && steps[..2] == [ResetStart(false), ResetStop(None, Fine, None)]
    ensures Released(Exec(cfg, s, steps))
    ensures Exec(cfg, s, steps).log == s.log + [ReadResult(off, len, Slice(cfg.remote, off, len))]
  {
    var s1, s2 := Resets(cfg, s, h);
    var rest := ReadsAndCloses(cfg, s2, h, off, len);
    steps := Prepend(cfg, s1, ResetStop(None, Fine, None), s2, rest);
    steps := Prepend(cfg, s, ResetStart(false), s1, steps);
    assert rest != [];
  }

  lemma Resets(cfg: Config, s: System, h: nat) returns (s1: System, s2: System)
    requires Held(cfg, s, h, Idle) && !s.item.beingReset && s.inCache && DiskSize(s.item) > 0
    ensures Enabled(cfg, s, ResetStart(false)) && s1 == Apply(cfg, s, ResetStart(false))
    ensures Enabled(cfg, s1, ResetStop(None, Fine, None)) && s2 == Apply(cfg, s1, ResetStop(None, Fine, None))
    ensures Held(cfg, s2, h, Idle) && !s2.item.beingReset && s2.group == NO_GROUP && s2.item.rs == [] && s2.log == s.log
  {
    StepKeepsWell(cfg, s, ResetStart(false));
    assert Accessors(s.handles) == {};
    SettleQuiet(s, ResetBegin(s.item).2);
    s1 := ApplyResetStart(s, false, ResetBegin(s.item));
    StepKeepsWell(cfg, s1, ResetStop(None, Fine, None));
    ResetOutcome(s1.item, |cfg.remote|, None, Fine, None);
    var (_, err, _, item) := ResetEnd(s1.item, |cfg.remote|, None, Fine, None);
    s2 := ApplyResetStop(s1, err, item);
  }

  /** An open whose creation fails is undone: nothing is left of it, and the item is as one never seen. */
  lemma FailedOpenUndone(cfg: Config, s: System, h: nat, e: Error) returns (steps: seq<Step>)
    requires Start(cfg, s) && Fresh(cfg, s)
    ensures steps == [OpenEnter(h), OpenRun(h, None, Fine, Some(e)), OpenGivesUp(h), Leave(h)] && Legal(cfg, s, steps)
    ensures var s' := Exec(cfg, s, steps); Start(cfg, s') && Fresh(cfg, s') && s'.item.disk.None? && s'.item.rs == []
  {
    FreshFull(cfg, s);
    StartSound(cfg, s);
    var s1 := SetPhase(s, h, Opening).(item := s.item.(pending := 1));
    var s2 := FailsToCreate(cfg, s1, h, e);
    var s3 := SetPhase(s2, h, Leaving(false)).(item := OpenUndo(s2.item));
    var s4 := s3.(item := s3.item.(pending := 0), handles := s3.handles - {h});
    assert s4.handles == map[];
    assert forall x :: !Covers([], x);
    steps := Prepend(cfg, s3, Leave(h), s4, []);
    steps := Prepend(cfg, s2, OpenGivesUp(h), s3, steps);
    steps := Prepend(cfg, s1, OpenRun(h, None, Fine, Some(e)), s2, steps);
    steps := Prepend(cfg, s, OpenEnter(h), s1, steps);
  }

  lemma FailsToCreate(cfg: Config, s: System, h: nat, e: Error) returns (s': System)
    requires s.handles == map[h := Opening] && s.item.fd.NoFd? && s.item.opens == 0
    requires !s.item.grace && !s.item.attached && !s.item.dirty && s.group == NO_GROUP
    ensures s' == Apply(cfg, s, OpenRun(h, None, Fine, Some(e)))
    ensures s' == s.(handles := map[h := Undoing], item := s'.item)
    ensures s'.item.opens == 1 && s'.item.fd.NoFd?
    ensures s'.item.pending == s.item.pending && !s'.item.dirty && !s'.item.grace
    ensures !s'.item.attached && s'.item.beingReset == s.item.beingReset
  {
    var outcome := OpenBody(s.item, |cfg.remote|, None, Fine, Some(e));
    OpenFailsIff(s.item, |cfg.remote|, OpenFaults(None, Fine, Some(e)));
    OpenFailsIff(s.item, |cfg.remote|, OpenFaults(None, Fine, None));
    s' := ApplyOpen(s, h, outcome);
    assert s'.handles == map[h := Undoing];
  }

  /** A read before the start of the file is at its end at once. */
  lemma NegativeOffset(cfg: Config, s: System, h: nat)
    requires h in s.handles && s.handles[h].Entered? && s.handles[h].at < 0 && !s.item.fd.NoFd?
    ensures var s', p := Apply(cfg, s, ReadLook(h)), s.handles[h];
            && s'.handles == s.handles[h := Leaving(true)] && s'.item == s.item
            && s'.log == s.log + [ReadResult(p.at, p.len, [])]
  {
  }

  /** An eviction that nobody disturbs takes the file and the entry with it. */
  lemma EvictionGoes(cfg: Config, s: System)
    requires Start(cfg, s) && Fresh(cfg, s) && s.inCache
    ensures var steps := [Evict(true, false), RemoveDone];
            && Legal(cfg, s, steps)
            && var s' := Exec(cfg, s, steps);
               !s'.inCache && s'.item.disk.None? && s'.item.rs == [] && Start(cfg, s') && Fresh(cfg, s')
  {
    var s1 := s.(removal := Decided(false, false));
    assert forall x :: !Covers([], x);
    var steps := Prepend(cfg, s1, RemoveDone, ApplyRemoval(s1), []);
    steps := Prepend(cfg, s, Evict(true, false), s1, steps);
  }

  /** One in whose gap the item is opened leaves the entry: the open puts it back. */
  lemma ReopenedStays(cfg: Config, s: System, h: nat, k: nat)
    requires AtRest(s) && s.inCache && s.item.disk.Some? && h != k
    ensures var steps := TwoOpens(h, k) + [RemoveDone];
            Legal(cfg, s, steps) && Exec(cfg, s, steps).inCache
  {
    TwoOpened(cfg, s, h, k);
    var s1 := OpenedTwice(s, h, k);
    var steps := Prepend(cfg, s1, RemoveDone, ApplyRemoval(s1), []);
    assert steps == [RemoveDone];
    Append(cfg, s, TwoOpens(h, k), steps);
  }
}
