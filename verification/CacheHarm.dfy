/**
 When reads do not agree with the remote: the runs, and exactly which states they start from.

 An open handle is harmed when some byte at or behind the size its item believes in is not
 the remote's; a read of that byte wants nothing from the downloaders and returns it.
 */
module CacheHarm {
  import opened CacheAgreement
  import opened CacheCore
  import opened CacheItem
  import opened CacheMachine
  import opened DownloadGroup
  import opened PlainReader
  import opened Ranges
  import opened Wrappers

  // ---------- Building runs ----------

  /** A run built backwards, from its last step. */
  lemma Cons(cfg: Config, s: System, step: Step, s': System, rest: seq<Step>) returns (steps: seq<Step>)
    requires Enabled(cfg, s, step) && Apply(cfg, s, step) == s' && !Harmful(cfg, s, step)
    requires Legal(cfg, s', rest) && Calm(cfg, s', rest)
    ensures steps == [step] + rest && Legal(cfg, s, steps) && Calm(cfg, s, steps)
    ensures Exec(cfg, s, steps) == Exec(cfg, s', rest)
  {
    steps := [step] + rest;
    assert steps[1..] == rest;
  }

  /** The handle is idle, and the byte at x is behind the item's size and wrong. */
  ghost predicate Harmed(cfg: Config, s: System, h: nat, x: nat) {
    && h in s.handles && s.handles[h].Idle? && !s.item.beingReset && !s.item.fd.NoFd? && Contents(s.item).Some?
    && !s.item.dirty && Canonical(s.item.rs) && |Contents(s.item).value| <= |cfg.remote|
    && 0 <= s.item.size <= x < |cfg.remote| && !Good(cfg.remote, s.item, x)
  }

  /** Behind its size an item asks for nothing. */
  lemma AskNothing(cfg: Config, s: System, x: nat)
    requires s.item.size <= x && Canonical(s.item.rs) && 0 <= s.item.size
    ensures Asked(cfg, s, Range(x, s.item.size - x)).0 == None
  {
    var m := Missing(s.item.rs, s.item.size, AheadOf(Range(x, s.item.size - x), cfg.readAhead));
    assert m.IsEmpty() by {
      MissingExact(s.item.rs, s.item.size, AheadOf(Range(x, s.item.size - x), cfg.readAhead));
    }
    var g := if s.item.attached then s.group else NO_GROUP;
    var (w, startNew) := BehindWindow(s.item.rs, s.item.size, m);
    ObtainNothing(g, w, startNew, |cfg.remote|);
  }

  lemma ObtainNothing(g: Group, w: Range, startNew: bool, total: nat)
    requires w.size == 0
    ensures Obtain(g, w, startNew, total).0 == None
  {
  }

  lemma ReadBadByte(it: ItemState, remote: seq<byte>, x: nat) returns (item: ItemState)
    requires !it.fd.NoFd? && Contents(it).Some? && !it.dirty
    requires it.size <= x < |remote| && |Contents(it).value| <= |remote|
    ensures ReadFinish(it, |remote|, x, 1, Fine) == (Some([At(Contents(it).value, x)]), item)
  {
    var d := Resize(Contents(it).value, |remote|);
    item := ReadFinish(it, |remote|, x, 1, Fine).1;
    assert Slice(d, x, 1) == [d[x]];
  }

  /** A harmed handle reads the wrong byte. */
  lemma HarmedReadsWrong(cfg: Config, s: System, h: nat, x: nat) returns (steps: seq<Step>)
    requires Harmed(cfg, s, h, x)
    ensures Legal(cfg, s, steps) && Calm(cfg, s, steps)
    ensures Exec(cfg, s, steps).log == s.log + [ReadResult(x, 1, [At(Contents(s.item).value, x)])]
  {
    var s1 := Apply(cfg, s, ReadEnter(h, x, 1));
    var r := Range(x, s.item.size - x);
    assert ReadBody(s1.item, x, 1) == Wants(r, true);
    var s2 := Apply(cfg, s1, ReadLook(h));
    steps := ReadsOn(cfg, s2, h, x, r);
    steps := Cons(cfg, s1, ReadLook(h), s2, steps);
    steps := Cons(cfg, s, ReadEnter(h, x, 1), s1, steps);
  }

  lemma ReadsOn(cfg: Config, s: System, h: nat, x: nat, r: Range) returns (steps: seq<Step>)
    requires Harmed(cfg, s.(handles := map[h := Idle]), h, x)
    requires h in s.handles && s.handles[h] == Ensuring(x, 1, r, true) && r == Range(x, s.item.size - x)
    ensures Legal(cfg, s, steps) && Calm(cfg, s, steps)
    ensures Exec(cfg, s, steps).log == s.log + [ReadResult(x, 1, [At(Contents(s.item).value, x)])]
  {
    AskNothing(cfg, s, x);
    var s1 := ApplyEnsure(s, h, Asked(cfg, s, r));
    var s2 := Returns(cfg, s1, h, x, r);
    steps := Cons(cfg, s1, ReadReturn(h, Fine), s2, []);
    steps := Cons(cfg, s, ReadEnsure(h), s1, steps);
  }

  lemma Returns(cfg: Config, s: System, h: nat, x: nat, r: Range) returns (s': System)
    requires Harmed(cfg, s.(handles := map[h := Idle]), h, x)
    requires h in s.handles && s.handles[h] == Resumed(x, 1, r, true)
    ensures s' == Apply(cfg, s, ReadReturn(h, Fine))
    ensures s'.log == s.log + [ReadResult(x, 1, [At(Contents(s.item).value, x)])]
  {
    var item := ReadBadByte(s.item, cfg.remote, x);
    s' := ApplyReturn(s, h, (Some([At(Contents(s.item).value, x)]), item));
  }

  lemma WrongIsWrong(cfg: Config, log: seq<ReadResult>, it: ItemState, x: nat)
    requires x < |cfg.remote| && Contents(it).Some? && !Good(cfg.remote, it, x)
    ensures !LogOk(cfg.remote, log + [ReadResult(x, 1, [At(Contents(it).value, x)])])
  {
    var log' := log + [ReadResult(x, 1, [At(Contents(it).value, x)])];
    assert log'[|log|] == ReadResult(x, 1, [At(Contents(it).value, x)]);
    assert Slice(cfg.remote, x, 1) == [cfg.remote[x]];
  }

  // ---------- A removal under an open handle ----------

  /** The handle is open, or its open is about to return. */
  ghost predicate Open(s: System, h: nat) { h in s.handles && (s.handles[h].Idle? || s.handles[h] == Leaving(true)) }

  /**
   A handle got in between the decision to remove the item and the removal.  All reads of
   all calm runs that follow agree with the remote if and only if the file was complete.
   */
  lemma RemovalAgreesIff(cfg: Config, s: System, h: nat)
    requires Sound(cfg, s) && s.removal.Decided? && Open(s, h) && !s.item.fd.NoFd?
    ensures var s' := Apply(cfg, s, RemoveDone);
            (forall steps :: Legal(cfg, s', steps) && Calm(cfg, s', steps) ==>
               LogOk(cfg.remote, Exec(cfg, s', steps).log))
            <==> Whole(cfg.remote, s.item)
  {
    var s' := Apply(cfg, s, RemoveDone);
    if Whole(cfg.remote, s.item) {
      StepKeepsSound(cfg, s, RemoveDone);
      forall steps | Legal(cfg, s', steps) && Calm(cfg, s', steps) ensures LogOk(cfg.remote, Exec(cfg, s', steps).log) {
        CalmKeepsSound(cfg, s', steps);
      }
    } else {
      var x :| 0 <= x < |cfg.remote| && !Good(cfg.remote, s.item, x);
      var steps := RemovedReadsWrong(cfg, s, h, x);
    }
  }

  /** A wrong byte of the removed file is read through the handle. */
  lemma RemovedReadsWrong(cfg: Config, s: System, h: nat, x: nat) returns (steps: seq<Step>)
    requires s.removal.Decided? && Open(s, h) && !s.item.fd.NoFd? && !s.item.beingReset
    requires HandleOk(s.item) && !s.item.dirty && |Contents(s.item).value| <= |cfg.remote|
    requires x < |cfg.remote| && !Good(cfg.remote, s.item, x)
    ensures var s' := Apply(cfg, s, RemoveDone);
            Legal(cfg, s', steps) && Calm(cfg, s', steps) && !LogOk(cfg.remote, Exec(cfg, s', steps).log)
    ensures steps != [] && (s.handles[h] == Leaving(true) ==> steps[0] == Leave(h))
  {
    var s1 := ApplyRemoval(s);
    assert Contents(s1.item) == Contents(s.item);
    WrongIsWrong(cfg, s1.log, s1.item, x);
    if s.handles[h].Idle? {
      steps := HarmedReadsWrong(cfg, s1, h, x);
    } else {
      steps := LeavesAndReads(cfg, s1, h, x);
    }
  }

  lemma LeavesAndReads(cfg: Config, s: System, h: nat, x: nat) returns (steps: seq<Step>)
    requires h in s.handles && s.handles[h] == Leaving(true) && Harmed(cfg, s.(handles := map[h := Idle]), h, x)
    ensures Legal(cfg, s, steps) && Calm(cfg, s, steps) && steps != [] && steps[0] == Leave(h)
    ensures Exec(cfg, s, steps).log == s.log + [ReadResult(x, 1, [At(Contents(s.item).value, x)])]
  {
    var s1 := SetPhase(s.(item := s.item.(pending := s.item.pending - 1)), h, Idle);
    steps := HarmedReadsWrong(cfg, s1, h, x);
    steps := Cons(cfg, s, Leave(h), s1, steps);
  }

  lemma Prepend(cfg: Config, s: System, step: Step, s': System, rest: seq<Step>) returns (steps: seq<Step>)
    requires Enabled(cfg, s, step) && Apply(cfg, s, step) == s' && Legal(cfg, s', rest)
    ensures steps == [step] + rest && Legal(cfg, s, steps) && Exec(cfg, s, steps) == Exec(cfg, s', rest)
  {
    steps := [step] + rest;
    assert steps[1..] == rest;
  }

  /** The first open of an item whose file is there. */
  lemma OpenExisting(it: ItemState, total: nat)
    requires it.fd.NoFd? && it.disk.Some? && it.opens == 0 && !it.grace && !it.dirty
    ensures OpenBody(it, total, None, Fine, None) ==
            (Created, it.(size := |it.disk.value|, opens := 1, fd := OnPath, attached := true))
  {
    var d := it.disk.value;
    assert Resize(d, |d|) == d;
  }

  /** From any item at rest with a file that is not complete, an open in the gap leads to a wrong read. */
  lemma OpenInGapReadsWrong(cfg: Config, s: System, h: nat, x: nat) returns (steps: seq<Step>)
    requires Start(cfg, s) && s.inCache && s.item.disk.Some? && x < |cfg.remote| && !Good(cfg.remote, s.item, x)
    ensures Legal(cfg, s, steps) && |steps| > 4 && steps[0] == OpenEnter(h) && steps[1] == Evict(true, false)
    ensures steps[2] == OpenRun(h, None, Fine, None) && steps[3] == RemoveDone && steps[4] == Leave(h)
    ensures !LogOk(cfg.remote, Exec(cfg, s, steps).log)
  {
    var s1 := SetPhase(s, h, Opening).(item := s.item.(pending := 1));
    var rest := GapDecides(cfg, s1, h, x);
    steps := Prepend(cfg, s, OpenEnter(h), s1, rest);
  }

  lemma GapDecides(cfg: Config, s: System, h: nat, x: nat) returns (steps: seq<Step>)
    requires CleanerFree(s) && s.inCache && h in s.handles
    requires s.handles[h] == Opening && !s.item.attached && s.group == NO_GROUP
    requires s.item.fd.NoFd? && s.item.disk.Some? && s.item.opens == 0
    requires !s.item.grace && !s.item.dirty && !s.item.beingReset
    requires |s.item.disk.value| <= |cfg.remote| && x < |cfg.remote| && !Good(cfg.remote, s.item, x)
    ensures Legal(cfg, s, steps) && |steps| > 3 && steps[0] == Evict(true, false)
    ensures steps[1] == OpenRun(h, None, Fine, None) && steps[2] == RemoveDone && steps[3] == Leave(h)
    ensures !LogOk(cfg.remote, Exec(cfg, s, steps).log)
  {
    var s1 := s.(removal := Decided(false, false));
    var rest := GapOpens(cfg, s1, h, x);
    steps := Prepend(cfg, s, Evict(true, false), s1, rest);
  }

  /** The removal is decided, and the handle about to be opened. */
  lemma GapOpens(cfg: Config, s: System, h: nat, x: nat) returns (steps: seq<Step>)
    requires s.removal.Decided? && h in s.handles && s.handles[h] == Opening && !s.item.attached && s.group == NO_GROUP
    requires s.item.fd.NoFd? && s.item.disk.Some? && s.item.opens == 0
    requires !s.item.grace && !s.item.dirty && !s.item.beingReset
    requires |s.item.disk.value| <= |cfg.remote| && x < |cfg.remote| && !Good(cfg.remote, s.item, x)
    ensures Legal(cfg, s, steps) && |steps| > 2
    ensures steps[0] == OpenRun(h, None, Fine, None) && steps[1] == RemoveDone && steps[2] == Leave(h)
    ensures !LogOk(cfg.remote, Exec(cfg, s, steps).log)
  {
    OpenExisting(s.item, |cfg.remote|);
    var s1 := ApplyOpen(s, h, OpenBody(s.item, |cfg.remote|, None, Fine, None));
    var rest := GapReadsOn(cfg, s1, h, x);
    steps := Prepend(cfg, s, OpenRun(h, None, Fine, None), s1, rest);
  }

  /** The handle is open, and the removal is still to come. */
  lemma GapReadsOn(cfg: Config, s: System, h: nat, x: nat) returns (steps: seq<Step>)
    requires s.removal.Decided? && h in s.handles && s.handles[h] == Leaving(true)
    requires s.item.fd.OnPath? && !s.item.beingReset
    requires HandleOk(s.item) && !s.item.dirty && |s.item.disk.value| <= |cfg.remote|
    requires x < |cfg.remote| && !Good(cfg.remote, s.item, x)
    ensures Legal(cfg, s, steps) && |steps| > 1 && steps[0] == RemoveDone && steps[1] == Leave(h)
    ensures !LogOk(cfg.remote, Exec(cfg, s, steps).log)
  {
    var rest := RemovedReadsWrong(cfg, s, h, x);
    steps := Prepend(cfg, s, RemoveDone, ApplyRemoval(s), rest);
  }

  // ---------- A file that was left unsized ----------

  /** A file of some length lies at the path of an item at rest; what is present in it is right. */
  ghost predicate LeftOver(cfg: Config, s: System) {
    && AtRest(s) && Canonical(s.item.rs) && s.item.disk.Some? && |s.item.disk.value| <= |cfg.remote|
    && forall x :: Covers(s.item.rs, x) ==> 0 <= x < |s.item.disk.value| && s.item.disk.value[x] == cfg.remote[x]
  }

  /** A first open that creates the file but cannot size it leaves it behind empty. */
  lemma FailedSizingLeavesEmptyFile(cfg: Config, s: System, h: nat, e: Error) returns (steps: seq<Step>)
    requires Start(cfg, s) && s.item.disk.None? && cfg.remote != []
    ensures Legal(cfg, s, steps) && LeftOver(cfg, Exec(cfg, s, steps))
    ensures Exec(cfg, s, steps).item.disk == Some([])
  {
    var s1 := Apply(cfg, s, OpenEnter(h));
    var s2 := Apply(cfg, s1, OpenRun(h, None, CannotTruncate(e), None));
    var s3 := Apply(cfg, s2, Leave(h));
    UnsizedOpen(s1.item, |cfg.remote|, e);
    assert s3.handles == map[];
    assert forall x :: !Covers([], x);
    steps := Prepend(cfg, s2, Leave(h), s3, []);
    steps := Prepend(cfg, s1, OpenRun(h, None, CannotTruncate(e), None), s2, steps);
    steps := Prepend(cfg, s, OpenEnter(h), s1, steps);
  }

  lemma UnsizedOpen(it: ItemState, total: nat, e: Error)
    requires it.fd.NoFd? && it.disk.None? && !it.dirty && 0 < total && Canonical(it.rs)
    ensures OpenBody(it, total, None, CannotTruncate(e), None) ==
            (NotOpened(e), it.(rs := [], size := total, disk := Some([])))
  {
    EmptyDiskSize(it.rs);
  }

  /** Exactly when the remote is zero behind the end of a left-behind file do all reads of all calm runs agree. */
  lemma LeftOverAgreesIff(cfg: Config, s: System)
    requires LeftOver(cfg, s)
    ensures (forall steps :: Legal(cfg, s, steps) && Calm(cfg, s, steps) ==> LogOk(cfg.remote, Exec(cfg, s, steps).log))
            <==> Zeros(cfg.remote, |s.item.disk.value|)
  {
    if Zeros(cfg.remote, |s.item.disk.value|) {
      forall steps | Legal(cfg, s, steps) && Calm(cfg, s, steps) ensures LogOk(cfg.remote, Exec(cfg, s, steps).log) {
        ReadsAgree(cfg, s, steps);
      }
    } else {
      var x: nat :| |s.item.disk.value| <= x < |cfg.remote| && cfg.remote[x] != 0;
      var steps := LeftOverReadsZero(cfg, s, 0, x);
      WrongIsWrong(cfg, [], s.item, x);
      assert [] + [ReadResult(x, 1, [0])] == [ReadResult(x, 1, [0])];
    }
  }

  /** A byte behind the end of the file reads as zero. */
  lemma LeftOverReadsZero(cfg: Config, s: System, h: nat, x: nat) returns (steps: seq<Step>)
    requires LeftOver(cfg, s) && |s.item.disk.value| <= x < |cfg.remote| && cfg.remote[x] != 0
    ensures Legal(cfg, s, steps) && Calm(cfg, s, steps)
    ensures Exec(cfg, s, steps).log == [ReadResult(x, 1, [0])]
  {
    var s1 := Apply(cfg, s, OpenEnter(h));
    OpenExisting(s1.item, |cfg.remote|);
    var s2 := Apply(cfg, s1, OpenRun(h, None, Fine, None));
    var s3 := Apply(cfg, s2, Leave(h));
    steps := HarmedReadsWrong(cfg, s3, h, x);
    steps := Cons(cfg, s2, Leave(h), s3, steps);
    steps := Cons(cfg, s1, OpenRun(h, None, Fine, None), s2, steps);
    steps := Cons(cfg, s, OpenEnter(h), s1, steps);
  }
}
