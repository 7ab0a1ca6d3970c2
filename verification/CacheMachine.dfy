/**
 Every interleaving of the threads around one cached item: handles that open, read and
 close, downloaders that write, kicks, the grace timer, and the cache cleaner.

 A step is one stretch of the source under the item or the downloaders mutex.  Where the
 source releases the item mutex in the middle, other steps may come in between: a close or
 a reset that stops the downloaders, a read that waits, and a removal, which decides under
 the mutex, gives it up to withdraw the item from the write-back queue, and destroys after.
 Downloaders that were detached but have not stopped yet are the strays: they may still
 write at any time.

 While a reader asks for a download, or a kick looks after the waiters, downloads may write
 in the source; here those are one step.  Such writes only add present bytes.
 */
module CacheMachine {
  import opened CacheItem
  import opened DownloadGroup
  import opened PlainReader
  import opened Ranges
  import opened Wrappers

  datatype Config = Config(remote: seq<byte>, readAhead: nat, handleCaching: bool)

  /** Where the thread of a handle is. */
  datatype Phase =
    | Opening
    | Undoing                                                     // its creation failed, the item is to be removed
    | Idle
    | Entered(at: int, len: nat)                                  // readAt not started
    | Ensuring(off: nat, len: nat, r: Range, present: bool)       // in _ensure, without the item lock
    | Waiting(off: nat, len: nat, r: Range)                       // queued in Download
    | Resumed(off: nat, len: nat, r: Range, ok: bool)             // back from _ensure
    | ClosingStart
    | ClosingWindow                                               // stopping the downloaders
    | Leaving(open: bool)                                         // before postAccess

  datatype ReadResult = ReadResult(off: int, len: nat, data: seq<byte>)

  /** The cleaner between the decision to remove the item and its removal; `put`: an open waits to put it back. */
  datatype Removal = NoRemoval | Decided(retry: bool, put: bool)

  datatype System = System(
    item: ItemState,
    group: Group,                // the downloaders of the item, when attached
    strays: seq<Dl>,
    handles: map<nat, Phase>,
    graceWindows: nat,           // fired grace timers that are stopping the downloaders
    inCache: bool,               // the item is in the cache's map
    removal: Removal,
    resetting: bool,             // the cleaner is between the two parts of Reset
    retrying: bool,              // ... called from retryFailedResets
    inErrItems: bool,
    log: seq<ReadResult>         // what ReadAt returned with nil or EOF
  )

  const NO_GROUP := Group([], [], 0, None)

  datatype Step =
    | OpenEnter(h: nat)
    | OpenRun(h: nat, mkdir: Option<Error>, check: CheckFault, create: Option<Error>)
    | OpenGivesUp(h: nat)
    | ReadEnter(h: nat, off: int, len: nat)
    | ReadLook(h: nat)
    | ReadEnsure(h: nat)
    | ReadReturn(h: nat, check: CheckFault)
    | CloseEnter(h: nat)
    | CloseRun(h: nat)
    | CloseDone(h: nat)
    | Leave(h: nat)
    | GetSize(h: nat)
    | GraceFires
    | GraceDone
    | DlWrite(i: nat, len: nat, n: nat)
    | StrayWrite(i: nat, len: nat, n: nat)
    | StrayStop(i: nat)
    | DlStop(i: nat)
    | DlEnd(i: nat, downloaded: int, err: Option<Error>)
    | KickAll
    | Evict(expired: bool, emptyOnly: bool)
    | ResetStart(retry: bool)
    | RemoveDone
    | ResetStop(close: Option<Error>, check: CheckFault, create: Option<Error>)
    | RetryGone

  // ---------- Counting threads ----------

  predicate InAccess(p: Phase) { !p.Idle? }

  predicate Holds(p: Phase) { !p.Opening? && !p.ClosingWindow? && p != Leaving(false) }

  predicate IsReading(p: Phase) { p.Ensuring? || p.Waiting? || p.Resumed? }

  ghost function Accessors(handles: map<nat, Phase>): set<nat> {
    set h | h in handles && InAccess(handles[h])
  }

  ghost function Holders(handles: map<nat, Phase>): set<nat> {
    set h | h in handles && Holds(handles[h])
  }

  // ---------- Steps ----------

  /** Gives `answers` to the waiting threads. */
  function Deliver(handles: map<nat, Phase>, answers: seq<Answer>): map<nat, Phase> {
    map h | h in handles :: DeliverTo(handles[h], h, answers)
  }

  function DeliverTo(p: Phase, h: nat, answers: seq<Answer>): Phase
    decreases |answers|
  {
    if answers == [] || !p.Waiting? then p
    else if answers[0].id == h then Resumed(p.off, p.len, p.r, answers[0].err == None)
    else DeliverTo(p, h, answers[1..])
  }

  /** The item changed; downloaders that were detached become strays, and new ones start empty. */
  function Settle(s: System, item: ItemState): System {
    var detached := s.item.attached && !item.attached;
    s.(item := item,
       group := if detached then NO_GROUP else s.group,
       strays := if detached then s.strays + s.group.dls else s.strays,
       handles := if detached then Deliver(s.handles, Refused(s.group.waiters, None)) else s.handles)
  }

  function SetPhase(s: System, h: nat, p: Phase): System { s.(handles := s.handles[h := p]) }

  /** The item after `n` bytes of `b` were processed at `off`. */
  ghost function WriteItem(item: ItemState, b: seq<byte>, off: nat, n: nat): ItemState
    requires n <= |b|
  {
    item.(rs := InsertSpec(item.rs, Range(off, n)),
          fd := if item.fd.Unlinked? then Unlinked(Overlay(item.fd.data, item.rs, b, off, n)) else item.fd,
          disk := if item.fd.OnPath? && item.disk.Some? then Some(Overlay(item.disk.value, item.rs, b, off, n))
                  else item.disk)
  }

  ghost function Overlay(d: seq<byte>, rs: seq<Range>, b: seq<byte>, off: nat, n: nat): (d': seq<byte>)
    requires n <= |b|
    ensures |d'| == if n == 0 then |d| else Max(|d|, off + n)
    ensures forall x :: 0 <= x < |d'| ==> d'[x] == OverlaidByte(d, rs, b, off, n, x)
  {
    seq(if n == 0 then |d| else Max(|d|, off + n), i => OverlaidByte(d, rs, b, off, n, i))
  }

  /** Where no byte is present behind the end of the file, WriteAtNoOverwrite has just this effect. */
  lemma ProcessedIsWrite(s: ItemState, s': ItemState, b: seq<byte>, off: nat, n: nat)
    requires HandleOk(s) && Canonical(s.rs) && Processed(s, s', b, off, n)
    requires !s.fd.NoFd? ==> InFile(s.rs, Contents(s).value)
    ensures s.fd.NoFd? || s' == WriteItem(s, b, off, n)
  {
    MarkedExact(s.rs, s'.rs, off, n);
    if !s.fd.NoFd? {
      var d, d' := Contents(s).value, Contents(s').value;
      forall x | 0 <= x < |d'| ensures d'[x] == Overlay(d, s.rs, b, off, n)[x] {
        assert At(d', x) == d'[x];
      }
      assert d' == Overlay(d, s.rs, b, off, n);
    }
  }

  /** A downloader can hand over the next `len` bytes of its source, of which `n` get processed. */
  ghost predicate CanWrite(cfg: Config, item: ItemState, d: Dl, len: nat, n: nat) {
    && !d.done && 0 < len && n <= len
    && 0 <= d.inPos && d.inPos + len <= |cfg.remote| && 0 <= d.offset
    && (d.offset < d.maxOffset || d.stop)
    && (item.fd.NoFd? ==> AllPresent(item.rs, d.offset, d.offset + n))
  }

  ghost function Written(cfg: Config, item: ItemState, d: Dl, len: nat, n: nat): (ItemState, Dl)
    requires CanWrite(cfg, item, d, len, n)
  {
    var b := cfg.remote[d.inPos..d.inPos + len];
    (WriteItem(item, b, d.offset, n),
     AfterWrite(d, len, n, PresentCount(item.rs, d.offset, n), if n < len then Some(OtherError) else None).1)
  }

  ghost predicate Enabled(cfg: Config, s: System, step: Step) {
    match step
    case OpenEnter(h) => h !in s.handles && !s.item.beingReset
    case OpenRun(h, _, _, _) => h in s.handles && s.handles[h].Opening?
    case OpenGivesUp(h) => h in s.handles && s.handles[h].Undoing?
    case ReadEnter(h, _, _) => h in s.handles && s.handles[h].Idle? && !s.item.beingReset
    case ReadLook(h) => h in s.handles && s.handles[h].Entered?
    case ReadEnsure(h) => h in s.handles && s.handles[h].Ensuring?
    case ReadReturn(h, _) => h in s.handles && s.handles[h].Resumed?
    case CloseEnter(h) => h in s.handles && s.handles[h].Idle? && !s.item.beingReset
    case CloseRun(h) => h in s.handles && s.handles[h].ClosingStart?
    case CloseDone(h) => h in s.handles && s.handles[h].ClosingWindow?
    case Leave(h) => h in s.handles && s.handles[h].Leaving?
    case GetSize(h) => h in s.handles && s.handles[h].Idle?
    case GraceFires => true
    case GraceDone => s.graceWindows > 0
    case DlWrite(i, len, n) => s.item.attached && i < |s.group.dls| && CanWrite(cfg, s.item, s.group.dls[i], len, n)
    case StrayWrite(i, len, n) => i < |s.strays| && CanWrite(cfg, s.item, s.strays[i], len, n)
    case StrayStop(i) => i < |s.strays|
    case DlStop(i) => s.item.attached && i < |s.group.dls|
    case DlEnd(i, _, _) => s.item.attached && i < |s.group.dls| && !s.group.dls[i].closed
    case KickAll => s.item.attached
    case Evict(_, _) => s.inCache && CleanerFree(s)
    case ResetStart(retry) => s.inCache && CleanerFree(s) && (retry ==> s.inErrItems)
    case RemoveDone => s.removal.Decided?
    case ResetStop(_, _, _) => s.resetting
    case RetryGone => s.inErrItems && !s.inCache && CleanerFree(s)
  }

  predicate CleanerFree(s: System) { !s.resetting && s.removal.NoRemoval? }

  ghost function Apply(cfg: Config, s: System, step: Step): System
    requires Enabled(cfg, s, step)
  {
    var total := |cfg.remote|;
    match step
    case OpenEnter(h) => SetPhase(s, h, Opening).(item := s.item.(pending := s.item.pending + 1))
    case OpenRun(h, mkdir, check, create) => ApplyOpen(s, h, OpenBody(s.item, total, mkdir, check, create))
    case OpenGivesUp(h) => SetPhase(s, h, Leaving(false)).(item := OpenUndo(s.item))
    case ReadEnter(h, off, len) =>
      SetPhase(s, h, Entered(off, len)).(item := s.item.(pending := s.item.pending + 1))
    case ReadLook(h) => ApplyLook(s, h, ReadBody(s.item, s.handles[h].at, s.handles[h].len))
    case ReadEnsure(h) => ApplyEnsure(s, h, Asked(cfg, s, s.handles[h].r))
    case ReadReturn(h, check) => ApplyReturn(s, h, ReadFinish(s.item, total, s.handles[h].off, s.handles[h].len, check))
    case CloseEnter(h) => SetPhase(s, h, ClosingStart).(item := s.item.(pending := s.item.pending + 1))
    case CloseRun(h) =>
      ApplyClose(s, h, CloseBody(s.item, total, cfg.handleCaching))
    case CloseDone(h) => SetPhase(s, h, Leaving(false)).(item := CloseFinish(s.item))
    case Leave(h) =>
      s.(item := s.item.(pending := s.item.pending - 1),
         handles := if s.handles[h].open then s.handles[h := Idle] else s.handles - {h})
    case GetSize(_) => s.(item := s.item.(size := FileLength(s.item, total)))
    case GraceFires => ApplyGrace(s, GraceBody(s.item, total))
    case GraceDone => s.(item := CloseFinish(s.item), graceWindows := s.graceWindows - 1)
    case DlWrite(i, len, n) =>
      var (item, d) := Written(cfg, s.item, s.group.dls[i], len, n);
      s.(item := item, group := s.group.(dls := s.group.dls[i := d]))
    case StrayWrite(i, len, n) =>
      var (item, d) := Written(cfg, s.item, s.strays[i], len, n);
      s.(item := item, strays := s.strays[i := d])
    case StrayStop(i) => s.(strays := s.strays[i := s.strays[i].(stop := true)])
    case DlStop(i) => s.(group := s.group.(dls := s.group.dls[i := s.group.dls[i].(stop := true)]))
    case DlEnd(i, n, err) =>
      var d := s.group.dls[i].(closed := true, done := true);
      s.(group := CountErrors(s.group.(dls := s.group.dls[i := d]), n, err))
    case KickAll => ApplyKick(s, Kick(s.group, s.item.rs, s.item.size, total, cfg.readAhead))
    case Evict(expired, emptyOnly) =>
      s.(removal := if MayRemove(s.item, expired, emptyOnly) then Decided(false, false) else NoRemoval)
    case ResetStart(retry) => ApplyResetStart(s, retry, ResetBegin(s.item))
    case RemoveDone => ApplyRemoval(s)
    case ResetStop(close, check, create) =>
      var (_, err, _, item) := ResetEnd(s.item, total, close, check, create);
      ApplyResetStop(s, err, item)
    case RetryGone => s.(inErrItems := false)
  }

  /** A created file comes with a new set of downloads; the cleaner's lock may hold up putting the item back. */
  function ApplyOpen(s: System, h: nat, outcome: (OpenStep, ItemState)): System {
    var (how, item) := outcome;
    var s1 := Settle(s, item.(attached := item.attached && !how.Created?));
    s1.(item := item,
        handles := s1.handles[h := if how.CreateFailed? then Undoing else Leaving(!how.NotOpened?)],
        inCache := s.inCache || how.Created?,
        removal := if how.Created? && s.removal.Decided? then s.removal.(put := true) else s.removal)
  }

  function ApplyLook(s: System, h: nat, look: ReadStep): System
    requires h in s.handles && s.handles[h].Entered? && (look.Wants? ==> 0 <= s.handles[h].at)
  {
    var p := s.handles[h];
    s.(handles := s.handles[h := if look.Wants? then Ensuring(p.at, p.len, look.r, look.present) else Leaving(true)],
       log := if look.AtEnd? then s.log + [ReadResult(p.at, p.len, [])] else s.log)
  }

  /** Asking the downloaders, new ones if there are none, for `r`. */
  function Asked(cfg: Config, s: System, r: Range): (Option<Error>, Group) {
    Ensure(if s.item.attached then s.group else NO_GROUP, s.item.rs, s.item.size, |cfg.remote|, cfg.readAhead, r)
  }

  function ApplyEnsure(s: System, h: nat, asked: (Option<Error>, Group)): System
    requires h in s.handles && s.handles[h].Ensuring?
  {
    var p := s.handles[h];
    var alone := p.present && !s.item.attached;
    var waits := !p.present && asked.0 == None;
    s.(item := s.item.(attached := !alone),
       group := if alone then s.group
                else if waits then asked.1.(waiters := asked.1.waiters + [Waiter(h, p.r)]) else asked.1,
       handles := s.handles[h := if waits then Waiting(p.off, p.len, p.r)
                                 else Resumed(p.off, p.len, p.r, alone || asked.0 == None)])
  }

  function ApplyReturn(s: System, h: nat, outcome: (Option<seq<byte>>, ItemState)): System
    requires h in s.handles && s.handles[h].Resumed?
  {
    var p := s.handles[h];
    s.(item := if p.ok then outcome.1 else s.item,
       handles := s.handles[h := Leaving(true)],
       log := if p.ok && outcome.0.Some? then s.log + [ReadResult(p.off, p.len, outcome.0.value)] else s.log)
  }

  function ApplyClose(s: System, h: nat, outcome: (CloseStep, ItemState)): System {
    SetPhase(Settle(s, outcome.1), h, if outcome.0.Closing? then ClosingWindow else Leaving(false))
  }

  function ApplyGrace(s: System, outcome: (CloseStep, ItemState)): System {
    Settle(s, outcome.1).(graceWindows := s.graceWindows + if outcome.0.Closing? then 1 else 0)
  }

  function ApplyKick(s: System, kicked: (seq<Answer>, Group)): System {
    s.(group := kicked.1, handles := Deliver(s.handles, kicked.0))
  }

  function ApplyResetStart(s: System, retry: bool, outcome: (ResetResult, nat, ItemState)): System {
    var (rr, _, item) := outcome;
    var s1 := Settle(s, if rr.Resetting? then item else s.item);
    s1.(removal := if rr.RemovedNotInUse? then Decided(retry, false) else NoRemoval,
        resetting := rr.Resetting?,
        retrying := if rr.Resetting? then retry else s.retrying,
        inErrItems := s.inErrItems && (!retry || rr.RemovedNotInUse? || rr.Resetting?))
  }

  function ApplyResetStop(s: System, err: Option<Error>, item: ItemState): System {
    s.(item := item, resetting := false,
       inErrItems := if s.retrying then s.inErrItems && err == Some(NoSpace) else s.inErrItems || err.Some?)
  }

  /** The retry keeps the entry of an item it removed, the other passes delete it. */
  function ApplyRemoval(s: System): System
    requires s.removal.Decided?
  {
    s.(item := RemoveFiles(s.item), removal := NoRemoval,
       inCache := if s.removal.retry then s.inCache else s.removal.put,
       inErrItems := s.inErrItems && !s.removal.retry)
  }

  // ---------- Runs ----------

  /** The steps can be taken one after the other. */
  ghost predicate Legal(cfg: Config, s: System, steps: seq<Step>)
    decreases |steps|
  {
    steps == [] || (Enabled(cfg, s, steps[0]) && Legal(cfg, Apply(cfg, s, steps[0]), steps[1..]))
  }

  ghost function Exec(cfg: Config, s: System, steps: seq<Step>): System
    requires Legal(cfg, s, steps)
    decreases |steps|
  {
    if steps == [] then s else Exec(cfg, Apply(cfg, s, steps[0]), steps[1..])
  }

  /** An item nobody has opened, and nobody is about to. */
  ghost predicate AtRest(s: System) {
    && s.item.fd.NoFd? && !s.item.dirty
    && s.item.opens == 0 && s.item.pending == 0 && !s.item.beingReset && !s.item.grace && !s.item.attached
    && s.group == NO_GROUP && s.strays == [] && s.handles == map[] && s.graceWindows == 0
    && CleanerFree(s) && !s.inErrItems && s.log == []
  }
}
