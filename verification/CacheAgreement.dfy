/**
 Reads agree with the remote.

 A byte of the item's file is good when it is the remote's; behind the end of the file it
 counts as zero, which is what it becomes when the file is lengthened.  Present bytes are
 good, and so are those at or behind the size the item believes in, as long as a handle is
 open.  Two things can break that, and they are named exactly: a removal that destroys an
 incomplete file under a handle that got in after the decision, and a file that was created
 but could not be sized.
 */
module CacheAgreement {
  import opened CacheCore
  import opened CacheItem
  import opened CacheMachine
  import opened DownloadGroup
  import opened PlainReader
  import opened Ranges
  import opened Wrappers

  ghost predicate Good(remote: seq<byte>, it: ItemState, x: int) {
    0 <= x < |remote| ==> Contents(it).Some? && At(Contents(it).value, x) == remote[x]
  }

  ghost predicate Zeros(remote: seq<byte>, from: int) { forall x :: from <= x < |remote| && 0 <= x ==> remote[x] == 0 }

  /** What is present in the file is right, and what the file lacks at its end is zero. */
  ghost predicate FileOk(remote: seq<byte>, rs: seq<Range>, d: seq<byte>) {
    && |d| <= |remote| && Zeros(remote, |d|)
    && (forall x {:trigger Covers(rs, x)} :: Covers(rs, x) ==> 0 <= x < |d| && d[x] == remote[x])
  }

  ghost predicate DataOk(remote: seq<byte>, it: ItemState) {
    && Canonical(it.rs) && HandleOk(it) && (it.fd.Unlinked? ==> it.disk.None?)
    && (forall x :: Covers(it.rs, x) ==> 0 <= x < |remote|)
    && (Contents(it).Some? ==> FileOk(remote, it.rs, Contents(it).value))
  }

  /** With a handle open, no byte at or behind the item's size is wrong. */
  ghost predicate BeyondOk(remote: seq<byte>, it: ItemState) {
    it.opens > 0 && !it.fd.NoFd? ==>
      && (forall x :: it.size <= x < |remote| ==> Good(remote, it, x))
      && (it.size == |remote| ==> Contents(it).Some? && |Contents(it).value| == |remote|)
  }

  ghost predicate SpanGood(remote: seq<byte>, it: ItemState, off: int, len: nat) {
    forall x :: off <= x < off + len ==> Good(remote, it, x)
  }

  /** What a reader wants beside the range it waits for. */
  ghost predicate RestGood(remote: seq<byte>, it: ItemState, off: int, len: nat, r: Range) {
    forall x :: off <= x < off + len && !r.Has(x) ==> Good(remote, it, x)
  }

  ghost predicate ReaderOk(remote: seq<byte>, it: ItemState, p: Phase) {
    match p
    case Ensuring(off, len, r, present) =>
      it.fd.NoFd? || (RestGood(remote, it, off, len, r) && (present ==> SpanGood(remote, it, off, len)))
    case Waiting(off, len, r) => it.fd.NoFd? || RestGood(remote, it, off, len, r)
    case Resumed(off, len, r, ok) => it.fd.NoFd? || (ok ==> SpanGood(remote, it, off, len))
    case _ => true
  }

  ghost predicate ReadersOk(remote: seq<byte>, it: ItemState, handles: map<nat, Phase>) {
    forall h :: h in handles ==> ReaderOk(remote, it, handles[h])
  }

  /** A download writes inside the file, and a running one writes where it reads. */
  ghost predicate DlOk(total: nat, d: Dl) { 0 <= d.offset <= total && (d.done || d.inPos == d.offset) }

  ghost predicate DlsOk(total: nat, dls: seq<Dl>) { forall d :: d in dls ==> DlOk(total, d) }

  /** Every logged read is what a read of the remote returns. */
  ghost predicate LogOk(remote: seq<byte>, log: seq<ReadResult>) {
    forall i :: 0 <= i < |log| ==> log[i].data == Slice(remote, log[i].off, log[i].len)
  }

  ghost predicate Data(cfg: Config, s: System) {
    && DataOk(cfg.remote, s.item) && BeyondOk(cfg.remote, s.item)
    && ReadersOk(cfg.remote, s.item, s.handles)
    && DlsOk(|cfg.remote|, s.group.dls) && DlsOk(|cfg.remote|, s.strays) && LogOk(cfg.remote, s.log)
  }

  ghost predicate Sound(cfg: Config, s: System) { Core(s) && Data(cfg, s) }

  // ---------- The steps that can do harm ----------

  ghost predicate Whole(remote: seq<byte>, it: ItemState) { forall x :: 0 <= x < |remote| ==> Good(remote, it, x) }

  /** The file is created, cannot be sized, and stays behind shorter than the remote. */
  ghost predicate LeavesShort(remote: seq<byte>, it: ItemState, check: CheckFault) {
    check.CannotTruncate? && Contents(it).None? && !Zeros(remote, 0)
  }

  ghost predicate Harmful(cfg: Config, s: System, step: Step) {
    match step
    case RemoveDone => s.item.opens > 0 && !s.item.fd.NoFd? && !Whole(cfg.remote, s.item)
    case OpenRun(_, _, check, _) => LeavesShort(cfg.remote, s.item, check)
    case ReadReturn(_, check) => LeavesShort(cfg.remote, s.item, check)
    case ResetStop(_, check, _) => LeavesShort(cfg.remote, RemoveFiles(s.item.(fd := NoFd)), check)
    case _ => false
  }

  ghost predicate Calm(cfg: Config, s: System, steps: seq<Step>)
    requires Legal(cfg, s, steps)
    decreases |steps|
  {
    steps == [] || (!Harmful(cfg, s, steps[0]) && Calm(cfg, Apply(cfg, s, steps[0]), steps[1..]))
  }

  // ---------- What the item's sections keep ----------

  /** Readers of the file lose nothing they rely on. */
  ghost predicate KeepsGood(remote: seq<byte>, it: ItemState, it': ItemState) {
    it'.fd.NoFd? ||
    (!it.fd.NoFd? && forall x {:trigger Good(remote, it', x)} :: Good(remote, it, x) ==> Good(remote, it', x))
  }

  ghost predicate NoReaders(handles: map<nat, Phase>) { forall h :: h in handles ==> !IsReading(handles[h]) }

  lemma ReadersKept(remote: seq<byte>, it: ItemState, it': ItemState, handles: map<nat, Phase>)
    requires ReadersOk(remote, it, handles) && (KeepsGood(remote, it, it') || NoReaders(handles))
    ensures ReadersOk(remote, it', handles)
  {
    forall h | h in handles ensures ReaderOk(remote, it', handles[h]) {
      assert ReaderOk(remote, it, handles[h]);
    }
  }

  lemma ReadersSet(remote: seq<byte>, it: ItemState, handles: map<nat, Phase>, h: nat, p: Phase)
    requires ReadersOk(remote, it, handles) && ReaderOk(remote, it, p)
    ensures ReadersOk(remote, it, handles[h := p])
  {
  }

  lemma FreshFile(remote: seq<byte>, rs: seq<Range>, d: seq<byte>)
    requires rs == [] && |d| <= |remote| && Zeros(remote, |d|)
    ensures FileOk(remote, rs, d)
  {
    assert forall x :: !Covers(rs, x);
  }

  /** Lengthening a file adds zeros. */
  lemma ResizeKeeps(remote: seq<byte>, rs: seq<Range>, d: seq<byte>, n: nat)
    requires FileOk(remote, rs, d) && |d| <= n <= |remote|
    ensures FileOk(remote, rs, Resize(d, n)) && forall x :: At(Resize(d, n), x) == At(d, x)
  {
  }

  lemma TruncateSound(remote: seq<byte>, it: ItemState, n: nat, fault: CheckFault)
    requires DataOk(remote, it) && n <= |remote| && !LeavesShort(remote, it, fault)
    requires if Contents(it).Some? then |Contents(it).value| <= n else n == |remote|
    ensures var (err, it') := Truncate(it, n, fault);
            && DataOk(remote, it') && KeepsGood(remote, it, it') && Touched(it, it')
            && (err == None ==> Contents(it').Some? && |Contents(it').value| == n && it'.size == n)
            && (err.Some? ==> it'.size == it.size && (!it.fd.NoFd? ==> Contents(it') == Contents(it)))
  {
    TruncateTouches(it, n, fault);
    EmptyDiskSize(it.rs);
    var it' := Truncate(it, n, fault).1;
    if Contents(it).Some? {
      ResizeKeeps(remote, it.rs, Contents(it).value, n);
      assert Resize(Contents(it).value, |Contents(it).value|) == Contents(it).value;
    } else if Contents(it').Some? {
      FreshFile(remote, it'.rs, Contents(it').value);
    }
  }

  /** Behind the end of the file everything is good. */
  lemma SizedBeyond(remote: seq<byte>, it: ItemState)
    requires DataOk(remote, it) && Contents(it).Some? && it.size == |Contents(it).value|
    ensures BeyondOk(remote, it)
  {
  }

  /** Whatever keeps the good bytes, the size and a full length keeps this too. */
  lemma BeyondKept(remote: seq<byte>, it: ItemState, it': ItemState)
    requires BeyondOk(remote, it) && KeepsGood(remote, it, it')
    requires it'.size == it.size && (it'.opens > 0 ==> it.opens > 0)
    requires !it'.fd.NoFd? && it'.size == |remote| && Contents(it).Some? && |Contents(it).value| == |remote| ==>
               Contents(it').Some? && |Contents(it').value| == |remote|
    ensures BeyondOk(remote, it')
  {
    if it'.opens > 0 && !it'.fd.NoFd? {
      forall x | it'.size <= x < |remote| ensures Good(remote, it', x) {
        assert Good(remote, it, x);
      }
    }
  }

  lemma CheckSound(remote: seq<byte>, it: ItemState, fault: CheckFault)
    requires DataOk(remote, it) && !LeavesShort(remote, it, fault)
    ensures var (err, it') := CheckObject(it, |remote|, fault);
            && DataOk(remote, it') && KeepsGood(remote, it, it') && Touched(it, it')
            && (err == None ==> Contents(it').Some? && it'.size == |Contents(it').value|)
            && (err.Some? ==> it.fd.NoFd?)
  {
    var size := FileLength(it, |remote|);
    TruncateSound(remote, it.(size := size), size, fault);
  }

  /** What is good depends on the file alone. */
  lemma SameFile(remote: seq<byte>, it: ItemState, it1: ItemState, it': ItemState)
    requires KeepsGood(remote, it, it1) && Contents(it') == Contents(it1) && it'.fd.NoFd? == it1.fd.NoFd?
    ensures KeepsGood(remote, it, it')
  {
    forall x | !it'.fd.NoFd? && Good(remote, it, x) ensures Good(remote, it', x) {
      assert Good(remote, it1, x);
    }
  }

  /** An open never harms a reader, and whoever has the item open then may rely on its size. */
  lemma OpenSound(remote: seq<byte>, it: ItemState, mkdir: Option<Error>, check: CheckFault, create: Option<Error>)
    requires DataOk(remote, it) && BeyondOk(remote, it) && !LeavesShort(remote, it, check)
    ensures var (how, it') := OpenBody(it, |remote|, mkdir, check, create);
            DataOk(remote, it') && BeyondOk(remote, it') && (it.opens != 0 ==> KeepsGood(remote, it, it'))
  {
    if mkdir == None {
      CheckSound(remote, it, check);
      var checked := CheckObject(it, |remote|, check);
      if checked.0 == None || checked.1.fd.NoFd? {
        OpenCheckedSound(remote, it, checked, create);
      }
    }
  }

  /** The part of an open behind the check. */
  lemma OpenCheckedSound(remote: seq<byte>, it: ItemState, checked: (Option<Error>, ItemState), create: Option<Error>)
    requires DataOk(remote, checked.1) && KeepsGood(remote, it, checked.1) && checked.1.opens == it.opens
    requires if checked.0 == None then Contents(checked.1).Some? && checked.1.size == |Contents(checked.1).value|
             else checked.1.fd.NoFd?
    ensures var it' := OpenChecked(checked, create).1;
            DataOk(remote, it') && BeyondOk(remote, it') && (it.opens != 0 ==> KeepsGood(remote, it, it'))
  {
    var s := checked.1;
    if checked.0 == None {
      SizedBeyond(remote, s.(opens := s.opens + 1));
      SameFile(remote, it, s, s.(opens := s.opens + 1));
      OpenFirstSound(remote, s.(opens := 1), create);
    }
  }

  lemma OpenFirstSound(remote: seq<byte>, it: ItemState, create: Option<Error>)
    requires DataOk(remote, it) && Contents(it).Some? && it.size == |Contents(it).value|
    ensures var it' := OpenFirst(it, create).1; DataOk(remote, it') && BeyondOk(remote, it')
  {
    SizedBeyond(remote, it);
    var it' := OpenFirst(it, create).1;
    if Contents(it') == Contents(it) {
      SizedBeyond(remote, it');
    }
  }

  /** A read that was let through returns the remote's bytes, or fails. */
  lemma ReadSound(remote: seq<byte>, it: ItemState, off: nat, len: nat, fault: CheckFault)
    requires DataOk(remote, it) && BeyondOk(remote, it) && it.opens > 0 && !it.dirty && !LeavesShort(remote, it, fault)
    requires it.fd.NoFd? || SpanGood(remote, it, off, len)
    ensures var (data, it') := ReadFinish(it, |remote|, off, len, fault);
            && DataOk(remote, it') && BeyondOk(remote, it') && KeepsGood(remote, it, it') && Touched(it, it')
            && (data.Some? ==> data.value == Slice(remote, off, len))
  {
    var (data, it') := ReadFinish(it, |remote|, off, len, fault);
    if |remote| != it.size {
      TruncateSound(remote, it, |remote|, fault);
      if Contents(it').Some? && it'.size == |Contents(it').value| {
        SizedBeyond(remote, it');
      }
    }
    if data.Some? {
      SliceGood(remote, it', off, len);
    }
  }

  lemma SliceGood(remote: seq<byte>, it: ItemState, off: nat, len: nat)
    requires Contents(it).Some? && |Contents(it).value| == |remote| && SpanGood(remote, it, off, len)
    ensures Slice(Contents(it).value, off, len) == Slice(remote, off, len)
  {
    var d := Contents(it).value;
    var a, b := Slice(d, off, len), Slice(remote, off, len);
    if off < |remote| {
      forall k | 0 <= k < |a| ensures a[k] == b[k] {
        assert Good(remote, it, off + k);
      }
    }
  }

  /** Writing the remote's own bytes makes them present and spoils nothing. */
  lemma WriteSound(cfg: Config, it: ItemState, d: Dl, len: nat, n: nat) returns (it': ItemState, d': Dl)
    requires DataOk(cfg.remote, it) && BeyondOk(cfg.remote, it) && DlOk(|cfg.remote|, d) && CanWrite(cfg, it, d, len, n)
    ensures (it', d') == Written(cfg, it, d, len, n)
    ensures DataOk(cfg.remote, it') && BeyondOk(cfg.remote, it')
    ensures KeepsGood(cfg.remote, it, it') && DlOk(|cfg.remote|, d')
  {
    var rs;
    rs, it', d' := WrittenParts(cfg, it, d, len, n);
    PartsSound(cfg.remote, it, rs, it', d.offset, len, n);
  }

  lemma PartsSound(remote: seq<byte>, it: ItemState, rs: seq<Range>, it': ItemState, off: nat, len: nat, n: nat)
    requires DataOk(remote, it) && BeyondOk(remote, it) && off + len <= |remote| && n <= len
    requires Canonical(rs) && forall x :: Covers(rs, x) <==> Covers(it.rs, x) || off <= x < off + n
    requires if it.fd.NoFd? then it' == it
             else it' == WithContents(it, Overlay(Contents(it).value, it.rs, remote[off..off + len], off, n)).(rs := rs)
    ensures DataOk(remote, it') && BeyondOk(remote, it') && KeepsGood(remote, it, it')
  {
    if !it.fd.NoFd? {
      OverlayChange(remote, it, rs, off, len, n);
    }
  }

  lemma WrittenParts(cfg: Config, it: ItemState, d: Dl, len: nat, n: nat)
    returns (rs: seq<Range>, it': ItemState, d': Dl)
    requires HandleOk(it) && Canonical(it.rs) && CanWrite(cfg, it, d, len, n) && d.inPos == d.offset
    ensures (it', d') == Written(cfg, it, d, len, n)
    ensures Canonical(rs) && forall x :: Covers(rs, x) <==> Covers(it.rs, x) || d.offset <= x < d.offset + n
    ensures if it.fd.NoFd? then it' == it
            else
              var data := Overlay(Contents(it).value, it.rs, cfg.remote[d.offset..d.offset + len], d.offset, n);
              it' == WithContents(it, data).(rs := rs)
    ensures d'.offset == d.offset + n && d'.inPos == d.inPos + len && (n < len ==> d'.done)
  {
    WrittenIs(cfg, it, d, len, n);
    rs := InsertSpec(it.rs, Range(d.offset, n));
    it', d' := Written(cfg, it, d, len, n).0, Written(cfg, it, d, len, n).1;
  }

  lemma OverlayChange(remote: seq<byte>, it: ItemState, rs: seq<Range>, off: nat, len: nat, n: nat)
    requires DataOk(remote, it) && BeyondOk(remote, it) && !it.fd.NoFd? && off + len <= |remote| && n <= len
    requires Canonical(rs) && forall x :: Covers(rs, x) <==> Covers(it.rs, x) || off <= x < off + n
    ensures var it' := WithContents(it, Overlay(Contents(it).value, it.rs, remote[off..off + len], off, n)).(rs := rs);
            DataOk(remote, it') && BeyondOk(remote, it') && KeepsGood(remote, it, it')
  {
    var data := Overlay(Contents(it).value, it.rs, remote[off..off + len], off, n);
    OverlaySound(remote, Contents(it).value, it.rs, rs, off, len, n);
    FileChange(remote, it, data, rs);
  }

  /** What a write makes of the item. */
  lemma WrittenIs(cfg: Config, it: ItemState, d: Dl, len: nat, n: nat)
    requires HandleOk(it) && Canonical(it.rs) && CanWrite(cfg, it, d, len, n) && d.inPos == d.offset
    ensures var rs := InsertSpec(it.rs, Range(d.offset, n));
            && Canonical(rs) && (forall x :: Covers(rs, x) <==> Covers(it.rs, x) || d.offset <= x < d.offset + n)
            && (it.fd.NoFd? ==> rs == it.rs && Written(cfg, it, d, len, n).0 == it)
            && (!it.fd.NoFd? ==>
                  var data := Overlay(Contents(it).value, it.rs, cfg.remote[d.offset..d.offset + len], d.offset, n);
                  Written(cfg, it, d, len, n).0 == WithContents(it, data).(rs := rs))
  {
    InsertSpecExact(it.rs, Range(d.offset, n));
    assert forall x :: Range(d.offset, n).Has(x) <==> d.offset <= x < d.offset + n;
    if it.fd.NoFd? {
      CanonicalUnique(it.rs, InsertSpec(it.rs, Range(d.offset, n)));
    }
  }

  /** The file may change to any that has the good bytes of the old one. */
  lemma FileChange(remote: seq<byte>, it: ItemState, data: seq<byte>, rs: seq<Range>)
    requires DataOk(remote, it) && BeyondOk(remote, it) && !it.fd.NoFd?
    requires Canonical(rs) && FileOk(remote, rs, data) && (|Contents(it).value| == |remote| ==> |data| == |remote|)
    requires forall x :: 0 <= x < |remote| && At(Contents(it).value, x) == remote[x] ==> At(data, x) == remote[x]
    ensures var it' := WithContents(it, data).(rs := rs);
            DataOk(remote, it') && BeyondOk(remote, it') && KeepsGood(remote, it, it')
  {
    BeyondKept(remote, it, WithContents(it, data).(rs := rs));
  }

  lemma OverlaySound(remote: seq<byte>, d: seq<byte>, rs: seq<Range>, rs': seq<Range>, off: nat, len: nat, n: nat)
    requires FileOk(remote, rs, d) && off + len <= |remote| && n <= len
    requires forall x :: Covers(rs', x) <==> Covers(rs, x) || off <= x < off + n
    ensures var d' := Overlay(d, rs, remote[off..off + len], off, n);
            && FileOk(remote, rs', d') && (|d| == |remote| ==> |d'| == |remote|)
            && (forall x :: 0 <= x < |remote| && At(d, x) == remote[x] ==> At(d', x) == remote[x])
  {
    var d' := Overlay(d, rs, remote[off..off + len], off, n);
    forall x | 0 <= x < |remote| ensures At(d', x) == if off <= x < off + n then remote[x] else At(d, x) {
      assert x < |d'| ==> d'[x] == OverlaidByte(d, rs, remote[off..off + len], off, n, x);
    }
  }

  lemma CloseSound(remote: seq<byte>, it: ItemState, handleCaching: bool)
    requires DataOk(remote, it) && BeyondOk(remote, it)
    ensures var it' := CloseBody(it, |remote|, handleCaching).1;
            DataOk(remote, it') && BeyondOk(remote, it') && KeepsGood(remote, it, it')
  {
    var it' := CloseBody(it, |remote|, handleCaching).1;
    if it'.opens > 0 {
      BeyondKept(remote, it, it');
    }
  }

  lemma GraceSound(remote: seq<byte>, it: ItemState)
    requires DataOk(remote, it) && BeyondOk(remote, it)
    ensures var it' := GraceBody(it, |remote|).1;
            DataOk(remote, it') && BeyondOk(remote, it') && KeepsGood(remote, it, it')
    ensures var it' := CloseFinish(it);
            DataOk(remote, it') && BeyondOk(remote, it') && KeepsGood(remote, it, it')
  {
  }

  /** Removing the files spoils nothing for whoever has them open, unless the file was incomplete. */
  lemma RemoveSound(remote: seq<byte>, it: ItemState)
    requires DataOk(remote, it)
    requires it.opens > 0 && !it.fd.NoFd? ==> Whole(remote, it)
    ensures var it' := RemoveFiles(it); DataOk(remote, it') && BeyondOk(remote, it') && KeepsGood(remote, it, it')
    ensures var it' := OpenUndo(it); DataOk(remote, it') && BeyondOk(remote, it') && KeepsGood(remote, it, it')
  {
    assert forall x :: !Covers([], x);
    var it' := RemoveFiles(it);
    if it'.opens > 0 && !it'.fd.NoFd? {
      forall x | it'.size <= x < |remote| ensures Good(remote, it', x) {
        assert Good(remote, it, x);
      }
    }
  }

  lemma ResetSound(remote: seq<byte>, it: ItemState, close: Option<Error>, check: CheckFault, create: Option<Error>)
    requires DataOk(remote, it) && BeyondOk(remote, it) && !LeavesShort(remote, RemoveFiles(it.(fd := NoFd)), check)
    ensures var it' := ResetEnd(it, |remote|, close, check, create).3; DataOk(remote, it') && BeyondOk(remote, it')
  {
    if !it.fd.NoFd? && close.Some? {
      BeyondKept(remote, it, it.(beingReset := false));
    } else {
      RemoveSound(remote, it.(fd := NoFd));
      RecreateSound(remote, RemoveFiles(it.(fd := NoFd)), check, create);
    }
  }

  lemma RecreateSound(remote: seq<byte>, it: ItemState, check: CheckFault, create: Option<Error>)
    requires DataOk(remote, it) && it.fd.NoFd? && !LeavesShort(remote, it, check)
    ensures var it' := Recreate(it, |remote|, check, create).1; DataOk(remote, it') && BeyondOk(remote, it')
  {
    CheckSound(remote, it, check);
    RecreatedSound(remote, CheckObject(it, |remote|, check), create);
  }

  lemma RecreatedSound(remote: seq<byte>, checked: (Option<Error>, ItemState), create: Option<Error>)
    requires DataOk(remote, checked.1) && checked.1.fd.NoFd?
    requires checked.0 == None ==> Contents(checked.1).Some? && checked.1.size == |Contents(checked.1).value|
    ensures var it' := Recreated(checked, create).1; DataOk(remote, it') && BeyondOk(remote, it')
  {
    if checked.0 == None {
      RemoveSound(remote, checked.1);
      var it' := Recreated(checked, create).1;
      if Contents(it') == Contents(checked.1) {
        SizedBeyond(remote, it');
      }
    }
  }

  // ---------- Steps ----------

  /** Steps that leave the item's file alone. */
  lemma DataQuiet(cfg: Config, s: System, step: Step)
    requires Sound(cfg, s) && Enabled(cfg, s, step)
    requires step.OpenEnter? || step.ReadEnter? || step.CloseEnter? || step.Leave? || step.Evict? || step.RetryGone?
    ensures Data(cfg, Apply(cfg, s, step))
  {
    if step.Leave? {
      DataLeave(cfg, s, step.h);
    } else if step.OpenEnter? || step.ReadEnter? || step.CloseEnter? {
      DataEnter(cfg, s, step);
    }
  }

  lemma DataEnter(cfg: Config, s: System, step: Step)
    requires Sound(cfg, s) && Enabled(cfg, s, step) && (step.OpenEnter? || step.ReadEnter? || step.CloseEnter?)
    ensures Data(cfg, Apply(cfg, s, step))
  {
    var s' := Apply(cfg, s, step);
    PendingKept(cfg.remote, s.item, s.item.pending + 1, s.handles);
    ReadersSet(cfg.remote, s'.item, s.handles, step.h, s'.handles[step.h]);
  }

  lemma DataLeave(cfg: Config, s: System, h: nat)
    requires Sound(cfg, s) && Enabled(cfg, s, Leave(h))
    ensures Data(cfg, Apply(cfg, s, Leave(h)))
  {
    PendingKept(cfg.remote, s.item, s.item.pending - 1, s.handles);
  }

  /** The access count is nothing to the data. */
  lemma PendingKept(remote: seq<byte>, it: ItemState, pending: int, handles: map<nat, Phase>)
    requires DataOk(remote, it) && BeyondOk(remote, it) && ReadersOk(remote, it, handles)
    ensures var it' := it.(pending := pending);
            DataOk(remote, it') && BeyondOk(remote, it') && ReadersOk(remote, it', handles)
  {
    var it' := it.(pending := pending);
    assert forall x :: Good(remote, it, x) == Good(remote, it', x);
    BeyondKept(remote, it, it');
    ReadersKept(remote, it, it', handles);
  }

  lemma SettledDls(total: nat, s: System, item: ItemState)
    requires DlsOk(total, s.group.dls) && DlsOk(total, s.strays)
    ensures DlsOk(total, Settle(s, item).group.dls) && DlsOk(total, Settle(s, item).strays)
  {
  }

  lemma DataOpen(cfg: Config, s: System, step: Step)
    requires Sound(cfg, s) && Enabled(cfg, s, step) && step.OpenRun? && !Harmful(cfg, s, step)
    ensures Data(cfg, Apply(cfg, s, step))
  {
    OpenSound(cfg.remote, s.item, step.mkdir, step.check, step.create);
    DataOpened(cfg, s, step.h, OpenBody(s.item, |cfg.remote|, step.mkdir, step.check, step.create));
  }

  lemma DataOpened(cfg: Config, s: System, h: nat, outcome: (OpenStep, ItemState))
    requires Sound(cfg, s) && h in s.handles && s.handles[h].Opening?
    requires DataOk(cfg.remote, outcome.1) && BeyondOk(cfg.remote, outcome.1)
    requires s.item.opens != 0 ==> KeepsGood(cfg.remote, s.item, outcome.1)
    requires s.item.opens != 0 ==> outcome.1.attached == s.item.attached && !outcome.0.Created?
    ensures Data(cfg, ApplyOpen(s, h, outcome))
  {
    var item := outcome.1.(attached := outcome.1.attached && !outcome.0.Created?);
    NobodyIn(s.item.pending, s.item.opens, s.handles);
    SettledDls(|cfg.remote|, s, item);
    if s.item.opens == 0 {
      SettleQuiet(s, item);
    }
    assert Settle(s, item).handles == s.handles;
    ReadersKept(cfg.remote, s.item, outcome.1, s.handles);
  }

  lemma DataRemoved(cfg: Config, s: System, step: Step)
    requires Sound(cfg, s) && Enabled(cfg, s, step) && (step.OpenGivesUp? || step.RemoveDone?) && !Harmful(cfg, s, step)
    ensures Data(cfg, Apply(cfg, s, step))
  {
    var s' := Apply(cfg, s, step);
    if step.OpenGivesUp? {
      RemoveSound(cfg.remote, s.item.(fd := NoFd));
    } else {
      RemoveSound(cfg.remote, s.item);
    }
    ReadersKept(cfg.remote, s.item, s'.item, s.handles);
  }

  /** A reader knows what is good beside the range it will wait for. */
  lemma DataLook(cfg: Config, s: System, h: nat)
    requires Sound(cfg, s) && Enabled(cfg, s, ReadLook(h))
    ensures Data(cfg, Apply(cfg, s, ReadLook(h)))
  {
    var s' := Apply(cfg, s, ReadLook(h));
    var Entered(off, len) := s.handles[h];
    var look := ReadBody(s.item, off, len);
    Counted(s.item, s.handles, h);
    if look.Wants? {
      LookSound(cfg.remote, s.item, off, len);
    }
    ReadersSet(cfg.remote, s.item, s.handles, h, s'.handles[h]);
  }

  lemma LookSound(remote: seq<byte>, it: ItemState, off: nat, len: nat)
    requires DataOk(remote, it) && BeyondOk(remote, it) && it.opens > 0 && !it.fd.NoFd?
    ensures var look := ReadBody(it, off, len);
            && RestGood(remote, it, off, len, look.r) && (look.present ==> SpanGood(remote, it, off, len))
  {
    var look := ReadBody(it, off, len);
    PresentExact(it.rs, look.r);
    forall x | off <= x < off + len && (look.present || !look.r.Has(x)) ensures Good(remote, it, x) {
      if look.r.Has(x) {
        assert Covers(it.rs, x);
      }
    }
  }

  lemma DataEnsure(cfg: Config, s: System, h: nat)
    requires Sound(cfg, s) && Enabled(cfg, s, ReadEnsure(h))
    ensures Data(cfg, Apply(cfg, s, ReadEnsure(h)))
  {
    var r := s.handles[h].r;
    EnsureDls(if s.item.attached then s.group else NO_GROUP, s.item.rs, s.item.size, |cfg.remote|, cfg.readAhead, r);
    DataAsked(cfg, s, h, Asked(cfg, s, r));
  }

  lemma DataAsked(cfg: Config, s: System, h: nat, asked: (Option<Error>, Group))
    requires Sound(cfg, s) && h in s.handles && s.handles[h].Ensuring? && DlsOk(|cfg.remote|, asked.1.dls)
    ensures Data(cfg, ApplyEnsure(s, h, asked))
  {
    var s' := ApplyEnsure(s, h, asked);
    assert ReaderOk(cfg.remote, s.item, s.handles[h]);
    ReadersSet(cfg.remote, s.item, s.handles, h, s'.handles[h]);
    ReadersKept(cfg.remote, s.item, s'.item, s'.handles);
    BeyondKept(cfg.remote, s.item, s'.item);
  }

  lemma RemoveClosedDls(total: nat, dls: seq<Dl>)
    requires DlsOk(total, dls)
    ensures DlsOk(total, RemoveClosed(dls))
  {
  }

  lemma EnsureDls(g: Group, rs: seq<Range>, size: int, total: nat, readAhead: nat, r: Range)
    requires DlsOk(total, g.dls)
    ensures DlsOk(total, Ensure(g, rs, size, total, readAhead, r).1.dls)
  {
    var w := Wanted(rs, size, r, readAhead);
    ObtainDls(g, w.0, w.1, total);
  }

  lemma ObtainDls(g: Group, w: Range, startNew: bool, total: nat)
    requires DlsOk(total, g.dls)
    ensures DlsOk(total, Obtain(g, w, startNew, total).1.dls)
  {
    var dls := RemoveClosed(g.dls);
    RemoveClosedDls(total, g.dls);
    var k := FirstNear(dls, w.pos, 0);
    if k < |dls| {
      assert DlOk(total, dls[k]);
    }
  }

  lemma {:induction false} EnsureEachDls(g: Group, rs: seq<Range>, size: int, total: nat, readAhead: nat,
                                         waiters: seq<Waiter>)
    requires DlsOk(total, g.dls)
    ensures DlsOk(total, EnsureEach(g, rs, size, total, readAhead, waiters).dls)
    decreases |waiters|
  {
    if waiters != [] {
      var n := |waiters| - 1;
      EnsureEachDls(g, rs, size, total, readAhead, waiters[..n]);
      EnsureDls(EnsureEach(g, rs, size, total, readAhead, waiters[..n]), rs, size, total, readAhead, waiters[n].r);
    }
  }

  lemma DataKick(cfg: Config, s: System)
    requires Sound(cfg, s) && Enabled(cfg, s, KickAll)
    ensures Data(cfg, Apply(cfg, s, KickAll))
  {
    var rs, size, total := s.item.rs, s.item.size, |cfg.remote|;
    var kicked := Kick(s.group, rs, size, total, cfg.readAhead);
    var g1 := s.group.(waiters := Remaining(s.group.waiters, rs, total));
    EnsureEachDls(g1, rs, size, total, cfg.readAhead, g1.waiters);
    forall h | h in s.handles ensures ReaderOk(cfg.remote, s.item, DeliverTo(s.handles[h], h, kicked.0)) {
      KickedReader(cfg, s, h);
    }
  }

  /** A waiter told that its range is there may read it. */
  lemma KickedReader(cfg: Config, s: System, h: nat)
    requires Sound(cfg, s) && s.item.attached && h in s.handles
    ensures ReaderOk(cfg.remote, s.item,
                     DeliverTo(s.handles[h], h, Kick(s.group, s.item.rs, s.item.size, |cfg.remote|, cfg.readAhead).0))
  {
    var total := |cfg.remote|;
    var answers := Kick(s.group, s.item.rs, s.item.size, total, cfg.readAhead).0;
    var p := s.handles[h];
    var q := DeliverTo(p, h, answers);
    DeliverKeepsKind(p, h, answers);
    assert ReaderOk(cfg.remote, s.item, p);
    if p.Waiting? && Answered(answers, h) && q.ok && !s.item.fd.NoFd? {
      KickAnswers(s.group, s.item.rs, s.item.size, total, cfg.readAhead);
      var a :| a in answers && a.id == h && q == Resumed(p.off, p.len, p.r, a.err == None);
      var w :| w in s.group.waiters && w.id == a.id && Ready(w, s.item.rs, total);
      ReadySpan(cfg.remote, s.item, p.off, p.len, w.r);
    }
  }

  lemma ReadySpan(remote: seq<byte>, it: ItemState, off: nat, len: nat, r: Range)
    requires DataOk(remote, it) && !it.fd.NoFd? && RestGood(remote, it, off, len, r) && Present(it.rs, r.Clip(|remote|))
    ensures SpanGood(remote, it, off, len)
  {
    PresentExact(it.rs, r.Clip(|remote|));
    forall x | off <= x < off + len ensures Good(remote, it, x) {
      if r.Has(x) && 0 <= x < |remote| {
        assert r.Clip(|remote|).Has(x);
        assert Covers(it.rs, x);
      }
    }
  }

  lemma DataReturn(cfg: Config, s: System, step: Step)
    requires Sound(cfg, s) && Enabled(cfg, s, step) && step.ReadReturn? && !Harmful(cfg, s, step)
    ensures Data(cfg, Apply(cfg, s, step))
  {
    var p := s.handles[step.h];
    Counted(s.item, s.handles, step.h);
    assert ReaderOk(cfg.remote, s.item, p);
    var outcome := ReadFinish(s.item, |cfg.remote|, p.off, p.len, step.check);
    if p.ok {
      ReadSound(cfg.remote, s.item, p.off, p.len, step.check);
      ReadersKept(cfg.remote, s.item, outcome.1, s.handles);
    }
    DataReturned(cfg, s, step.h, outcome);
  }

  lemma DataReturned(cfg: Config, s: System, h: nat, outcome: (Option<seq<byte>>, ItemState))
    requires Sound(cfg, s) && h in s.handles && s.handles[h].Resumed?
    requires s.handles[h].ok ==>
               && DataOk(cfg.remote, outcome.1) && BeyondOk(cfg.remote, outcome.1)
               && ReadersOk(cfg.remote, outcome.1, s.handles)
               && (outcome.0.Some? ==> outcome.0.value == Slice(cfg.remote, s.handles[h].off, s.handles[h].len))
    ensures Data(cfg, ApplyReturn(s, h, outcome))
  {
    var s' := ApplyReturn(s, h, outcome);
    ReadersSet(cfg.remote, s'.item, s.handles, h, Leaving(true));
  }

  lemma DataClose(cfg: Config, s: System, h: nat)
    requires Sound(cfg, s) && Enabled(cfg, s, CloseRun(h))
    ensures Data(cfg, Apply(cfg, s, CloseRun(h)))
  {
    CloseSound(cfg.remote, s.item, cfg.handleCaching);
    Counted(s.item, s.handles, h);
    var outcome := CloseBody(s.item, |cfg.remote|, cfg.handleCaching);
    if s.item.opens == 1 {
      AloneIn(s.item.pending, s.handles, h);
      SettleQuiet(s, outcome.1);
    }
    DataClosed(cfg, s, h, outcome);
  }

  lemma DataClosed(cfg: Config, s: System, h: nat, outcome: (CloseStep, ItemState))
    requires Sound(cfg, s) && h in s.handles && s.handles[h].ClosingStart? && Settle(s, outcome.1).handles == s.handles
    requires DataOk(cfg.remote, outcome.1) && BeyondOk(cfg.remote, outcome.1)
    requires KeepsGood(cfg.remote, s.item, outcome.1)
    ensures Data(cfg, ApplyClose(s, h, outcome))
  {
    var s' := ApplyClose(s, h, outcome);
    SettledDls(|cfg.remote|, s, outcome.1);
    ReadersKept(cfg.remote, s.item, s'.item, s.handles);
    ReadersSet(cfg.remote, s'.item, s.handles, h, s'.handles[h]);
  }

  lemma DataFinish(cfg: Config, s: System, step: Step)
    requires Sound(cfg, s) && Enabled(cfg, s, step) && (step.CloseDone? || step.GraceDone?)
    ensures Data(cfg, Apply(cfg, s, step))
  {
    var s' := Apply(cfg, s, step);
    GraceSound(cfg.remote, s.item);
    ReadersKept(cfg.remote, s.item, s'.item, s.handles);
    if step.CloseDone? {
      ReadersSet(cfg.remote, s'.item, s.handles, step.h, Leaving(false));
    }
  }

  lemma DataGrace(cfg: Config, s: System)
    requires Sound(cfg, s)
    ensures Data(cfg, Apply(cfg, s, GraceFires))
  {
    var outcome := GraceBody(s.item, |cfg.remote|);
    GraceSound(cfg.remote, s.item);
    NobodyIn(s.item.pending, s.item.opens, s.handles);
    if s.item.opens == 0 {
      SettleQuiet(s, outcome.1);
    }
    SettledDls(|cfg.remote|, s, outcome.1);
    ReadersKept(cfg.remote, s.item, outcome.1, s.handles);
  }

  lemma DataWrite(cfg: Config, s: System, step: Step)
    requires Sound(cfg, s) && Enabled(cfg, s, step) && (step.DlWrite? || step.StrayWrite?)
    ensures Data(cfg, Apply(cfg, s, step))
  {
    var d := if step.DlWrite? then s.group.dls[step.i] else s.strays[step.i];
    assert DlOk(|cfg.remote|, d);
    var item, d' := WriteSound(cfg, s.item, d, step.len, step.n);
    ReadersKept(cfg.remote, s.item, item, s.handles);
  }

  lemma DataDl(cfg: Config, s: System, step: Step)
    requires Sound(cfg, s) && Enabled(cfg, s, step) && (step.DlStop? || step.DlEnd? || step.StrayStop?)
    ensures Data(cfg, Apply(cfg, s, step))
  {
    assert DlOk(|cfg.remote|, if step.StrayStop? then s.strays[step.i] else s.group.dls[step.i]);
  }

  /** Asking for the size makes the item believe in the length of the file. */
  lemma DataSized(cfg: Config, s: System, h: nat)
    requires Sound(cfg, s) && Enabled(cfg, s, GetSize(h))
    ensures Data(cfg, Apply(cfg, s, GetSize(h)))
  {
    var it, it' := s.item, Apply(cfg, s, GetSize(h)).item;
    if Contents(it).Some? {
      SizedBeyond(cfg.remote, it');
    }
    SameFile(cfg.remote, it, it, it');
    ReadersKept(cfg.remote, it, it', s.handles);
  }

  lemma DataReset(cfg: Config, s: System, step: Step)
    requires Sound(cfg, s) && Enabled(cfg, s, step) && (step.ResetStart? || step.ResetStop?) && !Harmful(cfg, s, step)
    ensures Data(cfg, Apply(cfg, s, step))
  {
    NobodyIn(s.item.pending, s.item.opens, s.handles);
    if step.ResetStart? {
      DataResetStart(cfg, s, step.retry);
    } else {
      ResetSound(cfg.remote, s.item, step.close, step.check, step.create);
      ReadersKept(cfg.remote, s.item, ResetEnd(s.item, |cfg.remote|, step.close, step.check, step.create).3, s.handles);
    }
  }

  lemma DataResetStart(cfg: Config, s: System, retry: bool)
    requires Sound(cfg, s) && Enabled(cfg, s, ResetStart(retry))
    ensures Data(cfg, Apply(cfg, s, ResetStart(retry)))
  {
    var (rr, _, item) := ResetBegin(s.item);
    NobodyIn(s.item.pending, s.item.opens, s.handles);
    if rr.Resetting? {
      SettleQuiet(s, item);
      SettledDls(|cfg.remote|, s, item);
      BeyondKept(cfg.remote, s.item, item);
      ReadersKept(cfg.remote, s.item, item, s.handles);
    }
  }

  lemma DataThread(cfg: Config, s: System, step: Step)
    requires Sound(cfg, s) && Enabled(cfg, s, step) && !Harmful(cfg, s, step)
    requires step.OpenRun? || step.OpenGivesUp? || step.ReadLook? || step.ReadEnsure? || step.ReadReturn?
          || step.CloseRun? || step.CloseDone?
    ensures Data(cfg, Apply(cfg, s, step))
  {
    match step
    case OpenRun(_, _, _, _) => DataOpen(cfg, s, step);
    case OpenGivesUp(_) => DataRemoved(cfg, s, step);
    case ReadLook(h) => DataLook(cfg, s, h);
    case ReadEnsure(h) => DataEnsure(cfg, s, h);
    case ReadReturn(_, _) => DataReturn(cfg, s, step);
    case CloseRun(h) => DataClose(cfg, s, h);
    case CloseDone(_) => DataFinish(cfg, s, step);
  }

  lemma DataBehind(cfg: Config, s: System, step: Step)
    requires Sound(cfg, s) && Enabled(cfg, s, step) && !Harmful(cfg, s, step)
    requires step.GraceFires? || step.GraceDone? || step.DlWrite? || step.StrayWrite? || step.DlStop? || step.DlEnd?
          || step.StrayStop? || step.KickAll? || step.GetSize?
    ensures Data(cfg, Apply(cfg, s, step))
  {
    match step
    case GraceDone => DataFinish(cfg, s, step);
    case GraceFires => DataGrace(cfg, s);
    case DlWrite(_, _, _) => DataWrite(cfg, s, step);
    case StrayWrite(_, _, _) => DataWrite(cfg, s, step);
    case DlStop(_) => DataDl(cfg, s, step);
    case DlEnd(_, _, _) => DataDl(cfg, s, step);
    case StrayStop(_) => DataDl(cfg, s, step);
    case GetSize(h) => DataSized(cfg, s, h);
    case KickAll => DataKick(cfg, s);
  }

  /** Every step that does no harm keeps the agreement. */
  lemma StepKeepsSound(cfg: Config, s: System, step: Step)
    requires Sound(cfg, s) && Enabled(cfg, s, step) && !Harmful(cfg, s, step)
    ensures Sound(cfg, Apply(cfg, s, step))
  {
    StepKeepsCore(cfg, s, step);
    if step.OpenRun? || step.OpenGivesUp? || step.ReadLook? || step.ReadEnsure? || step.ReadReturn?
      || step.CloseRun? || step.CloseDone? {
      DataThread(cfg, s, step);
    } else if step.RemoveDone? {
      DataRemoved(cfg, s, step);
    } else if step.ResetStart? || step.ResetStop? {
      DataReset(cfg, s, step);
    } else if step.OpenEnter? || step.ReadEnter? || step.CloseEnter? || step.Leave? || step.Evict? || step.RetryGone? {
      DataQuiet(cfg, s, step);
    } else {
      DataBehind(cfg, s, step);
    }
  }

  // ---------- Calm runs ----------

  lemma {:induction false} CalmKeepsSound(cfg: Config, s: System, steps: seq<Step>)
    requires Sound(cfg, s) && Legal(cfg, s, steps) && Calm(cfg, s, steps)
    ensures Sound(cfg, Exec(cfg, s, steps))
    decreases |steps|
  {
    if steps != [] {
      StepKeepsSound(cfg, s, steps[0]);
      CalmKeepsSound(cfg, Apply(cfg, s, steps[0]), steps[1..]);
    }
  }

  /** An item nobody has opened yet: without a file, or with one loaded from an earlier run. */
  ghost predicate Start(cfg: Config, s: System) { AtRest(s) && DataOk(cfg.remote, s.item) }

  lemma StartSound(cfg: Config, s: System)
    requires Start(cfg, s)
    ensures Sound(cfg, s)
  {
    RestIsCore(s);
  }

  /** Over every calm run, whatever ReadAt returned with nil or EOF is what the remote holds there. */
  lemma ReadsAgree(cfg: Config, s: System, steps: seq<Step>)
    requires Start(cfg, s) && Legal(cfg, s, steps) && Calm(cfg, s, steps)
    ensures LogOk(cfg.remote, Exec(cfg, s, steps).log)
  {
    StartSound(cfg, s);
    CalmKeepsSound(cfg, s, steps);
  }

  /** Over every calm run, present bytes are the remote's bytes, in whatever file the open handle leads to. */
  lemma PresentBytesAgree(cfg: Config, s: System, steps: seq<Step>)
    requires Start(cfg, s) && Legal(cfg, s, steps) && Calm(cfg, s, steps)
    ensures var it := Exec(cfg, s, steps).item;
            && Canonical(it.rs)
            && (Contents(it).Some? ==> FileOk(cfg.remote, it.rs, Contents(it).value))
  {
    StartSound(cfg, s);
    CalmKeepsSound(cfg, s, steps);
  }
}
