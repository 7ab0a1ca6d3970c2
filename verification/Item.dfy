/**
 The cached copy of one remote file: its bytes on disk, the ranges that are present, and
 the access and reset protocol around them.

 `ItemState` is the value of an item's fields.  The functions on it say what one
 uninterrupted section of the source (a stretch under the item mutex) does; class `Item`
 has the fields themselves, and its methods are proved to do just that.
 Failing system calls are parameters, so every statement holds for every pattern of failures.
 */
module CacheItem {
  import opened PlainReader
  import opened Ranges
  import opened Wrappers

  /** The open file handle: none, on the file at the item's path, or on a file unlinked since. */
  datatype Fd = NoFd | OnPath | Unlinked(data: seq<byte>)

  datatype Error = NoSpace | OtherError

  datatype ItemState = ItemState(
    opens: int,
    pending: int,                // threads between preAccess and postAccess
    beingReset: bool,
    grace: bool,                 // a grace timer is set
    fd: Fd,
    disk: Option<seq<byte>>,     // the file at the item's path
    rs: seq<Range>,
    size: int,
    dirty: bool,
    attached: bool               // downloaders are set
  )

  /** The bytes the presence set speaks about. */
  function Contents(s: ItemState): Option<seq<byte>> {
    if s.fd.Unlinked? then Some(s.fd.data) else s.disk
  }

  function WithContents(s: ItemState, data: seq<byte>): ItemState {
    s.(fd := if s.fd.Unlinked? then Unlinked(data) else s.fd, disk := if s.fd.Unlinked? then s.disk else Some(data))
  }

  /** The number of bytes present, which the source takes as the space used. */
  ghost function DiskSize(s: ItemState): nat { |Bytes(s.rs)| }

  lemma EmptyDiskSize(rs: seq<Range>)
    requires Canonical(rs)
    ensures |Bytes(rs)| == 0 <==> rs == []
  {
    if rs == [] {
      NothingCovered(rs);
    } else {
      HeadCovered(rs);
      assert rs[0].pos in Bytes(rs);
    }
  }

  // ---------- File contents ----------

  function At(data: seq<byte>, x: int): byte { if 0 <= x < |data| then data[x] else 0 }

  function Resize(data: seq<byte>, n: nat): seq<byte> {
    if n <= |data| then data[..n] else data + seq(n - |data|, _ => 0)
  }

  /** The file after `chunk` was written at `off`; a hole left before it reads as zeros. */
  function Patch(data: seq<byte>, off: nat, chunk: seq<byte>): (r: seq<byte>)
    ensures forall x :: At(r, x) == if off <= x < off + |chunk| then chunk[x - off] else At(data, x)
    ensures |r| == if chunk == [] then |data| else Max(|data|, off + |chunk|)
  {
    if chunk == [] then data
    else
      var base := if |data| < off then Resize(data, off) else data;
      base[..off] + chunk + (if off + |chunk| < |base| then base[off + |chunk|..] else [])
  }

  // ---------- Sections of the source ----------

  /** A failing system call of _truncate: opening the file, or changing its length. */
  datatype CheckFault = Fine | CannotOpen(error: Error) | CannotTruncate(error: Error)

  /** _truncate: make the file `n` bytes long, creating it if necessary. */
  ghost function Truncate(s: ItemState, n: nat, fault: CheckFault): (Option<Error>, ItemState) {
    // a file that should exist but does not was removed externally: nothing is present any more
    var lost := s.fd.NoFd? && s.disk.None? && DiskSize(s) != 0;
    var unopened := s.fd.NoFd? && fault.CannotOpen?;
    var data := if Contents(s).Some? then Contents(s).value else [];
    var unsized := |data| != n && fault.CannotTruncate?;
    var file := if unopened then Contents(s) else Some(if unsized then data else Resize(data, n));
    (if unopened || unsized then Some(fault.error) else None,
     s.(rs := if lost then [] else s.rs,
        dirty := s.dirty && !lost,
        fd := if s.fd.Unlinked? then Unlinked(file.value) else s.fd,
        disk := if s.fd.Unlinked? then s.disk else file,
        size := if unopened || unsized then s.size else n))
  }

  /** The file cannot be opened, or has another length and cannot get the wanted one. */
  predicate SizingFails(s: ItemState, n: nat, fault: CheckFault) {
    || (fault.CannotOpen? && s.fd.NoFd?)
    || (fault.CannotTruncate? && n != if Contents(s).Some? then |Contents(s).value| else 0)
  }

  /** _truncate fails exactly for those two reasons, and otherwise the file has the wanted length. */
  lemma TruncateFailsIff(s: ItemState, n: nat, fault: CheckFault)
    requires HandleOk(s)
    ensures var (err, s') := Truncate(s, n, fault);
            && (err.Some? <==> SizingFails(s, n, fault)) && (err.Some? ==> err == Some(fault.error))
            && (err == None ==> s'.size == n && Contents(s').Some? && |Contents(s').value| == n)
  {
  }

  /** Nothing but the file, the presence set and the size is touched, and the handle leads to the same kind of file. */
  ghost predicate Touched(s: ItemState, s': ItemState) {
    && s'.opens == s.opens && s'.pending == s.pending && s'.beingReset == s.beingReset
    && s'.grace == s.grace && s'.attached == s.attached && (s'.dirty ==> s.dirty)
    && match s.fd
       case NoFd => s'.fd.NoFd?
       case OnPath => s'.fd.OnPath? && s'.disk.Some? && s'.rs == s.rs
       case Unlinked(_) => s'.fd.Unlinked? && s'.disk == s.disk && s'.rs == s.rs
  }

  lemma TruncateTouches(s: ItemState, n: nat, fault: CheckFault)
    requires HandleOk(s)
    ensures Touched(s, Truncate(s, n, fault).1)
  {
  }

  lemma CheckTouches(s: ItemState, total: nat, fault: CheckFault)
    requires HandleOk(s)
    ensures Touched(s, CheckObject(s, total, fault).1)
  {
    var size := FileLength(s, total);
    TruncateTouches(s.(size := size), size, fault);
  }

  /** _checkObject for an unchanged remote of `total` bytes: size the file as it is, or create it. */
  ghost function CheckObject(s: ItemState, total: nat, fault: CheckFault): (Option<Error>, ItemState) {
    var size := FileLength(s, total);
    Truncate(s.(size := size), size, fault)
  }

  /** _createFile: open the file at the path; `fault` is a failing open or a failing save. */
  function CreateFile(s: ItemState, fault: Option<Error>): (Option<Error>, ItemState) {
    if !s.fd.NoFd? || s.disk.None? then (Some(OtherError), s)
    else if fault.Some? then (fault, s)
    else (None, s.(fd := OnPath))
  }

  /** _remove: delete the file and the metadata; an open handle keeps the unlinked file. */
  function RemoveFiles(s: ItemState): ItemState {
    s.(rs := [], size := 0, dirty := false, disk := None,
       fd := if s.fd.OnPath? && s.disk.Some? then Unlinked(s.disk.value) else s.fd)
  }

  /** How an open went; after CreateFailed it is still to be undone. */
  datatype OpenStep = NotOpened(error: Error) | Joined | Recovered | Created | CreateFailed(error: Error)

  /**
   open, up to where a failed creation gives up the lock to undo it; the window around
   Cache.put and that of stopping old downloads are part of it.
   */
  ghost function OpenBody(s: ItemState, total: nat, mkdir: Option<Error>, check: CheckFault, create: Option<Error>)
    : (OpenStep, ItemState)
  {
    if mkdir.Some? then (NotOpened(mkdir.value), s) else OpenChecked(CheckObject(s, total, check), create)
  }

  function OpenChecked(checked: (Option<Error>, ItemState), create: Option<Error>): (OpenStep, ItemState) {
    var (err, s) := checked;
    if err.Some? then (NotOpened(err.value), s)
    else if s.opens != 0 then (Joined, s.(opens := s.opens + 1))
    else OpenFirst(s.(opens := 1), create)
  }

  /** The part of open for the first opener: leave the grace period, or open the file. */
  function OpenFirst(s: ItemState, create: Option<Error>): (OpenStep, ItemState) {
    if s.grace && s.disk.Some? then (Recovered, s.(grace := false))
    else
      var s1 := if s.grace then s.(grace := false, fd := NoFd, attached := false) else s;
      var (err, s2) := CreateFile(s1, create);
      if err.Some? then (CreateFailed(err.value), s2) else (Created, s2.(attached := true))
  }

  /** The rest of an open whose creation failed. */
  function OpenUndo(s: ItemState): ItemState { RemoveFiles(s).(fd := NoFd, opens := s.opens - 1) }

  /** A whole open, when nothing comes between a failed creation and its undoing. */
  ghost function OpenWhole(s: ItemState, total: nat, mkdir: Option<Error>, check: CheckFault, create: Option<Error>)
    : (Option<Error>, ItemState)
  {
    var (how, s') := OpenBody(s, total, mkdir, check, create);
    if how.CreateFailed? then (Some(how.error), OpenUndo(s'))
    else (if how.NotOpened? then Some(how.error) else None, s')
  }

  /** The failing system calls of one try to open. */
  datatype OpenFaults = OpenFaults(mkdir: Option<Error>, check: CheckFault, create: Option<Error>)

  /**
   What an open promises.  It counts exactly when it succeeds, and nobody else's handle and
   downloads change.  After a success the first opener has ended the grace period, or has got
   a handle and downloads, and the item has a file and knows its length.
   */
  ghost predicate OpenPromise(s: ItemState, ok: bool, s': ItemState) {
    && s'.pending == s.pending && s'.beingReset == s.beingReset && s'.opens == s.opens + (if ok then 1 else 0)
    && (s.opens > 0 ==> s'.fd.NoFd? == s.fd.NoFd? && s'.attached == s.attached && s'.grace == s.grace)
    && (s'.grace ==> s.grace)
    && (ok && s.opens == 0 ==> !s'.grace && (!s.grace ==> s'.fd.OnPath? && s'.attached))
    && (ok && !s.grace ==> Contents(s').Some? && s'.size == |Contents(s').value|)
  }

  /**
   A try that succeeds keeps the file there is, with all that is present in it, or makes one as
   long as the remote.  Out of the grace period handle and downloads come back as well.
   */
  ghost predicate FileOpened(s: ItemState, total: nat, s': ItemState) {
    if s.opens == 0 && s.grace then
      s.disk.Some? ==> s'.fd == s.fd && s'.attached == s.attached && s'.disk == s.disk && s'.rs == s.rs
    else if Contents(s).Some? then Contents(s') == Contents(s) && s'.rs == s.rs
    else s'.size == total
  }

  lemma OpenKeepsPromise(s: ItemState, total: nat, mkdir: Option<Error>, check: CheckFault, create: Option<Error>)
    requires HandleOk(s)
    ensures var (err, s') := OpenWhole(s, total, mkdir, check, create);
            OpenPromise(s, err == None, s') && (err == None ==> FileOpened(s, total, s'))
  {
    if mkdir == None {
      CheckKnowsLength(s, total, check);
      CheckedKeepsPromise(s, total, CheckObject(s, total, check), create);
    }
  }

  lemma CheckKnowsLength(s: ItemState, total: nat, check: CheckFault)
    requires HandleOk(s)
    ensures Checked(s, total, CheckObject(s, total, check))
  {
    CheckTouches(s, total, check);
    if Contents(s).Some? {
      var d := Contents(s).value;
      assert Resize(d, |d|) == d;
    }
  }

  ghost predicate Checked(s: ItemState, total: nat, checked: (Option<Error>, ItemState)) {
    var (err, s') := checked;
    && Touched(s, s')
    && (err == None ==>
          && Contents(s').Some? && s'.size == |Contents(s').value| && (s.disk.Some? ==> s'.disk == s.disk)
          && if Contents(s).Some? then Contents(s') == Contents(s) && s'.rs == s.rs else s'.size == total)
  }

  lemma CheckedKeepsPromise(s: ItemState, total: nat, checked: (Option<Error>, ItemState), create: Option<Error>)
    requires Checked(s, total, checked)
    ensures var (how, s') := OpenChecked(checked, create);
            var s'' := if how.CreateFailed? then OpenUndo(s') else s';
            var ok := !how.NotOpened? && !how.CreateFailed?;
            OpenPromise(s, ok, s'') && (ok ==> FileOpened(s, total, s''))
  {
  }

  /** An old handle is still being closed, or the file is gone, or the system fails. */
  predicate CreateFails(s: ItemState, create: Option<Error>) {
    if s.grace then s.fd.Unlinked? && s.disk.None? else !s.fd.NoFd? || create.Some?
  }

  /** Does an open fail? */
  predicate OpenFails(s: ItemState, total: nat, f: OpenFaults) {
    || f.mkdir.Some?
    || SizingFails(s, FileLength(s, total), f.check)
    || (s.opens == 0 && CreateFails(s, f.create))
  }

  /** An open fails only with the system, or while the handle of an earlier one is being closed. */
  lemma OpenFailsIff(s: ItemState, total: nat, f: OpenFaults)
    requires HandleOk(s)
    ensures OpenWhole(s, total, f.mkdir, f.check, f.create).0.Some? <==> OpenFails(s, total, f)
  {
  }

  datatype CloseStep = AlreadyClosed | StillOpen | InGrace | Closing

  /** Close, up to where the source releases the lock to stop the downloaders. */
  function CloseBody(s: ItemState, total: nat, handleCaching: bool): (CloseStep, ItemState) {
    var s1 := s.(opens := s.opens - 1);
    if s1.opens < 0 then (AlreadyClosed, s1)
    else if s1.opens > 0 then (StillOpen, s1)
    else if handleCaching && !s1.dirty then (InGrace, s1.(grace := true))
    else (Closing, s1.(attached := false, size := FileLength(s1, total)))
  }

  /** The grace timer fires: nothing, or the same as a close. */
  function GraceBody(s: ItemState, total: nat): (CloseStep, ItemState) {
    if s.opens > 0 || !s.grace then (StillOpen, s)
    else (Closing, s.(grace := false, attached := false, size := FileLength(s, total)))
  }

  /** _getSize: the size of the file, or that of the remote when there is no file. */
  function FileLength(s: ItemState, total: nat): int {
    if Contents(s).Some? then |Contents(s).value| else total
  }

  /** The rest of a close, once the downloaders have stopped. */
  function CloseFinish(s: ItemState): ItemState { s.(fd := NoFd) }

  /** Does RemoveNotInUse decide to remove the item?  `expired` tells that the age allows it. */
  ghost predicate MayRemove(s: ItemState, expired: bool, emptyOnly: bool) {
    s.opens == 0 && !s.dirty && !s.grace && expired && (emptyOnly ==> DiskSize(s) == 0)
  }

  /** RemoveNotInUse when nothing comes between its decision and the removal. */
  ghost function RemoveUnused(s: ItemState, expired: bool, emptyOnly: bool): (bool, nat, ItemState) {
    if MayRemove(s, expired, emptyOnly) then (true, DiskSize(s), RemoveFiles(s)) else (false, 0, s)
  }

  datatype ResetResult =
    | SkippedDirty | SkippedPendingAccess | SkippedEmpty | SkippedGrace
    | RemovedNotInUse | ResetFailed | ResetComplete
    | Resetting                  // went on to the destructive part

  /** Reset, up to where the source releases the lock to close the downloaders. */
  ghost function ResetBegin(s: ItemState): (ResetResult, nat, ItemState) {
    if s.opens == 0 && !s.dirty && !s.grace then (RemovedNotInUse, DiskSize(s), RemoveFiles(s))
    else if s.dirty then (SkippedDirty, 0, s)
    else if s.grace then (SkippedGrace, 0, s)
    else if s.pending > 0 then (SkippedPendingAccess, 0, s)
    else if DiskSize(s) == 0 && !s.beingReset then (SkippedEmpty, 0, s)
    else (Resetting, 0, s.(beingReset := true, attached := false))
  }

  /** The rest of Reset.  Only an ENOSPC in _createFile leaves the item being reset. */
  ghost function ResetEnd(s: ItemState, total: nat, close: Option<Error>, check: CheckFault, create: Option<Error>)
    : (ResetResult, Option<Error>, nat, ItemState)
  {
    if s.fd != NoFd && close.Some? then (ResetFailed, close, 0, s.(beingReset := false))
    else
      var (err, s1) := Recreate(RemoveFiles(s.(fd := NoFd)), total, check, create);
      (if err.Some? then ResetFailed else ResetComplete, err, DiskSize(s), s1)
  }

  /** A file and a handle for an item whose files were removed. */
  ghost function Recreate(s: ItemState, total: nat, check: CheckFault, create: Option<Error>)
    : (Option<Error>, ItemState)
  {
    Recreated(CheckObject(s, total, check), create)
  }

  function Recreated(checked: (Option<Error>, ItemState), create: Option<Error>): (Option<Error>, ItemState) {
    var (err, s1) := checked;
    if err.Some? then (err, s1.(beingReset := false))
    else
      var (err', s2) := CreateFile(s1, create);
      if err'.Some? then (err', RemoveFiles(s2).(fd := NoFd, beingReset := err'.value == NoSpace))
      else (None, s2.(attached := true, beingReset := false))
  }

  /**
   Reset takes away what nobody uses, goes on with a clean item open but not in an access, and leaves
   all others alone.
   */
  lemma ResetDecides(s: ItemState)
    ensures var (rr, freed, s') := ResetBegin(s);
            var unused := s.opens == 0 && !s.dirty && !s.grace;
            && (rr.RemovedNotInUse? <==> unused)
            && (rr.Resetting? <==>
                  !unused && !s.dirty && !s.grace && s.pending <= 0 && (DiskSize(s) > 0 || s.beingReset))
            && !rr.ResetFailed? && !rr.ResetComplete?
            && (unused ==> s'.disk == None && s'.rs == [] && freed == DiskSize(s))
            && (!unused ==> freed == 0)
            && (!unused && !rr.Resetting? ==> s' == s)
  {
  }

  /**
   The second part of Reset succeeds exactly when no system call fails, and then the item is
   empty, open on a new file as long as the remote.  It stays in reset exactly when all but
   the opening of the new file went well and that found no space.
   */
  lemma ResetOutcome(s: ItemState, total: nat, close: Option<Error>, check: CheckFault, create: Option<Error>)
    ensures var (rr, err, freed, s') := ResetEnd(s, total, close, check, create);
            var kept := !s.fd.NoFd? && close.Some?;
            var sized := !check.CannotOpen? && !(check.CannotTruncate? && total != 0);
            && (err == None <==> !kept && sized && create == None) && (rr.ResetComplete? <==> err == None)
            && (rr.ResetFailed? <==> err.Some?) && freed == (if kept then 0 else DiskSize(s))
            && (s'.beingReset <==> !kept && sized && create == Some(NoSpace))
            && (err == None ==> NewlyOpen(s', total))
  {
    EmptyDiskSize([]);
    RecreateOutcome(RemoveFiles(s.(fd := NoFd)), total, check, create);
  }

  /** Nothing is present, and the file is open, new and as long as the remote. */
  ghost predicate NewlyOpen(s: ItemState, total: nat) {
    s.fd.OnPath? && s.attached && s.rs == [] && s.size == total && s.disk == Some(Resize([], total))
  }

  lemma RecreateOutcome(s: ItemState, total: nat, check: CheckFault, create: Option<Error>)
    requires s.fd.NoFd? && s.disk == None && s.rs == []
    ensures var (err, s') := Recreate(s, total, check, create);
            var sized := !check.CannotOpen? && !(check.CannotTruncate? && total != 0);
            && (err == None <==> sized && create == None) && (s'.beingReset <==> sized && create == Some(NoSpace))
            && (err == None ==> NewlyOpen(s', total))
  {
    EmptyDiskSize([]);
  }

  datatype ReadStep = ReadFails | AtEnd | Wants(r: Range, present: bool)

  /** The first part of readAt and _ensure: which range is wanted, and is it there? */
  function ReadBody(s: ItemState, off: int, len: nat): ReadStep {
    if s.fd.NoFd? then ReadFails
    else if off < 0 then AtEnd
    else
      var r := Range(off, if off + len > s.size then s.size - off else len);
      Wants(r, Present(s.rs, r))
  }

  /** The last part of readAt: follow a change of size, then read the file. */
  ghost function ReadFinish(s: ItemState, total: nat, off: nat, len: nat, fault: CheckFault)
    : (Option<seq<byte>>, ItemState)
  {
    ReadFile(if !s.dirty && total != s.size then Truncate(s, total, fault) else (None, s), off, len)
  }

  function ReadFile(sized: (Option<Error>, ItemState), off: nat, len: nat): (Option<seq<byte>>, ItemState) {
    (if sized.0.Some? || sized.1.fd.NoFd? || Contents(sized.1).None? then None
     else Some(Slice(Contents(sized.1).value, off, len)),
     sized.1)
  }

  lemma ReadTouches(s: ItemState, total: nat, off: nat, len: nat, fault: CheckFault)
    requires HandleOk(s)
    ensures Touched(s, ReadFinish(s, total, off, len, fault).1)
  {
    TruncateTouches(s, total, fault);
  }

  /** What a reader wants are the bytes inside the file; only a closed handle or a negative offset want none. */
  lemma ReadBodyExact(s: ItemState, off: int, len: nat)
    requires Canonical(s.rs)
    ensures var look := ReadBody(s, off, len);
            && (look.ReadFails? <==> s.fd.NoFd?) && (look.AtEnd? <==> !s.fd.NoFd? && off < 0)
            && (look.Wants? ==>
                  && look.r.pos == off && (forall x :: look.r.Has(x) <==> off <= x < off + len && x < s.size)
                  && (look.present <==> AllPresent(s.rs, off, Min(off + len, s.size))))
  {
    if off >= 0 {
      var r := Range(off, if off + len > s.size then s.size - off else len);
      PresentExact(s.rs, r);
      assert forall x :: r.Has(x) <==> off <= x < Min(off + len, s.size);
    }
  }

  /**
   The last part of a read fails exactly when the handle is closed, or the file has to be
   sized and cannot be; otherwise it returns what the file holds.
   */
  lemma ReadFailsIff(s: ItemState, total: nat, off: nat, len: nat, fault: CheckFault)
    requires HandleOk(s)
    ensures var (data, s') := ReadFinish(s, total, off, len, fault);
            && (data.None? <==>
                  s.fd.NoFd? || (!s.dirty && s.size != total && SizingFails(s, total, fault)))
            && (data.Some? ==> Contents(s').Some? && data.value == Slice(Contents(s').value, off, len))
  {
  }

  /** FindMissing of an item: what of `r` must be downloaded, within the file. */
  function Missing(rs: seq<Range>, size: int, r: Range): Range {
    Ranges.FindMissing(rs, r).Clip(size)
  }

  // ---------- Writing without overwriting ----------

  /** An open handle always leads to a file. */
  ghost predicate HandleOk(s: ItemState) { s.fd.OnPath? ==> s.disk.Some? }

  /** Only the bytes of the open file, and the presence set, may differ. */
  ghost predicate SameButFile(s: ItemState, s': ItemState) {
    && s' == s.(fd := s'.fd, disk := s'.disk, rs := s'.rs)
    && (if s.fd.Unlinked? then s'.fd.Unlinked? && s'.disk == s.disk else s'.fd == s.fd && s'.disk.Some?)
  }

  /** `b[..n]` was processed at `off`: absent bytes written, present bytes left alone, all marked present. */
  ghost predicate Processed(s: ItemState, s': ItemState, b: seq<byte>, off: int, n: nat)
    requires HandleOk(s)
  {
    match s.fd
    case NoFd => n <= |b| && Marked(s.rs, s'.rs, off, n) && s' == s
    case _ =>
      && n <= |b| && Marked(s.rs, s'.rs, off, n) && SameButFile(s, s')
      && Overlaid(Contents(s).value, Contents(s').value, s.rs, b, off, n)
  }

  ghost function OverlaidByte(d: seq<byte>, rs: seq<Range>, b: seq<byte>, off: int, n: nat, x: int): byte
    requires n <= |b|
  {
    if off <= x < off + n && !Covers(rs, x) then b[x - off] else At(d, x)
  }

  /** The new file differs from the old one exactly on the absent bytes of [off, off + n), and reaches that far. */
  ghost predicate Overlaid(d: seq<byte>, d': seq<byte>, rs: seq<Range>, b: seq<byte>, off: int, n: nat)
    requires n <= |b|
  {
    && (forall x :: At(d', x) == OverlaidByte(d, rs, b, off, n, x))
    && (0 <= off && InFile(rs, d) ==> |d'| == if n == 0 then |d| else Max(|d|, off + n))
  }

  /** No byte is present behind the end of the file. */
  ghost predicate InFile(rs: seq<Range>, d: seq<byte>) { forall x :: Covers(rs, x) ==> x < |d| }

  /** Besides the bytes of `rs`, `rs'` has the `n` bytes at `off`. */
  ghost predicate Marked(rs: seq<Range>, rs': seq<Range>, off: int, n: nat) {
    Canonical(rs') && forall x :: Covers(rs', x) <==> Covers(rs, x) || off <= x < off + n
  }

  lemma MarkedExact(rs: seq<Range>, rs': seq<Range>, off: int, n: nat)
    requires Canonical(rs)
    ensures Marked(rs, rs', off, n) <==> rs' == InsertSpec(rs, Range(off, n))
  {
    InsertSpecExact(rs, Range(off, n));
    assert forall x :: Range(off, n).Has(x) <==> off <= x < off + n;
    if Marked(rs, rs', off, n) {
      CanonicalUnique(rs', InsertSpec(rs, Range(off, n)));
    }
  }

  ghost predicate AllPresent(rs: seq<Range>, from: int, to: int) { forall x :: from <= x < to ==> Covers(rs, x) }

  ghost predicate AllAbsent(rs: seq<Range>, from: int, to: int) { forall x :: from <= x < to ==> !Covers(rs, x) }

  lemma OverlayPresent(d: seq<byte>, d': seq<byte>, rs: seq<Range>, b: seq<byte>, off: int, n: nat, m: nat)
    requires n + m <= |b| && Overlaid(d, d', rs, b, off, n) && AllPresent(rs, off + n, off + n + m)
    ensures Overlaid(d, d', rs, b, off, n + m)
  {
    assert m > 0 ==> Covers(rs, off + n + m - 1);
  }

  lemma OverlayAbsent(d: seq<byte>, d': seq<byte>, rs: seq<Range>, b: seq<byte>, off: int, n: nat, m: nat)
    requires 0 <= off + n && n + m <= |b| && Overlaid(d, d', rs, b, off, n) && AllAbsent(rs, off + n, off + n + m)
    ensures Overlaid(d, Patch(d', off + n, b[n..n + m]), rs, b, off, n + m)
  {
  }

  /** How many of the `n` bytes at `off` are present. */
  ghost function PresentCount(rs: seq<Range>, off: int, n: nat): nat {
    if n == 0 then 0 else PresentCount(rs, off, n - 1) + if Covers(rs, off + n - 1) then 1 else 0
  }

  lemma {:induction false} PresentCountExact(rs: seq<Range>, off: int, n: nat)
    ensures PresentCount(rs, off, n) == |Bytes(rs) * Interval(off, off + n)|
    decreases n
  {
    if n == 0 {
      assert Bytes(rs) * Interval(off, off) == {};
    } else {
      PresentCountExact(rs, off, n - 1);
      OneMore(Bytes(rs), off, off + n - 1);
    }
  }

  lemma OneMore(s: set<int>, from: int, x: int)
    requires from <= x
    ensures |s * Interval(from, x + 1)| == |s * Interval(from, x)| + if x in s then 1 else 0
  {
    assert Interval(from, x + 1) == Interval(from, x) + {x};
    var before := s * Interval(from, x);
    if x in s {
      assert s * Interval(from, x + 1) == before + {x};
    } else {
      assert s * Interval(from, x + 1) == before;
    }
  }

  lemma {:induction false} CountPresent(rs: seq<Range>, off: int, n: nat, m: nat)
    ensures AllPresent(rs, off + n, off + n + m) ==> PresentCount(rs, off, n + m) == PresentCount(rs, off, n) + m
    ensures AllAbsent(rs, off + n, off + n + m) ==> PresentCount(rs, off, n + m) == PresentCount(rs, off, n)
    decreases m
  {
    if m > 0 {
      CountPresent(rs, off, n, m - 1);
    }
  }

  lemma WriteStart(s: ItemState, b: seq<byte>, off: int)
    requires HandleOk(s) && Canonical(s.rs)
    ensures Processed(s, s, b, off, 0) && PresentCount(s.rs, off, 0) == 0
  {
  }

  /** Skipping a present piece of `m` bytes. */
  lemma StepPresent(was: ItemState, now: ItemState, b: seq<byte>, off: int, n: nat, m: nat)
    requires HandleOk(was) && Canonical(was.rs) && Processed(was, now, b, off, n) && n + m <= |b|
    requires AllPresent(was.rs, off + n, off + n + m)
    ensures Processed(was, now, b, off, n + m)
  {
    if !was.fd.NoFd? {
      OverlayPresent(Contents(was).value, Contents(now).value, was.rs, b, off, n, m);
    }
  }

  lemma WroteNothing(before: ItemState, after: ItemState, b: seq<byte>, off: int, n: nat)
    requires HandleOk(before) && n <= |b| && Canonical(before.rs)
    requires Marked(before.rs, after.rs, off + n, 0) && WroteChunk(before, after, b, off, n, 0)
    ensures after == before
  {
    CanonicalUnique(before.rs, after.rs);
  }

  /** Writing the first `m` bytes of an absent piece. */
  lemma StepAbsent(was: ItemState, before: ItemState, after: ItemState, b: seq<byte>, off: int, n: nat, m: nat)
    requires HandleOk(was) && Canonical(was.rs) && Processed(was, before, b, off, n) && n + m <= |b|
    requires AllAbsent(was.rs, off + n, off + n + m)
    requires Marked(before.rs, after.rs, off + n, m)
    requires WroteChunk(before, after, b, off, n, m)
    ensures Processed(was, after, b, off, n + m)
  {
    if m == 0 {
      WroteNothing(before, after, b, off, n);
    } else {
      OverlayAbsent(Contents(was).value, Contents(before).value, was.rs, b, off, n, m);
    }
  }

  /** One write call put `b[n..n + m]` at its place, and nothing else happened to the item's file. */
  ghost predicate WroteChunk(s: ItemState, s': ItemState, b: seq<byte>, off: int, n: nat, m: nat)
    requires n + m <= |b|
  {
    if m == 0 then s' == s.(rs := s'.rs)
    else
      && !s.fd.NoFd? && 0 <= off + n && Contents(s).Some?
      && SameButFile(s, s') && Contents(s').value == Patch(Contents(s).value, off + n, b[n..n + m])
  }

  /** In a tiling every piece ends where the next one starts, the last one at the end. */
  lemma {:induction false} TileEnd(rs: seq<Range>, frs: seq<FoundRange>, from: int, to: int, i: nat)
    requires Tiles(rs, frs, from, to) && i < |frs|
    ensures frs[i].r.End() == (if i + 1 < |frs| then frs[i + 1].r.pos else to) <= to
    decreases |frs| - i
  {
    if i + 1 < |frs| {
      TileEnd(rs, frs, from, to, i + 1);
    }
  }

  /** A piece that is wholly present or wholly absent and does not reach past `to`. */
  ghost predicate PieceOk(rs: seq<Range>, found: FoundRange, to: int) {
    && 0 < found.r.size && found.r.End() <= to
    && if found.present then AllPresent(rs, found.r.pos, found.r.End())
       else AllAbsent(rs, found.r.pos, found.r.End())
  }

  /** Skipping a present piece counts all its bytes. */
  lemma SkippedPiece(was: ItemState, now: ItemState, b: seq<byte>, off: int, n: nat, found: FoundRange)
    requires HandleOk(was) && Canonical(was.rs) && Processed(was, now, b, off, n)
    requires off + n == found.r.pos && PieceOk(was.rs, found, off + |b|) && found.present
    ensures Processed(was, now, b, off, n + found.r.size)
    ensures PresentCount(was.rs, off, n + found.r.size) == PresentCount(was.rs, off, n) + found.r.size
  {
    var m := found.r.size;
    assert AllPresent(was.rs, off + n, off + n + m);
    StepPresent(was, now, b, off, n, m);
    CountPresent(was.rs, off, n, m);
  }

  /** Writing the first `m` bytes of an absent piece counts none. */
  lemma WrotePiece(was: ItemState, before: ItemState, after: ItemState, b: seq<byte>, off: int, n: nat,
                   found: FoundRange, m: nat)
    requires HandleOk(was) && Canonical(was.rs) && Processed(was, before, b, off, n)
    requires off + n == found.r.pos && PieceOk(was.rs, found, off + |b|) && !found.present && m <= found.r.size
    requires Marked(before.rs, after.rs, off + n, m) && n + m <= |b|
    requires WroteChunk(before, after, b, off, n, m)
    ensures Processed(was, after, b, off, n + m)
    ensures PresentCount(was.rs, off, n + m) == PresentCount(was.rs, off, n)
  {
    StepAbsent(was, before, after, b, off, n, m);
    CountPresent(was.rs, off, n, m);
  }

  function PieceStart(frs: seq<FoundRange>, i: nat, to: int): int { if i < |frs| then frs[i].r.pos else to }

  lemma ProcessedInside(s: ItemState, s': ItemState, b: seq<byte>, off: int, n: nat)
    requires HandleOk(s) && Processed(s, s', b, off, n)
    ensures n <= |b|
  {
  }

  lemma PieceFits(rs: seq<Range>, frs: seq<FoundRange>, from: int, to: int, i: nat)
    requires Tiles(rs, frs, from, to) && i < |frs|
    ensures PieceOk(rs, frs[i], to)
    ensures frs[i].r.End() == if i + 1 < |frs| then frs[i + 1].r.pos else to
  {
    TileEnd(rs, frs, from, to, i);
    TileUniform(rs, frs, from, to, i);
  }

  lemma TileUniform(rs: seq<Range>, frs: seq<FoundRange>, from: int, to: int, i: nat)
    requires Tiles(rs, frs, from, to) && i < |frs|
    ensures var r := frs[i].r;
            if frs[i].present then AllPresent(rs, r.pos, r.End())
            else AllAbsent(rs, r.pos, r.End())
  {
    assert forall x :: frs[i].r.Has(x) <==> frs[i].r.pos <= x < frs[i].r.End();
  }

  /** The outcome of one write call: how many bytes at most, and whether a short write stays silent. */
  datatype WriteLimit = WriteLimit(max: nat, silent: bool)

  /** One write call of `size` bytes: it fails on a closed handle, and falls short just when its limit says so. */
  predicate Obeyed(fd: Fd, at: int, size: nat, limits: seq<WriteLimit>, limits': seq<WriteLimit>, nn: nat) {
    if fd.NoFd? || at < 0 then limits' == limits && nn == 0
    else if limits == [] then limits' == [] && nn == size
    else limits' == limits[1..] && nn == Min(size, limits[0].max)
  }

  /** The error of a write call that fell short. */
  function ShortWrite(limit: WriteLimit): Error { if limit.silent then OtherError else NoSpace }

  /** Write call k fell short inside the first `n` bytes; the calls before it did not. */
  ghost predicate CutShort(limits: seq<WriteLimit>, limits': seq<WriteLimit>, n: nat, err: Option<Error>) {
    exists k :: 0 <= k < |limits| && limits' == limits[k + 1..] && limits[k].max <= n
             && err == Some(ShortWrite(limits[k]))
  }

  /** Some of the limits are used up. */
  ghost predicate UsedUp(limits: seq<WriteLimit>, limits': seq<WriteLimit>) {
    exists k :: 0 <= k <= |limits| && limits' == limits[k..]
  }

  lemma UseOne(limits: seq<WriteLimit>, now: seq<WriteLimit>, later: seq<WriteLimit>, n: nat, nn: nat, size: nat,
               err: Option<Error>)
    requires UsedUp(limits, now) && Obeyed(OnPath, 0, size, now, later, nn)
    requires err == if nn == size then None else Some(ShortWrite(now[0]))
    ensures if err == None then UsedUp(limits, later) else CutShort(limits, later, n + nn, err)
  {
    var k :| 0 <= k <= |limits| && now == limits[k..];
    if now != [] {
      assert now[0] == limits[k] && now[1..] == limits[k + 1..];
    }
  }

  class Item {
    var opens: int
    var pendingAccesses: int
    var beingReset: bool
    var graceTimer: bool
    var fd: Fd
    var disk: Option<seq<byte>>
    const rs: RangeSet
    var size: int
    var dirty: bool
    var downloaders: bool
    var aTime: int                     // when it was last accessed
    var writeLimits: seq<WriteLimit>   // how the next write calls fare; afterwards they succeed

    function State(): ItemState
      reads this, rs
    {
      ItemState(opens, pendingAccesses, beingReset, graceTimer, fd, disk, rs.list, size, dirty, downloaders)
    }

    ghost predicate Valid()
      reads this, rs
    {
      Canonical(rs.list) && HandleOk(State())
    }

    /** An item without a file. */
    constructor (now: int, writeLimits: seq<WriteLimit>)
      ensures Valid() && aTime == now && State() == ItemState(0, 0, false, false, NoFd, None, [], 0, false, false)
      ensures fresh(rs) && this.writeLimits == writeLimits
    {
      opens, pendingAccesses, beingReset, graceTimer := 0, 0, false, false;
      fd, disk, size, dirty, downloaders := NoFd, None, 0, false, false;
      aTime := now;
      rs := new RangeSet();
      this.writeLimits := writeLimits;
    }

    /** Whether the whole of `r` is present. */
    predicate HasRange(r: Range)
      reads this, rs
    {
      Present(rs.list, r)
    }

    predicate InUse()
      reads this
    {
      opens != 0 || dirty
    }

    /** getDiskSize: the bytes fetched so far. */
    method GetDiskSize() returns (size: int)
      requires Valid()
      ensures size == DiskSize(State())
    {
      size := Ranges.Size(rs.list);
    }

    /** What of `r` must be downloaded, within the file. */
    function FindMissing(r: Range): Range
      reads this, rs
    {
      Missing(rs.list, size, r)
    }

    /** fd.WriteAt: writes a prefix of `b`, all of it unless the system call falls short. */
    method FdWriteAt(b: seq<byte>, off: int) returns (nn: nat, err: Option<Error>)
      requires Valid()
      modifies this`fd, this`disk, this`writeLimits
      ensures Valid() && nn <= |b|
      ensures err.Some? ==> nn < |b|
      ensures if old(fd).NoFd? || nn == 0 then fd == old(fd) && disk == old(disk)
              else 0 <= off && SameButFile(old(State()), State())
                   && Contents(State()).value == Patch(Contents(old(State())).value, off, b[..nn])
      ensures (old(fd).NoFd? || off < 0) ==> nn == 0
      ensures Obeyed(old(fd), off, |b|, old(writeLimits), writeLimits, nn)
      ensures err.Some? <==> nn < |b| && (old(fd).NoFd? || off < 0 || !old(writeLimits)[0].silent)
      ensures err.Some? && !old(fd).NoFd? && 0 <= off ==> err == Some(NoSpace)
    {
      if fd.NoFd? || off < 0 {
        return 0, if b == [] then None else Some(OtherError);
      }
      nn, err := |b|, None;
      if writeLimits != [] {
        var limit := writeLimits[0];
        writeLimits := writeLimits[1..];
        if limit.max < |b| {
          nn, err := limit.max, if limit.silent then None else Some(NoSpace);
        }
      }
      if nn > 0 {
        if fd.Unlinked? {
          fd := Unlinked(Patch(fd.data, off, b[..nn]));
        } else {
          disk := Some(Patch(disk.value, off, b[..nn]));
        }
      }
    }

    /** Writes `b[n..n + size]` at `at` as far as the system lets it, and marks what was written. */
    method WriteAbsent(b: seq<byte>, ghost off: int, n: nat, at: int, size: nat) returns (nn: nat, err: Option<Error>)
      requires Valid() && at == off + n && n + size <= |b|
      modifies this`fd, this`disk, this`writeLimits, rs
      ensures Valid() && nn <= size && (err == None <==> nn == size)
      ensures Obeyed(old(fd), at, size, old(writeLimits), writeLimits, nn) && fd.NoFd? == old(fd.NoFd?)
      ensures err.Some? && !old(fd).NoFd? && 0 <= at ==> err == Some(ShortWrite(old(writeLimits)[0]))
      ensures WroteChunk(old(State()), State(), b, off, n, nn)
      ensures Marked(old(rs.list), rs.list, at, nn)
    {
      nn, err := FdWriteAt(b[n..n + size], at);
      assert b[n..n + size][..nn] == b[n..n + nn];
      if err == None && nn != size {
        err := Some(OtherError);
      }
      rs.Insert(Range(at, nn));
    }

    /** Skips a present piece and counts it, or writes an absent one. */
    method WritePiece(b: seq<byte>, ghost off: int, n: nat, at: int, found: FoundRange, skipped: nat,
                      ghost was: ItemState)
      returns (nn: nat, skipped': nat, err: Option<Error>)
      requires Valid() && HandleOk(was) && Canonical(was.rs) && Processed(was, State(), b, off, n)
      requires at == off + n == found.r.pos && PieceOk(was.rs, found, off + |b|)
      requires skipped == PresentCount(was.rs, off, n)
      modifies this`fd, this`disk, this`writeLimits, rs
      ensures Valid() && Processed(was, State(), b, off, n + nn)
      ensures nn <= found.r.size && (err == None <==> nn == found.r.size) && fd.NoFd? == old(fd.NoFd?)
      ensures skipped' == PresentCount(was.rs, off, n + nn)
      ensures if found.present then err == None && writeLimits == old(writeLimits)
              else Obeyed(old(fd), at, found.r.size, old(writeLimits), writeLimits, nn)
      ensures err.Some? && !old(fd).NoFd? && 0 <= at ==> err == Some(ShortWrite(old(writeLimits)[0]))
    {
      var size := found.r.size;
      if found.present {
        SkippedPiece(was, State(), b, off, n, found);
        return size, skipped + size, None;
      }
      ghost var before := State();
      nn, err := WriteAbsent(b, off, n, at, size);
      WrotePiece(was, before, State(), b, off, n, found, nn);
      skipped' := skipped;
    }

    /**
     Writes the absent parts of `b` at `off`.  Also when a write falls short or fails,
     exactly the first `n` bytes were processed, and `skipped` counts those already present.
     */
    method WriteAtNoOverwrite(b: seq<byte>, off: int) returns (n: nat, skipped: nat, err: Option<Error>)
      requires Valid()
      modifies this`fd, this`disk, this`writeLimits, rs
      ensures Valid()
      ensures Processed(old(State()), State(), b, off, n)
      ensures skipped == PresentCount(old(rs.list), off, n)
      ensures err == None <==> n == |b|
      ensures err.Some? ==> n < |b| && !Covers(old(rs.list), off + n)
      ensures err.Some? && !old(fd).NoFd? && 0 <= off ==> CutShort(old(writeLimits), writeLimits, n, err)
    {
      var foundRanges := FindAll(rs.list, Range(off, |b|));
      WriteStart(State(), b, off);
      n, skipped, err := WritePieces(b, off, foundRanges, State());
    }

    /** The loop over the pieces, which tile the range to write. */
    method WritePieces(b: seq<byte>, off: int, foundRanges: seq<FoundRange>, ghost was: ItemState)
      returns (n: nat, skipped: nat, err: Option<Error>)
      requires Valid() && was == State() && Processed(was, was, b, off, 0)
      requires Tiles(was.rs, foundRanges, off, off + |b|)
      modifies this`fd, this`disk, this`writeLimits, rs
      ensures Valid() && Processed(was, State(), b, off, n)
      ensures skipped == PresentCount(was.rs, off, n)
      ensures err == None <==> n == |b|
      ensures err.Some? ==> n < |b| && !Covers(was.rs, off + n)
      ensures err.Some? && !old(fd).NoFd? && 0 <= off ==> CutShort(old(writeLimits), writeLimits, n, err)
    {
      n, skipped, err := 0, 0, None;
      assert writeLimits == old(writeLimits)[0..];
      var at := off;
      var i := 0;
      while i < |foundRanges|
        invariant 0 <= i <= |foundRanges| && at == off + n == PieceStart(foundRanges, i, off + |b|)
        invariant Valid() && Processed(was, State(), b, off, n)
        invariant skipped == PresentCount(was.rs, off, n)
        invariant err == None && fd.NoFd? == old(fd.NoFd?) && UsedUp(old(writeLimits), writeLimits)
      {
        // the source's "offset of range is wrong" branch cannot be taken
        assert foundRanges[i].r.pos == at;
        at, n, skipped, err := WriteNext(b, off, foundRanges, i, n, at, skipped, was, old(writeLimits));
        if err.Some? {
          break;
        }
        i := i + 1;
      }
      ProcessedInside(was, State(), b, off, n);
    }

    /** One turn of the loop. */
    method WriteNext(b: seq<byte>, ghost off: int, foundRanges: seq<FoundRange>, i: nat, n: nat, at: int,
                     skipped: nat, ghost was: ItemState, ghost limits: seq<WriteLimit>)
      returns (at': int, n': nat, skipped': nat, err: Option<Error>)
      requires Valid() && HandleOk(was) && Canonical(was.rs) && Processed(was, State(), b, off, n)
      requires Tiles(was.rs, foundRanges, off, off + |b|) && i < |foundRanges| && at == off + n == foundRanges[i].r.pos
      requires skipped == PresentCount(was.rs, off, n) && UsedUp(limits, writeLimits)
      modifies this`fd, this`disk, this`writeLimits, rs
      ensures Valid() && Processed(was, State(), b, off, n') && skipped' == PresentCount(was.rs, off, n')
      ensures at' == off + n' <= PieceStart(foundRanges, i + 1, off + |b|) <= off + |b|
      ensures err == None <==> at' == PieceStart(foundRanges, i + 1, off + |b|)
      ensures fd.NoFd? == old(fd.NoFd?)
      ensures err == None ==> UsedUp(limits, writeLimits)
      ensures err.Some? ==> n' < |b| && !Covers(was.rs, off + n')
      ensures err.Some? && !old(fd).NoFd? && 0 <= off ==> CutShort(limits, writeLimits, n', err)
    {
      PieceFits(was.rs, foundRanges, off, off + |b|, i);
      var found := foundRanges[i];
      ghost var now := writeLimits;
      var nn;
      nn, skipped', err := WritePiece(b, off, n, at, found, skipped, was);
      if !found.present && !fd.NoFd? && 0 <= off { UseOne(limits, now, writeLimits, n, nn, found.r.size, err); }
      at', n' := at + nn, n + nn;
    }

    /** GetSize: the length of the file, which the item then believes in. */
    method GetSize(total: nat) returns (n: int)
      requires Valid()
      modifies this`size
      ensures Valid() && n == size == if Contents(State()).Some? then |Contents(State()).value| else total
    {
      size := FileLength(State(), total);
      n := size;
    }

    /** The first part of readAt, up to where it asks for downloads. */
    method Want(off: int, len: nat) returns (look: ReadStep)
      requires Valid()
      ensures look == ReadBody(State(), off, len)
    {
      if fd.NoFd? {
        return ReadFails;
      }
      if off < 0 {
        return AtEnd;
      }
      var n: int := len;
      if off + n > size {
        n := size - off;
      }
      return Wants(Range(off, n), Present(rs.list, Range(off, n)));
    }

    /** The last part of readAt, once the bytes are there. */
    method ReadBytes(total: nat, now: int, off: nat, len: nat, fault: CheckFault) returns (data: Option<seq<byte>>)
      requires Valid()
      modifies this`disk, this`fd, this`dirty, this`size, this`aTime, rs
      ensures Valid() && (data, State()) == ReadFinish(old(State()), total, off, len, fault)
      ensures data.None? <==>
                old(fd).NoFd? || old(!dirty && size != total && SizingFails(State(), total, fault))
      ensures data.Some? ==> aTime == now && data.value == Slice(Contents(State()).value, off, len)
    {
      ReadFailsIff(State(), total, off, len, fault);
      if !dirty && total != size {
        var err := TruncateTo(total, fault);
        if err.Some? {
          return None;
        }
      }
      aTime := now;
      if fd.NoFd? {
        return None;
      }
      return Some(Slice(if fd.Unlinked? then fd.data else disk.value, off, len));
    }

    /** _truncate. */
    method TruncateTo(n: nat, fault: CheckFault) returns (err: Option<Error>)
      requires Valid()
      modifies this`disk, this`fd, this`dirty, this`size, rs
      ensures Valid() && (err, State()) == Truncate(old(State()), n, fault)
    {
      if fd.NoFd? {
        var used := Ranges.Size(rs.list);
        if disk.None? && used != 0 {
          rs.list, dirty := [], false;
        }
        if fault.CannotOpen? {
          return Some(fault.error);
        }
        if disk.None? {
          disk := Some([]);
        }
      }
      var data := if fd.Unlinked? then fd.data else disk.value;
      assert Resize(data, |data|) == data;
      if |data| != n {
        if fault.CannotTruncate? {
          return Some(fault.error);
        }
        if fd.Unlinked? {
          fd := Unlinked(Resize(data, n));
        } else {
          disk := Some(Resize(data, n));
        }
      }
      size := n;
      return None;
    }

    /** _checkObject for the remote the item was opened with. */
    method Check(total: nat, fault: CheckFault) returns (err: Option<Error>)
      requires Valid()
      modifies this`disk, this`fd, this`dirty, this`size, rs
      ensures Valid() && (err, State()) == CheckObject(old(State()), total, fault)
    {
      size := FileLength(State(), total);
      err := TruncateTo(size, fault);
    }

    /** _createFile. */
    method Create(fault: Option<Error>) returns (err: Option<Error>)
      requires Valid()
      modifies this`fd
      ensures Valid() && (err, State()) == CreateFile(old(State()), fault)
    {
      if !fd.NoFd? || disk.None? {
        return Some(OtherError);
      }
      if fault.Some? {
        return fault;
      }
      fd := OnPath;
      return None;
    }

    /** _remove. */
    method Remove()
      requires Valid()
      modifies this`disk, this`fd, this`dirty, this`size, rs
      ensures Valid() && State() == RemoveFiles(old(State()))
    {
      rs.list, size, dirty := [], 0, false;
      if fd.OnPath? {
        fd := Unlinked(disk.value);
      }
      disk := None;
    }

    /** Open, when nothing comes between its parts: up to three tries, the last ones after a lack of space. */
    method Open(total: nat, now: int, faults: nat -> OpenFaults) returns (err: Option<Error>, tries: nat)
      requires Valid() && !beingReset
      modifies this, rs
      ensures Valid() && OpenPromise(old(State()), err == None, State()) && aTime == now
      ensures 1 <= tries <= 3 && (err == Some(NoSpace) ==> tries == 3)
      ensures tries == 1 ==> (err.Some? <==> OpenFails(old(State()), total, faults(0)))
      ensures !OpenFails(old(State()), total, faults(0)) ==> tries == 1
      ensures tries == 1 && err == None ==> FileOpened(old(State()), total, State())
    {
      err := TryOpen(total, now, faults(0));
      tries := 1;
      while tries < 3 && err == Some(NoSpace)
        invariant Valid() && OpenPromise(old(State()), err == None, State()) && 1 <= tries <= 3 && aTime == now
        invariant tries == 1 ==> (err.Some? <==> OpenFails(old(State()), total, faults(0)))
        invariant !OpenFails(old(State()), total, faults(0)) ==> tries == 1
        invariant tries == 1 && err == None ==> FileOpened(old(State()), total, State())
      {
        err := TryOpen(total, now, faults(tries));
        tries := tries + 1;
      }
    }

    method TryOpen(total: nat, now: int, f: OpenFaults) returns (err: Option<Error>)
      requires Valid() && !beingReset
      modifies this, rs
      ensures Valid() && OpenPromise(old(State()), err == None, State()) && aTime == now
      ensures err.Some? <==> OpenFails(old(State()), total, f)
      ensures err == None ==> FileOpened(old(State()), total, State())
    {
      pendingAccesses := pendingAccesses + 1;
      OpenKeepsPromise(State(), total, f.mkdir, f.check, f.create);
      OpenFailsIff(State(), total, f);
      aTime := now;
      err := OpenLocked(total, f.mkdir, f.check, f.create);
      pendingAccesses := pendingAccesses - 1;
    }

    /** open. */
    method OpenLocked(total: nat, mkdir: Option<Error>, check: CheckFault, create: Option<Error>)
      returns (err: Option<Error>)
      requires Valid()
      modifies this, rs
      ensures Valid() && (err, State()) == OpenWhole(old(State()), total, mkdir, check, create) && aTime == old(aTime)
    {
      if mkdir.Some? {
        return mkdir;
      }
      err := Check(total, check);
      if err.Some? {
        return;
      }
      opens := opens + 1;
      if opens != 1 {
        return;
      }
      err := OpenAsFirst(create);
    }

    method OpenAsFirst(create: Option<Error>) returns (err: Option<Error>)
      requires Valid()
      modifies this, rs
      ensures Valid() && aTime == old(aTime)
      ensures var (step, s) := OpenFirst(old(State()), create);
              && State() == (if step.CreateFailed? then OpenUndo(s) else s)
              && err == (if step.NotOpened? || step.CreateFailed? then Some(step.error) else None)
    {
      err := None;
      if graceTimer {
        graceTimer := false;
        // the handle and the downloads of a file that is still there are good
        if disk.Some? {
          return;
        }
        fd, downloaders := NoFd, false;
      }
      err := Create(create);
      if err.Some? {
        Remove();
        fd := NoFd;
        opens := opens - 1;
        return;
      }
      downloaders := true;
    }

    /** Close, when nothing comes between its two parts.  The file and what is present in it stay. */
    method Close(total: nat, now: int, handleCaching: bool) returns (err: Option<Error>)
      requires Valid() && !beingReset
      modifies this
      ensures Valid() && opens == old(opens) - 1 && aTime == now
      ensures pendingAccesses == old(pendingAccesses) && (err.Some? <==> opens < 0)
      ensures disk == old(disk) && rs.list == old(rs.list) && dirty == old(dirty) && !beingReset
      ensures graceTimer == (old(graceTimer) || (opens == 0 && handleCaching && !dirty))
      ensures if opens == 0 && !(handleCaching && !dirty) then fd.NoFd? && !downloaders
              else fd == old(fd) && downloaders == old(downloaders)
      ensures size == if opens == 0 && !(handleCaching && !dirty) then old(FileLength(State(), total)) else old(size)
    {
      pendingAccesses := pendingAccesses + 1;
      aTime := now;
      var step := CloseBegin(total, handleCaching);
      if step.Closing? {
        fd := NoFd;
      }
      err := if step.AlreadyClosed? then Some(OtherError) else None;
      pendingAccesses := pendingAccesses - 1;
    }

    /** Close, up to the point where the downloaders are to be stopped. */
    method CloseBegin(total: nat, handleCaching: bool) returns (step: CloseStep)
      requires Valid()
      modifies this
      ensures Valid() && (step, State()) == CloseBody(old(State()), total, handleCaching) && aTime == old(aTime)
    {
      opens := opens - 1;
      if opens < 0 {
        return AlreadyClosed;
      } else if opens > 0 {
        return StillOpen;
      }
      if handleCaching && !dirty {
        graceTimer := true;
        return InGrace;
      }
      size := FileLength(State(), total);
      downloaders := false;
      return Closing;
    }

    /** closeAfterGrace, when nothing comes between its two parts: a timer that fires late changes nothing. */
    method CloseAfterGrace(total: nat)
      requires Valid()
      modifies this
      ensures Valid() && opens == old(opens) && disk == old(disk) && rs.list == old(rs.list)
      ensures if old(opens > 0 || !graceTimer) then State() == old(State())
              else fd.NoFd? && !downloaders && !graceTimer && size == old(FileLength(State(), total))
      ensures State() == var (step, s) := GraceBody(old(State()), total); if step.Closing? then CloseFinish(s) else s
    {
      if opens > 0 || !graceTimer {
        return;
      }
      size := FileLength(State(), total);
      graceTimer := false;
      downloaders := false;
      fd := NoFd;
    }

    /**
     RemoveNotInUse, when nothing comes between its decision and the removal; a maximum age
     of zero removes whatever its age.
     */
    method RemoveNotInUse(maxAge: nat, sinceAccess: int, emptyOnly: bool) returns (removed: bool, spaceFreed: nat)
      requires Valid()
      modifies this`disk, this`fd, this`dirty, this`size, rs
      ensures Valid()
      ensures removed <==> MayRemove(old(State()), maxAge == 0 || maxAge <= sinceAccess, emptyOnly)
      ensures removed ==> disk.None? && rs.list == [] && spaceFreed == DiskSize(old(State()))
      ensures !removed ==> State() == old(State()) && spaceFreed == 0
      ensures State() == RemoveUnused(old(State()), maxAge == 0 || maxAge <= sinceAccess, emptyOnly).2
    {
      if opens != 0 || dirty || graceTimer {
        return false, 0;
      }
      var removeIt := maxAge == 0 || sinceAccess >= maxAge;
      if removeIt {
        var spaceUsed := Ranges.Size(rs.list);
        if !emptyOnly || spaceUsed == 0 {
          Remove();
          return true, spaceUsed;
        }
      }
      return false, 0;
    }

    /** Reset, when nothing comes between its parts. */
    method Reset(total: nat, close: Option<Error>, check: CheckFault, create: Option<Error>)
      returns (rr: ResetResult, spaceFreed: nat, err: Option<Error>)
      requires Valid()
      modifies this, rs
      ensures Valid()
      ensures var (first, freed, s) := ResetBegin(old(State()));
              if first.Resetting? then (rr, err, spaceFreed, State()) == ResetEnd(s, total, close, check, create)
              else rr == first && err == None && spaceFreed == freed && State() == s
    {
      rr, spaceFreed := ResetStart();
      err := None;
      if rr.Resetting? {
        rr, err, spaceFreed := ResetFinish(total, close, check, create);
      }
    }

    /** Reset, up to the point where the downloaders are to be closed. */
    method ResetStart() returns (rr: ResetResult, spaceFreed: nat)
      requires Valid()
      modifies this, rs
      ensures Valid() && (rr, spaceFreed, State()) == ResetBegin(old(State()))
    {
      var used := Ranges.Size(rs.list);
      if opens == 0 && !dirty && !graceTimer {
        Remove();
        return RemovedNotInUse, used;
      }
      if dirty {
        return SkippedDirty, 0;
      }
      if graceTimer {
        return SkippedGrace, 0;
      }
      if pendingAccesses > 0 {
        return SkippedPendingAccess, 0;
      }
      if used == 0 && !beingReset {
        return SkippedEmpty, 0;
      }
      beingReset, downloaders := true, false;
      return Resetting, 0;
    }

    /** The rest of Reset. */
    method ResetFinish(total: nat, close: Option<Error>, check: CheckFault, create: Option<Error>)
      returns (rr: ResetResult, err: Option<Error>, spaceFreed: nat)
      requires Valid() && beingReset
      modifies this, rs
      ensures Valid() && (rr, err, spaceFreed, State()) == ResetEnd(old(State()), total, close, check, create)
    {
      if fd != NoFd {
        if close.Some? {
          beingReset := false;
          return ResetFailed, close, 0;
        }
        fd := NoFd;
      }
      spaceFreed := Ranges.Size(rs.list);
      Remove();
      err := CreateAgain(total, check, create);
      rr := if err.Some? then ResetFailed else ResetComplete;
    }

    method CreateAgain(total: nat, check: CheckFault, create: Option<Error>) returns (err: Option<Error>)
      requires Valid() && beingReset
      modifies this, rs
      ensures Valid() && (err, State()) == Recreate(old(State()), total, check, create)
    {
      err := Check(total, check);
      if err.Some? {
        beingReset := false;
        return;
      }
      err := Create(create);
      if err.Some? {
        Remove();
        fd := NoFd;
        if err.value != NoSpace {
          beingReset := false;
        }
        return;
      }
      downloaders := true;
      beingReset := false;
    }
  }
}
