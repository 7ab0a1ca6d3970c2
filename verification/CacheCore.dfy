/**
 What holds over every run, whatever fails and whoever gets in between: the counters tell
 the threads, the queue holds those that wait, and a reset keeps everybody else out.
 */
module CacheCore {
  import opened CacheItem
  import opened CacheMachine
  import opened DownloadGroup
  import opened PlainReader
  import opened Ranges
  import opened Wrappers

  ghost predicate CountsOk(pending: int, opens: int, handles: map<nat, Phase>) {
    pending == |Accessors(handles)| && opens == |Holders(handles)|
  }

  /** The queue holds exactly the waiting threads, each once. */
  ghost predicate QueueOk(waiters: seq<Waiter>, handles: map<nat, Phase>) {
    && UniqueIds(waiters)
    && (forall w :: w in waiters ==> w.id in handles && handles[w.id].Waiting? && handles[w.id].r == w.r)
    && (forall h :: h in handles && handles[h].Waiting? ==> Queued(waiters, h))
  }

  ghost predicate ResetOk(s: System) {
    && (s.item.beingReset ==> s.item.pending == 0 && s.item.opens > 0 && s.inCache && s.removal.NoRemoval?)
    && (s.resetting ==> s.item.beingReset && !s.item.attached)
    && (s.item.beingReset && (!s.resetting || s.retrying) ==> s.inErrItems)
  }

  ghost predicate TidyOk(item: ItemState, group: Group) {
    && HandleOk(item) && !item.dirty && (item.grace ==> item.opens == 0)
    && ErrorsKnown(group) && (!item.attached ==> group == NO_GROUP)
  }

  ghost predicate Core(s: System) {
    && CountsOk(s.item.pending, s.item.opens, s.handles) && QueueOk(s.group.waiters, s.handles)
    && ResetOk(s) && TidyOk(s.item, s.group)
  }

  // ---------- Counting ----------

  function One(b: bool): int { if b then 1 else 0 }

  lemma CountSet(handles: map<nat, Phase>, h: nat, p: Phase)
    ensures var was := h in handles;
            && |Accessors(handles[h := p])|
               == |Accessors(handles)| - One(was && InAccess(handles[h])) + One(InAccess(p))
            && |Holders(handles[h := p])| == |Holders(handles)| - One(was && Holds(handles[h])) + One(Holds(p))
  {
    var a, b := Accessors(handles), Accessors(handles[h := p]);
    var c, d := Holders(handles), Holders(handles[h := p]);
    assert a - {h} == b - {h} && c - {h} == d - {h};
    assert |a| == |a - {h}| + One(h in a) && |b| == |b - {h}| + One(h in b) by { SetMinus(a, h); SetMinus(b, h); }
    assert |c| == |c - {h}| + One(h in c) && |d| == |d - {h}| + One(h in d) by { SetMinus(c, h); SetMinus(d, h); }
  }

  lemma SetMinus(s: set<nat>, h: nat)
    ensures |s| == |s - {h}| + One(h in s)
  {
    if h in s {
      assert s == (s - {h}) + {h};
    } else {
      assert s == s - {h};
    }
  }

  lemma CountRemove(handles: map<nat, Phase>, h: nat)
    requires h in handles
    ensures |Accessors(handles - {h})| == |Accessors(handles)| - One(InAccess(handles[h]))
    ensures |Holders(handles - {h})| == |Holders(handles)| - One(Holds(handles[h]))
  {
    var a, c := Accessors(handles), Holders(handles);
    assert Accessors(handles - {h}) == a - {h} && Holders(handles - {h}) == c - {h};
    SetMinus(a, h);
    SetMinus(c, h);
  }

  /** With no opens, or no pending access, no thread is anywhere it would need one. */
  lemma NobodyIn(pending: int, opens: int, handles: map<nat, Phase>)
    requires CountsOk(pending, opens, handles)
    ensures opens == 0 ==> forall h :: h in handles ==> !Holds(handles[h])
    ensures pending == 0 ==> forall h :: h in handles ==> !InAccess(handles[h])
    ensures opens == 0 || pending == 0 ==> NoneWaiting(handles)
  {
    forall h | h in handles && opens == 0 ensures !Holds(handles[h]) {
      assert h in Holders(handles) ==> Holders(handles) != {};
    }
    forall h | h in handles && pending == 0 ensures !InAccess(handles[h]) {
      assert h in Accessors(handles) ==> Accessors(handles) != {};
    }
  }

  /** The only holder of an item opened once is alone with it. */
  lemma AloneIn(pending: int, handles: map<nat, Phase>, h: nat)
    requires CountsOk(pending, 1, handles) && h in handles && Holds(handles[h])
    ensures forall k :: k in handles && k != h ==> !Holds(handles[k])
  {
    var c := Holders(handles);
    SetMinus(c, h);
    forall k | k in handles && k != h ensures !Holds(handles[k]) {
      assert k in c - {h} ==> |c - {h}| > 0;
    }
  }

  ghost predicate NoneWaiting(handles: map<nat, Phase>) {
    forall h :: h in handles ==> !handles[h].Waiting?
  }

  // ---------- The queue ----------

  lemma QueueKept(waiters: seq<Waiter>, handles: map<nat, Phase>, handles': map<nat, Phase>, h: nat)
    requires QueueOk(waiters, handles)
    requires forall k :: k != h ==> (k in handles' <==> k in handles)
    requires forall k :: k in handles && k != h ==> handles'[k] == handles[k]
    requires h in handles ==> !handles[h].Waiting?
    requires h in handles' ==> !handles'[h].Waiting?
    ensures QueueOk(waiters, handles')
  {
  }

  /** A thread joins the queue. */
  lemma QueueJoined(waiters: seq<Waiter>, handles: map<nat, Phase>, h: nat, p: Phase)
    requires QueueOk(waiters, handles) && h in handles && !handles[h].Waiting? && p.Waiting?
    ensures QueueOk(waiters + [Waiter(h, p.r)], handles[h := p])
  {
    var w := Waiter(h, p.r);
    QueuedConcat(waiters, [w]);
    assert [w][0] == w;
    assert forall v :: v in waiters ==> v.id != h;
    assert forall i :: 0 <= i < |waiters| ==> waiters[i] in waiters;
  }

  lemma {:induction false} DeliverKeepsKind(p: Phase, h: nat, answers: seq<Answer>)
    ensures var q := DeliverTo(p, h, answers);
            && (InAccess(q) <==> InAccess(p)) && (Holds(q) <==> Holds(p))
            && (!p.Waiting? ==> q == p)
            && (p.Waiting? && !Answered(answers, h) ==> q == p)
            && (p.Waiting? && Answered(answers, h) ==>
                  exists a :: a in answers && a.id == h && q == Resumed(p.off, p.len, p.r, a.err == None))
    decreases |answers|
  {
    if answers != [] && p.Waiting? {
      if answers[0].id == h {
        assert answers[0] in answers;
      } else {
        DeliverKeepsKind(p, h, answers[1..]);
        AnsweredTail(answers, h);
      }
    }
  }

  lemma AnsweredTail(answers: seq<Answer>, h: nat)
    requires answers != []
    ensures Answered(answers, h) <==> answers[0].id == h || Answered(answers[1..], h)
    ensures forall a :: a in answers[1..] ==> a in answers
  {
    assert answers == [answers[0]] + answers[1..];
    assert forall i :: 0 <= i < |answers[1..]| ==> answers[1..][i] == answers[i + 1];
  }

  ghost predicate UniqueIds(waiters: seq<Waiter>) {
    forall i, j :: 0 <= i < j < |waiters| ==> waiters[i].id != waiters[j].id
  }

  /** Each of `all` is either still among `kept` or answered, not both. */
  ghost predicate SplitUp(all: seq<Waiter>, kept: seq<Waiter>, sent: seq<Answer>) {
    && (forall h: nat :: Queued(all, h) <==> Queued(kept, h) || Answered(sent, h))
    && (forall h: nat :: Queued(kept, h) ==> !Answered(sent, h))
  }

  /** A kick answers every queued thread at most once and leaves the others queued. */
  lemma KickQueue(g: Group, rs: seq<Range>, size: int, total: nat, readAhead: nat)
    requires ErrorsKnown(g) && UniqueIds(g.waiters)
    ensures var (answers, g') := Kick(g, rs, size, total, readAhead);
            UniqueIds(g'.waiters) && SplitUp(g.waiters, g'.waiters, answers)
  {
    var kept, sent := Remaining(g.waiters, rs, total), Delivered(g.waiters, rs, total);
    Partition(g.waiters, rs, total);
    if kept != [] {
      var g2 := EnsureEach(g.(waiters := kept), rs, size, total, readAhead, kept);
      GiveUp(g.waiters, kept, sent, g2.lastErr);
    }
  }

  lemma GiveUp(all: seq<Waiter>, kept: seq<Waiter>, sent: seq<Answer>, err: Option<Error>)
    requires SplitUp(all, kept, sent)
    ensures SplitUp(all, [], sent + Refused(kept, err))
  {
    RefusedIds(kept, err);
    AnsweredConcat(sent, Refused(kept, err));
    assert forall h: nat :: !Queued([], h);
  }

  lemma AnsweredConcat(a: seq<Answer>, b: seq<Answer>)
    ensures forall h: nat :: Answered(a + b, h) <==> Answered(a, h) || Answered(b, h)
  {
    forall h: nat | Answered(a, h) || Answered(b, h) ensures Answered(a + b, h) {
      if Answered(a, h) {
        var i :| 0 <= i < |a| && a[i].id == h;
        assert (a + b)[i].id == h;
      } else {
        var i :| 0 <= i < |b| && b[i].id == h;
        assert (a + b)[|a| + i].id == h;
      }
    }
  }

  lemma RefusedIds(waiters: seq<Waiter>, err: Option<Error>)
    ensures forall h: nat :: Answered(Refused(waiters, err), h) <==> Queued(waiters, h)
  {
    var out := Refused(waiters, err);
    forall h: nat | Queued(waiters, h) ensures Answered(out, h) {
      var i :| 0 <= i < |waiters| && waiters[i].id == h;
      assert out[i].id == h;
    }
    forall h: nat | Answered(out, h) ensures Queued(waiters, h) {
      var i :| 0 <= i < |out| && out[i].id == h;
      assert waiters[i].id == h;
    }
  }

  lemma {:induction false} Partition(waiters: seq<Waiter>, rs: seq<Range>, total: nat)
    requires UniqueIds(waiters)
    ensures UniqueIds(Remaining(waiters, rs, total))
    ensures SplitUp(waiters, Remaining(waiters, rs, total), Delivered(waiters, rs, total))
    decreases |waiters|
  {
    if waiters == [] {
      assert forall h: nat :: !Queued([], h) && !Answered([], h);
    } else {
      var init, last := waiters[..|waiters| - 1], waiters[|waiters| - 1];
      Partition(init, rs, total);
      assert waiters == init + [last];
      var kept, sent := Remaining(init, rs, total), Delivered(init, rs, total);
      assert kept + [] == kept && sent + [] == sent;
      PartitionLast(init, last, kept, sent);
    }
  }

  lemma PartitionLast(init: seq<Waiter>, last: Waiter, kept: seq<Waiter>, sent: seq<Answer>)
    requires UniqueIds(init + [last]) && UniqueIds(kept) && SplitUp(init, kept, sent)
    ensures UniqueIds(kept + [last]) && SplitUp(init + [last], kept + [last], sent)
    ensures SplitUp(init + [last], kept, sent + [Answer(last.id, None)])
  {
    QueuedConcat(init, [last]);
    QueuedConcat(kept, [last]);
    AnsweredSnoc(sent, Answer(last.id, None));
    assert [last][0] == last && forall h: nat :: Queued([last], h) <==> h == last.id;
    assert !Queued(init, last.id) by {
      assert (init + [last])[|init|] == last;
      assert forall i :: 0 <= i < |init| ==> (init + [last])[i] == init[i];
    }
    assert forall i :: 0 <= i < |kept| ==> Queued(kept, kept[i].id);
  }

  lemma {:induction false} WaitersCounted(waiters: seq<Waiter>, room: set<nat>)
    requires UniqueIds(waiters)
    requires forall w :: w in waiters ==> w.id in room
    ensures |waiters| <= |room|
    decreases |waiters|
  {
    if waiters != [] {
      var init, last := waiters[..|waiters| - 1], waiters[|waiters| - 1];
      assert last in waiters;
      forall w | w in init ensures w.id in room - {last.id} {
        var i :| 0 <= i < |init| && init[i] == w;
        assert waiters[i] == w;
      }
      WaitersCounted(init, room - {last.id});
    }
  }

  lemma QueueEmpty(handles: map<nat, Phase>)
    requires NoneWaiting(handles)
    ensures QueueOk([], handles)
  {
  }

  lemma DeliverNothing(handles: map<nat, Phase>)
    ensures Deliver(handles, []) == handles
  {
  }

  /** When no thread waits, detaching the downloaders answers nobody and leaves strays behind. */
  lemma SettleQuiet(s: System, item: ItemState)
    requires QueueOk(s.group.waiters, s.handles) && NoneWaiting(s.handles)
    ensures Settle(s, item) == if s.item.attached && !item.attached
                               then s.(item := item, group := NO_GROUP, strays := s.strays + s.group.dls)
                               else s.(item := item)
  {
    var waiters := s.group.waiters;
    assert forall i :: 0 <= i < |waiters| ==> waiters[i] in waiters;
    DeliverNothing(s.handles);
  }

  // ---------- Steps ----------

  /** A thread moves between phases outside the queue. */
  lemma OneMoves(item: ItemState, waiters: seq<Waiter>, handles: map<nat, Phase>, h: nat, p: Phase)
    requires CountsOk(item.pending, item.opens, handles) && QueueOk(waiters, handles)
    requires !p.Waiting? && (h in handles ==> !handles[h].Waiting?)
    ensures var was := h in handles;
            CountsOk(item.pending + One(InAccess(p)) - One(was && InAccess(handles[h])),
                     item.opens + One(Holds(p)) - One(was && Holds(handles[h])), handles[h := p])
    ensures QueueOk(waiters, handles[h := p])
  {
    CountSet(handles, h, p);
    QueueKept(waiters, handles, handles[h := p], h);
  }

  /** A thread in an access, or with the item open, is counted. */
  lemma Counted(item: ItemState, handles: map<nat, Phase>, h: nat)
    requires CountsOk(item.pending, item.opens, handles) && h in handles
    ensures InAccess(handles[h]) ==> item.pending > 0
    ensures Holds(handles[h]) ==> item.opens > 0
    ensures 0 <= item.pending && 0 <= item.opens
  {
    assert InAccess(handles[h]) ==> h in Accessors(handles);
    assert Holds(handles[h]) ==> h in Holders(handles);
  }

  lemma CoreEnter(cfg: Config, s: System, step: Step)
    requires Core(s) && Enabled(cfg, s, step) && (step.OpenEnter? || step.ReadEnter? || step.CloseEnter?)
    ensures Core(Apply(cfg, s, step))
  {
    OneMoves(s.item, s.group.waiters, s.handles, step.h, match step
      case OpenEnter(_) => Opening
      case ReadEnter(_, off, len) => Entered(off, len)
      case _ => ClosingStart);
  }

  lemma CoreLeave(cfg: Config, s: System, h: nat)
    requires Core(s) && Enabled(cfg, s, Leave(h))
    ensures Core(Apply(cfg, s, Leave(h)))
  {
    var s' := Apply(cfg, s, Leave(h));
    Counted(s.item, s.handles, h);
    if s.handles[h].open {
      OneMoves(s.item, s.group.waiters, s.handles, h, Idle);
    } else {
      CountRemove(s.handles, h);
      assert s'.handles == s.handles - {h};
      QueueKept(s.group.waiters, s.handles, s'.handles, h);
    }
  }

  /** What an open does to the counters, whatever is on disk. */
  ghost predicate OpenCounted(it: ItemState, how: OpenStep, it': ItemState) {
    && !it'.dirty && (it'.grace ==> it'.opens == 0)
    && it'.opens == it.opens + One(!how.NotOpened?)
    && it'.pending == it.pending && it'.beingReset == it.beingReset
    && (how.Created? ==> it'.attached && it.opens == 0) && (!how.Created? && it'.attached ==> it.attached)
    && (it.opens > 0 ==> it'.attached == it.attached && it'.fd.NoFd? == it.fd.NoFd?)
  }

  lemma OpenCounts(it: ItemState, total: nat, mkdir: Option<Error>, check: CheckFault, create: Option<Error>)
    requires HandleOk(it) && !it.dirty && 0 <= it.opens && (it.grace ==> it.opens == 0)
    ensures var (how, it') := OpenBody(it, total, mkdir, check, create); OpenCounted(it, how, it')
  {
    if mkdir == None {
      var (err, it1) := CheckObject(it, total, check);
      CheckTouches(it, total, check);
      OpenFirstCounts(it, it1, create);
    }
  }

  lemma OpenFirstCounts(it: ItemState, it1: ItemState, create: Option<Error>)
    requires Touched(it, it1) && !it.dirty && 0 <= it.opens && (it.grace ==> it.opens == 0)
    ensures OpenCounted(it, NotOpened(OtherError), it1)
    ensures it.opens > 0 ==> OpenCounted(it, Joined, it1.(opens := it1.opens + 1))
    ensures it.opens == 0 ==>
              var (how, it') := OpenFirst(it1.(opens := 1), create);
              !how.NotOpened? && !how.Joined? && OpenCounted(it, how, it')
  {
  }

  lemma CoreOpen(cfg: Config, s: System, step: Step)
    requires Core(s) && Enabled(cfg, s, step) && step.OpenRun?
    ensures Core(Apply(cfg, s, step))
  {
    OpenCounts(s.item, |cfg.remote|, step.mkdir, step.check, step.create);
    var (how, item) := OpenBody(s.item, |cfg.remote|, step.mkdir, step.check, step.create);
    CoreOpened(s, step.h, how, item);
  }

  lemma CoreOpened(s: System, h: nat, how: OpenStep, item: ItemState)
    requires Core(s) && h in s.handles && s.handles[h].Opening?
    requires OpenCounted(s.item, how, item) && HandleOk(item)
    ensures Core(ApplyOpen(s, h, (how, item)))
  {
    var s' := ApplyOpen(s, h, (how, item));
    Counted(s.item, s.handles, h);
    if s.item.opens == 0 {
      NobodyIn(s.item.pending, s.item.opens, s.handles);
      SettleQuiet(s, item);
      SettleQuiet(s, item.(attached := false));
    }
    if s'.group == s.group {
      OneMoves(s.item, s.group.waiters, s.handles, h, s'.handles[h]);
    } else {
      CountSet(s.handles, h, s'.handles[h]);
      QueueEmpty(s'.handles);
    }
  }

  lemma CoreGivesUp(cfg: Config, s: System, h: nat)
    requires Core(s) && Enabled(cfg, s, OpenGivesUp(h))
    ensures Core(Apply(cfg, s, OpenGivesUp(h)))
  {
    Counted(s.item, s.handles, h);
    OneMoves(s.item, s.group.waiters, s.handles, h, Leaving(false));
  }

  lemma CoreLook(cfg: Config, s: System, h: nat)
    requires Core(s) && Enabled(cfg, s, ReadLook(h))
    ensures Core(Apply(cfg, s, ReadLook(h)))
  {
    var s' := Apply(cfg, s, ReadLook(h));
    Counted(s.item, s.handles, h);
    OneMoves(s.item, s.group.waiters, s.handles, h, s'.handles[h]);
  }

  lemma CoreReturn(cfg: Config, s: System, step: Step)
    requires Core(s) && Enabled(cfg, s, step) && step.ReadReturn?
    ensures Core(Apply(cfg, s, step))
  {
    var Resumed(off, len, r, ok) := s.handles[step.h];
    ReadTouches(s.item, |cfg.remote|, off, len, step.check);
    CoreReturned(s, step.h, ReadFinish(s.item, |cfg.remote|, off, len, step.check));
  }

  lemma CoreReturned(s: System, h: nat, outcome: (Option<seq<byte>>, ItemState))
    requires Core(s) && h in s.handles && s.handles[h].Resumed? && Touched(s.item, outcome.1)
    ensures Core(ApplyReturn(s, h, outcome))
  {
    Counted(s.item, s.handles, h);
    OneMoves(s.item, s.group.waiters, s.handles, h, Leaving(true));
  }

  lemma CoreEnsure(cfg: Config, s: System, h: nat)
    requires Core(s) && Enabled(cfg, s, ReadEnsure(h))
    ensures Core(Apply(cfg, s, ReadEnsure(h)))
  {
    CoreAsked(s, h, Asked(cfg, s, s.handles[h].r));
  }

  lemma CoreAsked(s: System, h: nat, asked: (Option<Error>, Group))
    requires Core(s) && h in s.handles && s.handles[h].Ensuring?
    requires asked.1.waiters == s.group.waiters && ErrorsKnown(asked.1)
    ensures Core(ApplyEnsure(s, h, asked))
  {
    var s' := ApplyEnsure(s, h, asked);
    Counted(s.item, s.handles, h);
    CountSet(s.handles, h, s'.handles[h]);
    var p := s'.handles[h];
    if p.Waiting? {
      QueueJoined(s.group.waiters, s.handles, h, p);
    } else {
      QueueKept(s.group.waiters, s.handles, s'.handles, h);
    }
  }

  lemma CoreClose(cfg: Config, s: System, h: nat)
    requires Core(s) && Enabled(cfg, s, CloseRun(h))
    ensures Core(Apply(cfg, s, CloseRun(h)))
  {
    Counted(s.item, s.handles, h);
    CoreClosed(s, h, CloseBody(s.item, |cfg.remote|, cfg.handleCaching));
  }

  lemma CoreClosed(s: System, h: nat, outcome: (CloseStep, ItemState))
    requires Core(s) && h in s.handles && s.handles[h].ClosingStart?
    requires var it := outcome.1;
             && HandleOk(it) && !it.dirty && (it.grace ==> it.opens == 0) && it.opens == s.item.opens - 1
             && it.pending == s.item.pending && it.beingReset == s.item.beingReset
             && (it.opens > 0 ==> it.attached == s.item.attached) && (it.attached ==> s.item.attached)
    ensures Core(ApplyClose(s, h, outcome))
  {
    var s' := ApplyClose(s, h, outcome);
    var p := if outcome.0.Closing? then ClosingWindow else Leaving(false);
    Counted(s.item, s.handles, h);
    if outcome.1.opens == 0 {
      AloneIn(s.item.pending, s.handles, h);
      SettleQuiet(s, outcome.1);
    }
    if s'.group == s.group {
      OneMoves(s.item, s.group.waiters, s.handles, h, p);
    } else {
      CountSet(s.handles, h, p);
      QueueEmpty(s'.handles);
    }
  }

  lemma CoreCloseDone(cfg: Config, s: System, h: nat)
    requires Core(s) && Enabled(cfg, s, CloseDone(h))
    ensures Core(Apply(cfg, s, CloseDone(h)))
  {
    Counted(s.item, s.handles, h);
    OneMoves(s.item, s.group.waiters, s.handles, h, Leaving(false));
  }

  lemma CoreGrace(cfg: Config, s: System, step: Step)
    requires Core(s) && Enabled(cfg, s, step) && (step.GraceFires? || step.GraceDone?)
    ensures Core(Apply(cfg, s, step))
  {
    var s' := Apply(cfg, s, step);
    var item := GraceBody(s.item, |cfg.remote|).1;
    if step.GraceFires? && s.item.opens == 0 {
      NobodyIn(s.item.pending, s.item.opens, s.handles);
      SettleQuiet(s, item);
    }
    if s'.group == NO_GROUP && s.item.opens == 0 && step.GraceFires? {
      QueueEmpty(s'.handles);
    } else {
    }
  }

  lemma CoreWrite(cfg: Config, s: System, step: Step)
    requires Core(s) && Enabled(cfg, s, step) && (step.DlWrite? || step.StrayWrite?)
    ensures Core(Apply(cfg, s, step))
  {
    var d := if step.DlWrite? then s.group.dls[step.i] else s.strays[step.i];
    var (item, d') := Written(cfg, s.item, d, step.len, step.n);
    if step.DlWrite? {
      CoreWrote(s, item, s.group.dls[step.i := d'], s.strays);
    } else {
      CoreWrote(s, item, s.group.dls, s.strays[step.i := d']);
    }
  }

  lemma CoreWrote(s: System, item: ItemState, dls: seq<Dl>, strays: seq<Dl>)
    requires Core(s) && (s.item.attached || dls == s.group.dls) && HandleOk(item)
    requires item == s.item.(fd := item.fd, disk := item.disk, rs := item.rs)
    ensures Core(s.(item := item, group := s.group.(dls := dls), strays := strays))
  {
  }

  lemma CoreQuiet(cfg: Config, s: System, step: Step)
    requires Core(s) && Enabled(cfg, s, step) && (step.DlStop? || step.DlEnd? || step.StrayStop? || step.GetSize?)
    ensures Core(Apply(cfg, s, step))
  {
  }

  /** After a kick the threads, their counts and the queue still fit together. */
  lemma CoreKick(cfg: Config, s: System)
    requires Core(s) && Enabled(cfg, s, KickAll)
    ensures Core(Apply(cfg, s, KickAll))
  {
    var s' := Apply(cfg, s, KickAll);
    var (answers, g') := Kick(s.group, s.item.rs, s.item.size, |cfg.remote|, cfg.readAhead);
    KickQueue(s.group, s.item.rs, s.item.size, |cfg.remote|, cfg.readAhead);
    KickAnswers(s.group, s.item.rs, s.item.size, |cfg.remote|, cfg.readAhead);
    DeliveredKeep(s.handles, answers);
    assert Accessors(s'.handles) == Accessors(s.handles) && Holders(s'.handles) == Holders(s.handles);
    DeliveredQueue(s.group.waiters, g'.waiters, s.handles, answers);
  }

  /** Giving out answers changes nothing but the threads that waited for one. */
  lemma DeliveredKeep(handles: map<nat, Phase>, answers: seq<Answer>)
    ensures forall h :: h in handles ==>
              var p, q := handles[h], Deliver(handles, answers)[h];
              && InAccess(q) == InAccess(p) && Holds(q) == Holds(p)
              && (q.Waiting? <==> p.Waiting? && !Answered(answers, h)) && (q.Waiting? ==> q == p)
  {
    forall h | h in handles
      ensures var p, q := handles[h], Deliver(handles, answers)[h];
              && InAccess(q) == InAccess(p) && Holds(q) == Holds(p)
              && (q.Waiting? <==> p.Waiting? && !Answered(answers, h)) && (q.Waiting? ==> q == p)
    {
      DeliverKeepsKind(handles[h], h, answers);
    }
  }

  lemma DeliveredQueue(waiters: seq<Waiter>, kept: seq<Waiter>, handles: map<nat, Phase>, answers: seq<Answer>)
    requires QueueOk(waiters, handles)
    requires UniqueIds(kept) && SplitUp(waiters, kept, answers) && forall w :: w in kept ==> w in waiters
    ensures QueueOk(kept, Deliver(handles, answers))
  {
    var handles' := Deliver(handles, answers);
    DeliveredKeep(handles, answers);
    forall w | w in kept ensures w.id in handles' && handles'[w.id].Waiting? && handles'[w.id].r == w.r {
      var i :| 0 <= i < |kept| && kept[i] == w;
      assert Queued(kept, w.id);
    }
  }

  lemma CoreReset(cfg: Config, s: System, step: Step)
    requires Core(s) && Enabled(cfg, s, step) && (step.ResetStart? || step.ResetStop?)
    ensures Core(Apply(cfg, s, step))
  {
    var s' := Apply(cfg, s, step);
    if step.ResetStart? && ResetBegin(s.item).0.Resetting? {
      NobodyIn(s.item.pending, s.item.opens, s.handles);
      SettleQuiet(s, ResetBegin(s.item).2);
      QueueEmpty(s'.handles);
      assert s'.group == NO_GROUP;
    } else {
    }
  }

  lemma CoreCleaner(cfg: Config, s: System, step: Step)
    requires Core(s) && Enabled(cfg, s, step) && (step.Evict? || step.RemoveDone? || step.RetryGone?)
    ensures Core(Apply(cfg, s, step))
  {
  }

  lemma ThreadKeepsCore(cfg: Config, s: System, step: Step)
    requires Core(s) && Enabled(cfg, s, step)
    requires step.OpenEnter? || step.OpenRun? || step.OpenGivesUp? || step.ReadEnter? || step.ReadLook?
          || step.ReadEnsure? || step.ReadReturn? || step.CloseEnter? || step.CloseRun? || step.CloseDone?
          || step.Leave?
    ensures Core(Apply(cfg, s, step))
  {
    match step
    case OpenEnter(_) => CoreEnter(cfg, s, step);
    case OpenRun(_, _, _, _) => CoreOpen(cfg, s, step);
    case OpenGivesUp(h) => CoreGivesUp(cfg, s, h);
    case ReadEnter(_, _, _) => CoreEnter(cfg, s, step);
    case ReadLook(h) => CoreLook(cfg, s, h);
    case ReadEnsure(h) => CoreEnsure(cfg, s, h);
    case ReadReturn(_, _) => CoreReturn(cfg, s, step);
    case CloseEnter(_) => CoreEnter(cfg, s, step);
    case CloseRun(h) => CoreClose(cfg, s, h);
    case CloseDone(h) => CoreCloseDone(cfg, s, h);
    case Leave(h) => CoreLeave(cfg, s, h);
  }

  lemma DownloadKeepsCore(cfg: Config, s: System, step: Step)
    requires Core(s) && Enabled(cfg, s, step)
    requires step.DlWrite? || step.StrayWrite? || step.DlStop? || step.DlEnd? || step.StrayStop? || step.GetSize?
          || step.KickAll?
    ensures Core(Apply(cfg, s, step))
  {
    if step.KickAll? {
      CoreKick(cfg, s);
    } else if step.DlWrite? || step.StrayWrite? {
      CoreWrite(cfg, s, step);
    } else {
      CoreQuiet(cfg, s, step);
    }
  }

  /** Every step keeps the core. */
  lemma StepKeepsCore(cfg: Config, s: System, step: Step)
    requires Core(s) && Enabled(cfg, s, step)
    ensures Core(Apply(cfg, s, step))
  {
    if step.GraceFires? || step.GraceDone? {
      CoreGrace(cfg, s, step);
    } else if step.ResetStart? || step.ResetStop? {
      CoreReset(cfg, s, step);
    } else if step.Evict? || step.RemoveDone? || step.RetryGone? {
      CoreCleaner(cfg, s, step);
    } else if step.DlWrite? || step.StrayWrite? || step.DlStop? || step.DlEnd? || step.StrayStop? || step.GetSize?
      || step.KickAll? {
      DownloadKeepsCore(cfg, s, step);
    } else {
      ThreadKeepsCore(cfg, s, step);
    }
  }

  // ---------- Every run ----------

  lemma RestIsCore(s: System)
    requires AtRest(s)
    ensures Core(s)
  {
    assert Accessors(s.handles) == {} && Holders(s.handles) == {};
  }

  lemma {:induction false} RunKeepsCore(cfg: Config, s: System, steps: seq<Step>)
    requires Core(s) && Legal(cfg, s, steps)
    ensures Core(Exec(cfg, s, steps))
    decreases |steps|
  {
    if steps != [] {
      StepKeepsCore(cfg, s, steps[0]);
      RunKeepsCore(cfg, Apply(cfg, s, steps[0]), steps[1..]);
    }
  }

  /** Over every run, a reset excludes accesses, and no more threads wait than are in an access. */
  lemma ResetExcludesAccess(cfg: Config, s: System, steps: seq<Step>)
    requires AtRest(s) && Legal(cfg, s, steps)
    ensures var s' := Exec(cfg, s, steps);
            && |s'.group.waiters| <= s'.item.pending
            && (s'.item.beingReset ==> s'.item.pending == 0 && s'.group.waiters == [])
            && (s'.item.beingReset ==> forall h :: h in s'.handles ==> !InAccess(s'.handles[h]))
  {
    RestIsCore(s);
    RunKeepsCore(cfg, s, steps);
    var s' := Exec(cfg, s, steps);
    NobodyIn(s'.item.pending, s'.item.opens, s'.handles);
    WaitersCounted(s'.group.waiters, Accessors(s'.handles));
  }

  /**
   Over every run, an item left in the reset state by a lack of space is remembered for a
   retry, and the retry neither skips it nor removes it: it goes on to reset it again.
   */
  lemma NoReaderForgotten(cfg: Config, s: System, steps: seq<Step>)
    requires AtRest(s) && Legal(cfg, s, steps)
    ensures var s' := Exec(cfg, s, steps);
            s'.item.beingReset && !s'.resetting ==>
              && s'.inErrItems && s'.inCache
              && Enabled(cfg, s', ResetStart(true)) && !Enabled(cfg, s', RetryGone)
              && ResetBegin(s'.item).0.Resetting?
              && Apply(cfg, s', ResetStart(true)).inErrItems
  {
    RestIsCore(s);
    RunKeepsCore(cfg, s, steps);
    var s' := Exec(cfg, s, steps);
    if s'.item.beingReset && !s'.resetting {
      RetryGoesOn(cfg, s');
    }
  }

  lemma RetryGoesOn(cfg: Config, s: System)
    requires ResetOk(s) && TidyOk(s.item, s.group) && s.item.beingReset && !s.resetting
    ensures s.inErrItems && s.inCache && Enabled(cfg, s, ResetStart(true)) && !Enabled(cfg, s, RetryGone)
    ensures ResetBegin(s.item).0.Resetting? && Apply(cfg, s, ResetStart(true)).inErrItems
  {
  }

  /** The note of an item that went meanwhile is dropped by the next retry. */
  lemma GoneIsDropped(cfg: Config, s: System)
    requires s.inErrItems && !s.inCache && CleanerFree(s)
    ensures Enabled(cfg, s, RetryGone) && !Apply(cfg, s, RetryGone).inErrItems
  {
  }

  /**
   A reset of the pass over the clean items leaves a note exactly when it fails, a retry keeps it just
   for lack of space.
   */
  lemma ResetNotes(cfg: Config, s: System, close: Option<Error>, check: CheckFault, create: Option<Error>)
    requires s.resetting && (s.retrying ==> s.inErrItems)
    ensures var err := ResetEnd(s.item, |cfg.remote|, close, check, create).1;
            var s' := Apply(cfg, s, ResetStop(close, check, create));
            && !s'.resetting && (!s.retrying ==> (s'.inErrItems <==> s.inErrItems || err.Some?))
            && (s.retrying ==> (s'.inErrItems <==> err == Some(NoSpace)))
  {
  }

  /** Where the first part of a retried reset ends already, the note goes. */
  lemma RetryDrops(cfg: Config, s: System)
    requires Enabled(cfg, s, ResetStart(true)) && !ResetBegin(s.item).0.Resetting?
    requires !ResetBegin(s.item).0.RemovedNotInUse?
    ensures var s' := Apply(cfg, s, ResetStart(true)); !s'.inErrItems && s'.item == s.item
    ensures var s' := Apply(cfg, s, ResetStart(false)); s'.inErrItems == s.inErrItems && s'.item == s.item
  {
  }

  /**
   The second part of Reset gives up the mutex in the same way before it destroys, but with
   the file closed nobody else changes more of the item than its size, and that is lost anyway.
   */
  lemma NobodyDisturbsReset(cfg: Config, s: System, step: Step)
    requires Core(s) && s.resetting && s.item.fd.NoFd? && Canonical(s.item.rs)
    requires Enabled(cfg, s, step) && !step.ResetStop?
    ensures var item := Apply(cfg, s, step).item;
            item == s.item.(size := item.size) && RemoveFiles(item) == RemoveFiles(s.item)
    ensures !step.GetSize? ==> Apply(cfg, s, step).item == s.item
  {
    NobodyIn(s.item.pending, s.item.opens, s.handles);
    if step.StrayWrite? {
      var d := s.strays[step.i];
      MarkedExact(s.item.rs, s.item.rs, d.offset, step.n);
    }
  }
}
