/**
 What a queued reader can count on, over every run: he is let through exactly when a kick
 finds his range present, and a download that leads over all he misses brings it, as long as
 the presence set is not destroyed and the download does not end.
 */
module CacheQueue {
  import opened CacheAgreement
  import opened CacheCore
  import opened CacheItem
  import opened CacheMachine
  import opened DownloadGroup
  import opened PlainReader
  import opened Ranges
  import opened Wrappers

  // ---------- Being let through ----------

  predicate LetThrough(p: Phase) { p.Resumed? && p.ok }

  /** Steps that do no more than move their thread, outside the middle of a read. */
  predicate Moves(step: Step) {
    step.OpenEnter? || step.OpenGivesUp? || step.ReadEnter? || step.CloseEnter? || step.CloseDone? || step.Leave?
  }

  predicate Stays(handles: map<nat, Phase>, handles': map<nat, Phase>, h: nat)
    requires h in handles
  {
    h in handles' && handles'[h] == handles[h]
  }

  /**
   Over every run, a thread that waits goes on waiting, but for a kick, which tells it that its range
   is there if and only if it is.
   */
  lemma WaiterStep(cfg: Config, s: System, step: Step, h: nat)
    requires Core(s) && Enabled(cfg, s, step) && h in s.handles && s.handles[h].Waiting?
    ensures var s', p := Apply(cfg, s, step), s.handles[h];
            && h in s'.handles
            && if step.KickAll? then
                 && (LetThrough(s'.handles[h]) <==> Present(s.item.rs, p.r.Clip(|cfg.remote|)))
                 && (s'.handles[h] == p || exists ok :: s'.handles[h] == Resumed(p.off, p.len, p.r, ok))
               else s'.handles[h] == p
  {
    if step.KickAll? {
      KickTells(s.group, s.item.rs, s.item.size, |cfg.remote|, cfg.readAhead, s.handles, h);
    } else {
      WaiterStays(cfg, s, step, h);
    }
  }

  /** Detaching the downloads would answer him too, but it does not happen while he holds the item. */
  lemma WaiterStays(cfg: Config, s: System, step: Step, h: nat)
    requires CountsOk(s.item.pending, s.item.opens, s.handles) && TidyOk(s.item, s.group)
    requires Enabled(cfg, s, step) && !step.KickAll? && h in s.handles && s.handles[h].Waiting?
    ensures Stays(s.handles, Apply(cfg, s, step).handles, h)
  {
    Counted(s.item, s.handles, h);
    if step.OpenRun? {
      OpenCounts(s.item, |cfg.remote|, step.mkdir, step.check, step.create);
      WaiterOpen(s, step.h, OpenBody(s.item, |cfg.remote|, step.mkdir, step.check, step.create), h);
    } else if step.CloseRun? {
      WaiterClose(cfg, s, step.h, h);
    } else if !step.GraceFires? && !step.ResetStart? {
      BystanderStays(cfg, s, step, h);
    }
  }

  lemma WaiterOpen(s: System, g: nat, outcome: (OpenStep, ItemState), h: nat)
    requires h in s.handles && s.handles[h].Waiting? && g != h
    requires s.item.opens > 0 && OpenCounted(s.item, outcome.0, outcome.1)
    ensures Stays(s.handles, ApplyOpen(s, g, outcome).handles, h)
  {
  }

  lemma WaiterClose(cfg: Config, s: System, g: nat, h: nat)
    requires CountsOk(s.item.pending, s.item.opens, s.handles) && g in s.handles && s.handles[g].ClosingStart?
    requires h in s.handles && s.handles[h].Waiting?
    ensures Stays(s.handles, ApplyClose(s, g, CloseBody(s.item, |cfg.remote|, cfg.handleCaching)).handles, h)
  {
    Counted(s.item, s.handles, h);
    if s.item.opens == 1 {
      AloneIn(s.item.pending, s.handles, g);
    }
  }

  /** No step of others moves a thread in its read, but for those that answer waiters. */
  lemma BystanderStays(cfg: Config, s: System, step: Step, h: nat)
    requires Enabled(cfg, s, step) && h in s.handles
    requires s.handles[h].Waiting? || (s.handles[h].Resumed? && !(step.ReadReturn? && step.h == h))
    requires !step.OpenRun? && !step.CloseRun? && !step.GraceFires? && !step.ResetStart? && !step.KickAll?
    ensures Stays(s.handles, Apply(cfg, s, step).handles, h)
  {
    if step.ReadLook? || step.ReadEnsure? || step.ReadReturn? {
      BystanderOfRead(cfg, s, step, h);
    } else if Moves(step) {
      BystanderOfMove(cfg, s, step, h);
    }
  }

  lemma BystanderOfRead(cfg: Config, s: System, step: Step, h: nat)
    requires Enabled(cfg, s, step) && h in s.handles && (step.ReadLook? || step.ReadEnsure? || step.ReadReturn?)
    requires step.h != h
    ensures Stays(s.handles, Apply(cfg, s, step).handles, h)
  {
  }

  lemma BystanderOfMove(cfg: Config, s: System, step: Step, h: nat)
    requires Enabled(cfg, s, step) && h in s.handles
    requires Moves(step)
    requires step.h != h
    ensures Stays(s.handles, Apply(cfg, s, step).handles, h)
  {
  }

  /** A kick tells a waiting thread the truth. */
  lemma KickTells(g: Group, rs: seq<Range>, size: int, total: nat, readAhead: nat, handles: map<nat, Phase>, h: nat)
    requires ErrorsKnown(g) && QueueOk(g.waiters, handles) && h in handles && handles[h].Waiting?
    ensures var p, q := handles[h], Deliver(handles, Kick(g, rs, size, total, readAhead).0)[h];
            && (LetThrough(q) <==> Present(rs, p.r.Clip(total)))
            && (q == p || exists ok :: q == Resumed(p.off, p.len, p.r, ok))
  {
    var w := QueuedAs(g.waiters, handles, h);
    KickTruth(g, rs, size, total, readAhead, w);
    TellOne(handles[h], h, Kick(g, rs, size, total, readAhead).0, Ready(w, rs, total));
  }

  lemma QueuedAs(waiters: seq<Waiter>, handles: map<nat, Phase>, h: nat) returns (w: Waiter)
    requires QueueOk(waiters, handles) && h in handles && handles[h].Waiting?
    ensures w in waiters && w.id == h && w.r == handles[h].r
  {
    var i :| 0 <= i < |waiters| && waiters[i].id == h;
    w := waiters[i];
    assert w in waiters;
  }

  lemma TellOne(p: Phase, h: nat, answers: seq<Answer>, ready: bool)
    requires p.Waiting? && (ready ==> Answered(answers, h))
    requires forall a :: a in answers && a.id == h ==> (a.err == None <==> ready)
    ensures var q := DeliverTo(p, h, answers);
            (LetThrough(q) <==> ready) && (q == p || exists ok :: q == Resumed(p.off, p.len, p.r, ok))
  {
    DeliverKeepsKind(p, h, answers);
  }

  /** Whatever a kick tells a queued thread, it is nil exactly when the range is present. */
  lemma KickTruth(g: Group, rs: seq<Range>, size: int, total: nat, readAhead: nat, w: Waiter)
    requires ErrorsKnown(g) && UniqueIds(g.waiters) && w in g.waiters
    ensures var answers := Kick(g, rs, size, total, readAhead).0;
            && (Ready(w, rs, total) ==> Answered(answers, w.id))
            && forall a :: a in answers && a.id == w.id ==> (a.err == None <==> Ready(w, rs, total))
  {
    KickAnswers(g, rs, size, total, readAhead);
    var answers := Kick(g, rs, size, total, readAhead).0;
    if Ready(w, rs, total) {
      assert Answer(w.id, None) in answers;
      var i :| 0 <= i < |answers| && answers[i] == Answer(w.id, None);
    }
    forall a | a in answers && a.id == w.id ensures a.err == None <==> Ready(w, rs, total) {
      var v := AnswerTo(g, rs, size, total, readAhead, a);
      SameWaiter(g.waiters, v, w);
    }
  }

  /** Each answer of a kick is for one that was queued, nil exactly when he is ready. */
  lemma AnswerTo(g: Group, rs: seq<Range>, size: int, total: nat, readAhead: nat, a: Answer) returns (v: Waiter)
    requires ErrorsKnown(g) && a in Kick(g, rs, size, total, readAhead).0
    ensures v in g.waiters && v.id == a.id && (a.err == None <==> Ready(v, rs, total))
  {
    if a in Delivered(g.waiters, rs, total) {
      v :| v in g.waiters && v.id == a.id && Ready(v, rs, total);
    } else {
      var left := Remaining(g.waiters, rs, total);
      var g2 := EnsureEach(g.(waiters := left), rs, size, total, readAhead, left);
      v := RefusedOne(left, g2.lastErr, a);
    }
  }

  lemma RefusedOne(waiters: seq<Waiter>, err: Option<Error>, a: Answer) returns (v: Waiter)
    requires a in Refused(waiters, err)
    ensures v in waiters && v.id == a.id && a.err == err
  {
    var i :| 0 <= i < |waiters| && Refused(waiters, err)[i] == a;
    v := waiters[i];
  }

  lemma SameWaiter(waiters: seq<Waiter>, v: Waiter, w: Waiter)
    requires UniqueIds(waiters) && v in waiters && w in waiters && v.id == w.id
    ensures v == w
  {
    var i, j :| 0 <= i < |waiters| && 0 <= j < |waiters| && waiters[i] == v && waiters[j] == w;
  }

  /**
   Over every run, a thread is let through to read by one of two steps: a kick that finds the
   range it waits for present, or its own request, when it had found it present itself.  The
   kick misses nobody.
   */
  lemma LetThroughExactly(cfg: Config, s0: System, steps: seq<Step>, step: Step, h: nat)
    requires AtRest(s0) && Legal(cfg, s0, steps) && Enabled(cfg, Exec(cfg, s0, steps), step)
    requires h in Exec(cfg, s0, steps).handles && !Exec(cfg, s0, steps).handles[h].Resumed?
    ensures var s := Exec(cfg, s0, steps);
            var s', p := Apply(cfg, s, step), s.handles[h];
            h in s'.handles && LetThrough(s'.handles[h]) <==>
              || (step.KickAll? && p.Waiting? && Present(s.item.rs, p.r.Clip(|cfg.remote|)))
              || (step == ReadEnsure(h) && p.present && (s.item.attached ==> Asked(cfg, s, p.r).0 == None))
  {
    RestIsCore(s0);
    RunKeepsCore(cfg, s0, steps);
    var s := Exec(cfg, s0, steps);
    if s.handles[h].Waiting? {
      WaiterStep(cfg, s, step, h);
    } else if step != ReadEnsure(h) {
      OthersStep(cfg, s, step, h);
    }
  }

  /** No other step lets a thread through that does not wait. */
  lemma OthersStep(cfg: Config, s: System, step: Step, h: nat)
    requires Enabled(cfg, s, step) && step != ReadEnsure(h)
    requires h in s.handles && !s.handles[h].Waiting? && !s.handles[h].Resumed?
    ensures var s' := Apply(cfg, s, step); h in s'.handles ==> !s'.handles[h].Resumed?
  {
    if step.OpenRun? {
      OthersOpen(s, step.h, OpenBody(s.item, |cfg.remote|, step.mkdir, step.check, step.create), h);
    } else if step.CloseRun? {
      NotAnswered(s, CloseBody(s.item, |cfg.remote|, cfg.handleCaching).1, h);
    } else if step.GraceFires? {
      NotAnswered(s, GraceBody(s.item, |cfg.remote|).1, h);
    } else if step.ResetStart? {
      NotAnswered(s, ResetBegin(s.item).2, h);
    } else if !step.KickAll? {
      OthersPhase(cfg, s, step, h);
    }
  }

  lemma OthersPhase(cfg: Config, s: System, step: Step, h: nat)
    requires Enabled(cfg, s, step) && h in s.handles && !s.handles[h].Waiting? && !s.handles[h].Resumed?
    requires step != ReadEnsure(h) && !step.OpenRun? && !step.CloseRun?
    requires !step.GraceFires? && !step.ResetStart? && !step.KickAll?
    ensures var s' := Apply(cfg, s, step); h in s'.handles ==> !s'.handles[h].Resumed?
  {
    if step.ReadLook? || step.ReadEnsure? || step.ReadReturn? {
      OthersRead(cfg, s, step, h);
    } else if Moves(step) {
      OthersMove(cfg, s, step, h);
    }
  }

  lemma OthersRead(cfg: Config, s: System, step: Step, h: nat)
    requires Enabled(cfg, s, step) && h in s.handles && !s.handles[h].Resumed?
    requires step.ReadLook? || (step.ReadEnsure? && step.h != h) || step.ReadReturn?
    ensures var s' := Apply(cfg, s, step); h in s'.handles ==> !s'.handles[h].Resumed?
  {
  }

  lemma OthersMove(cfg: Config, s: System, step: Step, h: nat)
    requires Enabled(cfg, s, step) && h in s.handles && !s.handles[h].Resumed?
    requires Moves(step)
    ensures var s' := Apply(cfg, s, step); h in s'.handles ==> !s'.handles[h].Resumed?
  {
  }

  lemma OthersOpen(s: System, g: nat, outcome: (OpenStep, ItemState), h: nat)
    requires h in s.handles && !s.handles[h].Waiting? && !s.handles[h].Resumed?
    ensures !ApplyOpen(s, g, outcome).handles[h].Resumed?
  {
    NotAnswered(s, outcome.1.(attached := outcome.1.attached && !outcome.0.Created?), h);
  }

  lemma NotAnswered(s: System, item: ItemState, h: nat)
    requires h in s.handles && !s.handles[h].Waiting?
    ensures h in Settle(s, item).handles && Settle(s, item).handles[h] == s.handles[h]
  {
  }

  // ---------- Downloads and requests, over every run ----------

  /** No request begins before the file does. */
  predicate Asking(p: Phase) {
    match p
    case Ensuring(_, _, r, _) => 0 <= r.pos
    case Waiting(_, _, r) => 0 <= r.pos
    case _ => true
  }

  ghost predicate AllAsking(handles: map<nat, Phase>) { forall h :: h in handles ==> Asking(handles[h]) }

  ghost predicate Tracks(total: nat, s: System) {
    Canonical(s.item.rs) && DlsOk(total, s.group.dls) && DlsOk(total, s.strays) && AllAsking(s.handles)
  }

  ghost predicate Tracked(cfg: Config, s: System) { Core(s) && Tracks(|cfg.remote|, s) }

  /** The presence set is kept, or emptied. */
  predicate KeptOrLost(it: ItemState, it': ItemState) { it'.rs == it.rs || it'.rs == [] }

  lemma OpenKeepsOrLoses(it: ItemState, total: nat, mkdir: Option<Error>, check: CheckFault, create: Option<Error>)
    ensures KeptOrLost(it, OpenBody(it, total, mkdir, check, create).1)
  {
  }

  lemma ResetKeepsOrLoses(it: ItemState, total: nat, close: Option<Error>, check: CheckFault, create: Option<Error>)
    ensures KeptOrLost(it, ResetEnd(it, total, close, check, create).3)
  {
  }

  lemma DeliverAsking(handles: map<nat, Phase>, answers: seq<Answer>)
    requires AllAsking(handles)
    ensures AllAsking(Deliver(handles, answers))
  {
    forall h | h in handles ensures Asking(DeliverTo(handles[h], h, answers)) {
      DeliverKeepsKind(handles[h], h, answers);
    }
  }

  lemma TracksSettled(total: nat, s: System, item: ItemState)
    requires Tracks(total, s) && KeptOrLost(s.item, item)
    ensures Tracks(total, Settle(s, item))
  {
    SettledDls(total, s, item);
    DeliverAsking(s.handles, Refused(s.group.waiters, None));
  }

  lemma TracksOpened(total: nat, s: System, h: nat, outcome: (OpenStep, ItemState))
    requires Tracks(total, s) && KeptOrLost(s.item, outcome.1)
    ensures Tracks(total, ApplyOpen(s, h, outcome))
  {
    TracksSettled(total, s, outcome.1.(attached := outcome.1.attached && !outcome.0.Created?));
  }

  lemma TracksClosed(total: nat, s: System, h: nat, outcome: (CloseStep, ItemState))
    requires Tracks(total, s) && KeptOrLost(s.item, outcome.1)
    ensures Tracks(total, ApplyClose(s, h, outcome)) && Tracks(total, ApplyGrace(s, outcome))
  {
    TracksSettled(total, s, outcome.1);
  }

  lemma TracksWrite(cfg: Config, s: System, step: Step)
    requires HandleOk(s.item) && Tracks(|cfg.remote|, s) && Enabled(cfg, s, step) && (step.DlWrite? || step.StrayWrite?)
    ensures Tracks(|cfg.remote|, Apply(cfg, s, step))
  {
    var d := if step.DlWrite? then s.group.dls[step.i] else s.strays[step.i];
    assert DlOk(|cfg.remote|, d);
    var rs, item, d' := WrittenParts(cfg, s.item, d, step.len, step.n);
    WrittenIs(cfg, s.item, d, step.len, step.n);
  }

  lemma TracksDl(cfg: Config, s: System, step: Step)
    requires Tracks(|cfg.remote|, s) && Enabled(cfg, s, step) && (step.DlStop? || step.DlEnd? || step.StrayStop?)
    ensures Tracks(|cfg.remote|, Apply(cfg, s, step))
  {
    assert DlOk(|cfg.remote|, if step.StrayStop? then s.strays[step.i] else s.group.dls[step.i]);
  }

  lemma TracksKick(cfg: Config, s: System)
    requires Tracks(|cfg.remote|, s) && Enabled(cfg, s, KickAll)
    ensures Tracks(|cfg.remote|, Apply(cfg, s, KickAll))
  {
    var g1 := s.group.(waiters := Remaining(s.group.waiters, s.item.rs, |cfg.remote|));
    EnsureEachDls(g1, s.item.rs, s.item.size, |cfg.remote|, cfg.readAhead, g1.waiters);
    DeliverAsking(s.handles, Kick(s.group, s.item.rs, s.item.size, |cfg.remote|, cfg.readAhead).0);
  }

  lemma TracksAsked(cfg: Config, s: System, h: nat)
    requires Tracks(|cfg.remote|, s) && Enabled(cfg, s, ReadEnsure(h))
    ensures Tracks(|cfg.remote|, Apply(cfg, s, ReadEnsure(h)))
  {
    var r := s.handles[h].r;
    EnsureDls(if s.item.attached then s.group else NO_GROUP, s.item.rs, s.item.size, |cfg.remote|, cfg.readAhead, r);
    assert Asking(s.handles[h]);
  }

  lemma TracksItem(cfg: Config, s: System, step: Step)
    requires Tracks(|cfg.remote|, s) && Enabled(cfg, s, step)
    requires step.OpenRun? || step.CloseRun? || step.GraceFires? || step.ResetStart? || step.ResetStop?
    ensures Tracks(|cfg.remote|, Apply(cfg, s, step))
  {
    match step
    case OpenRun(h, mkdir, check, create) =>
      OpenKeepsOrLoses(s.item, |cfg.remote|, mkdir, check, create);
      TracksOpened(|cfg.remote|, s, h, OpenBody(s.item, |cfg.remote|, mkdir, check, create));
    case CloseRun(h) => TracksClosed(|cfg.remote|, s, h, CloseBody(s.item, |cfg.remote|, cfg.handleCaching));
    case GraceFires => TracksClosed(|cfg.remote|, s, 0, GraceBody(s.item, |cfg.remote|));
    case ResetStart(_) =>
      TracksSettled(|cfg.remote|, s, if ResetBegin(s.item).0.Resetting? then ResetBegin(s.item).2 else s.item);
    case ResetStop(close, check, create) => ResetKeepsOrLoses(s.item, |cfg.remote|, close, check, create);
  }

  lemma TracksMove(cfg: Config, s: System, step: Step)
    requires Tracks(|cfg.remote|, s) && Enabled(cfg, s, step)
    requires Moves(step)
    ensures Tracks(|cfg.remote|, Apply(cfg, s, step))
  {
  }

  lemma TracksRead(cfg: Config, s: System, step: Step)
    requires Tracks(|cfg.remote|, s) && Enabled(cfg, s, step) && (step.ReadLook? || step.ReadReturn?)
    ensures Tracks(|cfg.remote|, Apply(cfg, s, step))
  {
  }

  lemma TracksRest(cfg: Config, s: System, step: Step)
    requires Tracks(|cfg.remote|, s) && Enabled(cfg, s, step)
    requires step.GetSize? || step.GraceDone? || step.Evict? || step.RemoveDone? || step.RetryGone?
    ensures Tracks(|cfg.remote|, Apply(cfg, s, step))
  {
  }

  lemma TracksDownloads(cfg: Config, s: System, step: Step)
    requires HandleOk(s.item) && Tracks(|cfg.remote|, s) && Enabled(cfg, s, step)
    requires step.DlWrite? || step.StrayWrite? || step.DlStop? || step.DlEnd? || step.StrayStop?
          || step.KickAll? || step.ReadEnsure?
    ensures Tracks(|cfg.remote|, Apply(cfg, s, step))
  {
    if step.DlWrite? || step.StrayWrite? {
      TracksWrite(cfg, s, step);
    } else if step.KickAll? {
      TracksKick(cfg, s);
    } else if step.ReadEnsure? {
      TracksAsked(cfg, s, step.h);
    } else {
      TracksDl(cfg, s, step);
    }
  }

  /** Every step keeps the presence set canonical, and downloads inside the remote and writing where they read. */
  lemma StepKeepsTracked(cfg: Config, s: System, step: Step)
    requires Tracked(cfg, s) && Enabled(cfg, s, step)
    ensures Tracked(cfg, Apply(cfg, s, step))
  {
    StepKeepsCore(cfg, s, step);
    if step.GetSize? || step.GraceDone? || step.Evict? || step.RemoveDone? || step.RetryGone? {
      TracksRest(cfg, s, step);
    } else if step.OpenRun? || step.CloseRun? || step.GraceFires? || step.ResetStart? || step.ResetStop? {
      TracksItem(cfg, s, step);
    } else if step.ReadLook? || step.ReadReturn? {
      TracksRead(cfg, s, step);
    } else if Moves(step) {
      TracksMove(cfg, s, step);
    } else {
      TracksDownloads(cfg, s, step);
    }
  }

  lemma {:induction false} RunKeepsTracked(cfg: Config, s: System, steps: seq<Step>)
    requires Tracked(cfg, s) && Legal(cfg, s, steps)
    ensures Tracked(cfg, Exec(cfg, s, steps))
    decreases |steps|
  {
    if steps != [] {
      StepKeepsTracked(cfg, s, steps[0]);
      RunKeepsTracked(cfg, Apply(cfg, s, steps[0]), steps[1..]);
    }
  }

  lemma RestIsTracked(cfg: Config, s: System)
    requires AtRest(s) && Canonical(s.item.rs)
    ensures Tracked(cfg, s)
  {
    RestIsCore(s);
  }

  // ---------- Queueing up ----------

  /** Nothing of the range and the read-ahead is missing, or a download is under way that leads over all of it. */
  ghost predicate ServedIn(cfg: Config, s: System, r: Range) {
    Served(s.group.dls, s.item.rs, |cfg.remote|, cfg.readAhead, r)
  }

  /** The first download near the first missing byte, if there is one, has not passed that byte. */
  ghost predicate NotPassed(cfg: Config, s: System, r: Range) {
    var m, dls := Missing(s.item.rs, |cfg.remote|, AheadOf(r, cfg.readAhead)), RemoveClosed(s.group.dls);
    var k := FirstNear(dls, m.pos, 0);
    k == |dls| || dls[k].offset <= m.pos
  }

  /**
   Over every run, a thread that queues up while the item has the remote's size is served
   exactly when it was before, or the download that is reused for it has not passed what it
   misses; a removal that empties the presence set can leave one that has.
   */
  lemma QueuedIsServedIff(cfg: Config, s0: System, steps: seq<Step>, h: nat)
    requires AtRest(s0) && Canonical(s0.item.rs) && Legal(cfg, s0, steps)
    requires var s := Exec(cfg, s0, steps); Enabled(cfg, s, ReadEnsure(h)) && s.item.size == |cfg.remote|
    ensures var s := Exec(cfg, s0, steps);
            var s', r := Apply(cfg, s, ReadEnsure(h)), s.handles[h].r;
            s'.handles[h].Waiting? ==> (ServedIn(cfg, s', r) <==> ServedIn(cfg, s, r) || NotPassed(cfg, s, r))
  {
    RestIsTracked(cfg, s0);
    RunKeepsTracked(cfg, s0, steps);
    AskedIsServedIff(cfg, Exec(cfg, s0, steps), h);
  }

  lemma AskedIsServedIff(cfg: Config, s: System, h: nat)
    requires Tracks(|cfg.remote|, s) && TidyOk(s.item, s.group) && s.item.size == |cfg.remote|
    requires h in s.handles && s.handles[h].Ensuring?
    ensures var s', r := ApplyEnsure(s, h, Asked(cfg, s, s.handles[h].r)), s.handles[h].r;
            s'.handles[h].Waiting? ==> (ServedIn(cfg, s', r) <==> ServedIn(cfg, s, r) || NotPassed(cfg, s, r))
  {
    assert Asking(s.handles[h]);
    EnsureServesIff(s.group, s.item.rs, |cfg.remote|, cfg.readAhead, s.handles[h].r);
  }

  // ---------- A download that serves brings what is missing ----------

  /** `d'` is the open download `d`, later. */
  predicate Follows(d: Dl, d': Dl) {
    !d'.closed && d'.start == d.start && d.offset <= d'.offset && d.maxOffset <= d'.maxOffset
  }

  /** The download goes on, and what it has passed since is present. */
  ghost predicate Passed(rs: seq<Range>, d: Dl, d': Dl) {
    Follows(d, d') && AllPresent(rs, d.offset, d'.offset)
  }

  ghost predicate GoesOn(rs: seq<Range>, dls: seq<Dl>, d: Dl) { exists d' :: d' in dls && Passed(rs, d, d') }

  /**
   The step neither ends a download that began where `d` did, nor destroys what is present:
   no removal comes to its end, and no open or read finds the file gone.
   */
  ghost predicate Spares(s: System, step: Step, d: Dl) {
    match step
    case DlEnd(i, _, _) => i < |s.group.dls| ==> s.group.dls[i].start != d.start
    case RemoveDone => false
    case OpenGivesUp(_) => false
    case OpenRun(_, _, _, _) => (s.item.opens > 0 || s.item.grace) && Contents(s.item).Some?
    case ReadReturn(_, _) => Contents(s.item).Some?
    case _ => true
  }

  /** The downloads stay attached all along, and every step spares `d`. */
  ghost predicate Undisturbed(cfg: Config, s: System, steps: seq<Step>, d: Dl)
    requires Legal(cfg, s, steps)
    decreases |steps|
  {
    s.item.attached &&
    (steps == [] || (Spares(s, steps[0], d) && Undisturbed(cfg, Apply(cfg, s, steps[0]), steps[1..], d)))
  }

  lemma UpdateGoesOn(rs: seq<Range>, dls: seq<Dl>, i: nat, e: Dl, d: Dl)
    requires GoesOn(rs, dls, d) && i < |dls| && (Passed(rs, d, dls[i]) ==> Passed(rs, d, e))
    ensures GoesOn(rs, dls[i := e], d)
  {
    var d' :| d' in dls && Passed(rs, d, d');
    var j :| 0 <= j < |dls| && dls[j] == d';
    assert dls[i := e][j] == if j == i then e else d';
  }

  lemma GrowGoesOn(rs: seq<Range>, rs': seq<Range>, dls: seq<Dl>, d: Dl)
    requires GoesOn(rs, dls, d) && forall x :: Covers(rs, x) ==> Covers(rs', x)
    ensures GoesOn(rs', dls, d)
  {
    var d' :| d' in dls && Passed(rs, d, d');
    assert Passed(rs', d, d');
  }

  lemma EnsureGoesOn(g: Group, rs: seq<Range>, size: int, total: nat, readAhead: nat, r: Range, d: Dl)
    requires GoesOn(rs, g.dls, d)
    ensures GoesOn(rs, Ensure(g, rs, size, total, readAhead, r).1.dls, d)
  {
    var w := Wanted(rs, size, r, readAhead).0;
    var d' :| d' in g.dls && Passed(rs, d, d');
    OpenOnesStay(g.dls, d');
    var dls := RemoveClosed(g.dls);
    var k := FirstNear(dls, w.pos, 0);
    assert GoesOn(rs, dls, d);
    if k < |dls| {
      UpdateGoesOn(rs, dls, k, Extended(dls[k], w), d);
    } else {
      assert forall e :: d' in dls + [e];
    }
  }

  lemma {:induction false} EnsureEachGoesOn(g: Group, rs: seq<Range>, size: int, total: nat, readAhead: nat,
                                            waiters: seq<Waiter>, d: Dl)
    requires GoesOn(rs, g.dls, d)
    ensures GoesOn(rs, EnsureEach(g, rs, size, total, readAhead, waiters).dls, d)
    decreases |waiters|
  {
    if waiters != [] {
      var n := |waiters| - 1;
      EnsureEachGoesOn(g, rs, size, total, readAhead, waiters[..n], d);
      var g' := EnsureEach(g, rs, size, total, readAhead, waiters[..n]);
      EnsureGoesOn(g', rs, size, total, readAhead, waiters[n].r, d);
    }
  }

  /** While attached, the download goes on and nothing present gets lost. */
  lemma StepGoesOn(cfg: Config, s: System, step: Step, d: Dl)
    requires Tracked(cfg, s) && Enabled(cfg, s, step) && Spares(s, step, d)
    requires s.item.attached && Apply(cfg, s, step).item.attached && GoesOn(s.item.rs, s.group.dls, d)
    ensures var s' := Apply(cfg, s, step);
            GoesOn(s'.item.rs, s'.group.dls, d) && forall x :: Covers(s.item.rs, x) ==> Covers(s'.item.rs, x)
  {
    if step.DlWrite? || step.StrayWrite? {
      WriteGoesOn(cfg, s, step, d);
    } else if step.OpenRun? {
      OpenGoesOn(cfg, s, step);
    } else if step.ReadEnsure? || step.KickAll? || step.DlStop? || step.DlEnd? {
      GroupGoesOn(cfg, s, step, d);
    } else {
      OthersGoOn(cfg, s, step);
    }
  }

  lemma OthersGoOn(cfg: Config, s: System, step: Step)
    requires ResetOk(s) && Enabled(cfg, s, step) && s.item.attached && Apply(cfg, s, step).item.attached
    requires step.ReadReturn? ==> Contents(s.item).Some?
    requires !step.RemoveDone? && !step.OpenGivesUp? && !step.DlWrite? && !step.StrayWrite? && !step.OpenRun?
    requires !step.ReadEnsure? && !step.KickAll? && !step.DlStop? && !step.DlEnd?
    ensures SameGroup(s, Apply(cfg, s, step))
  {
    if step.CloseRun? {
      SettledGoesOn(s, CloseBody(s.item, |cfg.remote|, cfg.handleCaching).1);
    } else if step.GraceFires? {
      SettledGoesOn(s, GraceBody(s.item, |cfg.remote|).1);
    } else if step.ResetStart? {
      ResetNotStarted(s, step.retry);
    } else if step.ReadReturn? {
      ReturnKeeps(s.item, |cfg.remote|, s.handles[step.h].off, s.handles[step.h].len, step.check);
    } else {
      QuietGoesOn(cfg, s, step);
    }
  }

  predicate SameGroup(s: System, s': System) { s'.group == s.group && s'.item.rs == s.item.rs }

  lemma SettledGoesOn(s: System, item: ItemState)
    requires s.item.attached && item.rs == s.item.rs
    ensures item.attached ==> SameGroup(s, Settle(s, item))
  {
  }

  lemma ResetNotStarted(s: System, retry: bool)
    requires s.item.attached
    ensures var s' := ApplyResetStart(s, retry, ResetBegin(s.item)); s'.item.attached ==> SameGroup(s, s')
  {
  }

  lemma ReturnKeeps(it: ItemState, total: nat, off: nat, len: nat, check: CheckFault)
    requires Contents(it).Some?
    ensures ReadFinish(it, total, off, len, check).1.rs == it.rs
  {
  }

  lemma QuietGoesOn(cfg: Config, s: System, step: Step)
    requires (s.resetting ==> !s.item.attached) && Enabled(cfg, s, step) && s.item.attached
    requires !step.RemoveDone? && !step.OpenGivesUp? && !step.DlWrite? && !step.StrayWrite? && !step.OpenRun?
    requires !step.ReadEnsure? && !step.KickAll? && !step.DlStop? && !step.DlEnd?
    requires !step.CloseRun? && !step.GraceFires? && !step.ResetStart? && !step.ReadReturn?
    ensures SameGroup(s, Apply(cfg, s, step))
  {
  }

  lemma OpenGoesOn(cfg: Config, s: System, step: Step)
    requires Enabled(cfg, s, step) && step.OpenRun? && s.item.attached && Apply(cfg, s, step).item.attached
    requires TidyOk(s.item, s.group) && 0 <= s.item.opens
    requires (s.item.opens > 0 || s.item.grace) && Contents(s.item).Some?
    ensures var s' := Apply(cfg, s, step); s'.group == s.group && s'.item.rs == s.item.rs
  {
    OpenInPlace(s.item, |cfg.remote|, step.mkdir, step.check, step.create);
  }

  /**
   An open of an item that is open or in grace, and whose file is there, changes neither its downloads
   nor what is present.
   */
  lemma OpenInPlace(it: ItemState, total: nat, mkdir: Option<Error>, check: CheckFault, create: Option<Error>)
    requires HandleOk(it) && 0 <= it.opens && (it.opens > 0 || it.grace) && Contents(it).Some? && it.attached
    ensures var (how, it') := OpenBody(it, total, mkdir, check, create);
            it'.rs == it.rs && (it'.attached ==> !how.Created?)
  {
  }

  lemma GroupGoesOn(cfg: Config, s: System, step: Step, d: Dl)
    requires Enabled(cfg, s, step) && s.item.attached && Spares(s, step, d) && GoesOn(s.item.rs, s.group.dls, d)
    requires step.ReadEnsure? || step.KickAll? || step.DlStop? || step.DlEnd?
    ensures var s' := Apply(cfg, s, step); GoesOn(s'.item.rs, s'.group.dls, d) && s'.item.rs == s.item.rs
  {
    match step
    case ReadEnsure(h) =>
      EnsureGoesOn(s.group, s.item.rs, s.item.size, |cfg.remote|, cfg.readAhead, s.handles[h].r, d);
    case KickAll =>
      var g1 := s.group.(waiters := Remaining(s.group.waiters, s.item.rs, |cfg.remote|));
      EnsureEachGoesOn(g1, s.item.rs, s.item.size, |cfg.remote|, cfg.readAhead, g1.waiters, d);
    case DlStop(i) => UpdateGoesOn(s.item.rs, s.group.dls, i, s.group.dls[i].(stop := true), d);
    case DlEnd(i, _, _) => UpdateGoesOn(s.item.rs, s.group.dls, i, s.group.dls[i].(closed := true, done := true), d);
  }

  lemma WriteGoesOn(cfg: Config, s: System, step: Step, d: Dl)
    requires HandleOk(s.item) && Tracks(|cfg.remote|, s) && GoesOn(s.item.rs, s.group.dls, d)
    requires Enabled(cfg, s, step) && (step.DlWrite? || step.StrayWrite?)
    ensures var s' := Apply(cfg, s, step);
            GoesOn(s'.item.rs, s'.group.dls, d) && forall x :: Covers(s.item.rs, x) ==> Covers(s'.item.rs, x)
  {
    var e := if step.DlWrite? then s.group.dls[step.i] else s.strays[step.i];
    assert DlOk(|cfg.remote|, e);
    WrittenIs(cfg, s.item, e, step.len, step.n);
    var (item, e') := Written(cfg, s.item, e, step.len, step.n);
    GrowGoesOn(s.item.rs, item.rs, s.group.dls, d);
    if step.DlWrite? {
      UpdateGoesOn(item.rs, s.group.dls, step.i, e', d);
    }
  }

  lemma {:induction false} RunGoesOn(cfg: Config, s: System, steps: seq<Step>, d: Dl)
    requires Tracked(cfg, s) && Legal(cfg, s, steps)
    requires Undisturbed(cfg, s, steps, d) && GoesOn(s.item.rs, s.group.dls, d)
    ensures var s' := Exec(cfg, s, steps);
            && Tracked(cfg, s') && GoesOn(s'.item.rs, s'.group.dls, d)
            && forall x :: Covers(s.item.rs, x) ==> Covers(s'.item.rs, x)
    decreases |steps|
  {
    if steps != [] {
      var s1 := Apply(cfg, s, steps[0]);
      assert s1.item.attached;
      StepGoesOn(cfg, s, steps[0], d);
      StepKeepsTracked(cfg, s, steps[0]);
      RunGoesOn(cfg, s1, steps[1..], d);
    }
  }

  /**
   From any state of any run in which somebody is served, over every continuation in which
   the downloads stay attached, his does not end and nothing present is destroyed: his
   download goes on, and once it has reached its maximum his range is present.
   */
  lemma ServedGetsItsRange(cfg: Config, s: System, r: Range, d: Dl, steps: seq<Step>)
    requires Tracked(cfg, s)
    requires d in s.group.dls && Serves(d, Missing(s.item.rs, |cfg.remote|, AheadOf(r, cfg.readAhead)))
    requires Legal(cfg, s, steps) && Undisturbed(cfg, s, steps, d)
    ensures var s' := Exec(cfg, s, steps);
            exists d' :: d' in s'.group.dls && Follows(d, d')
                      && (d'.offset >= d'.maxOffset ==> Present(s'.item.rs, r.Clip(|cfg.remote|)))
  {
    assert Passed(s.item.rs, d, d);
    RunGoesOn(cfg, s, steps, d);
    var s' := Exec(cfg, s, steps);
    var d' :| d' in s'.group.dls && Passed(s'.item.rs, d, d');
    if d'.offset >= d'.maxOffset {
      ServedRangePresent(s.item.rs, s'.item.rs, |cfg.remote|, AheadOf(r, cfg.readAhead), d, d');
      PresentPart(s'.item.rs, AheadOf(r, cfg.readAhead).Clip(|cfg.remote|), r.Clip(|cfg.remote|));
    }
  }

  lemma PresentPart(rs: seq<Range>, whole: Range, part: Range)
    requires Canonical(rs) && Present(rs, whole) && forall x :: part.Has(x) ==> whole.Has(x)
    ensures Present(rs, part)
  {
    PresentExact(rs, whole);
    PresentExact(rs, part);
  }

  // ---------- No download is forgotten ----------

  /** `d'` is the download `d`, later. */
  predicate Later(d: Dl, d': Dl) { d'.start == d.start && d.offset <= d'.offset && d.maxOffset <= d'.maxOffset }

  ghost predicate StillIn(dls: seq<Dl>, d: Dl) { exists d' :: d' in dls && Later(d, d') }

  lemma UpdateStillIn(dls: seq<Dl>, i: nat, e: Dl, d: Dl)
    requires d in dls && i < |dls| && Later(dls[i], e)
    ensures StillIn(dls[i := e], d)
  {
    var j :| 0 <= j < |dls| && dls[j] == d;
    assert dls[i := e][j] == if j == i then e else d;
    assert Later(d, d);
  }

  ghost predicate OpenStill(dls: seq<Dl>, d: Dl) { exists d' :: d' in dls && !d'.closed && Later(d, d') }

  lemma EnsureStill(g: Group, rs: seq<Range>, size: int, total: nat, readAhead: nat, r: Range, d: Dl)
    requires OpenStill(g.dls, d)
    ensures OpenStill(Ensure(g, rs, size, total, readAhead, r).1.dls, d)
  {
    var (w, startNew) := Wanted(rs, size, r, readAhead);
    ObtainStill(g, w, startNew, total, d);
  }

  lemma ObtainStill(g: Group, w: Range, startNew: bool, total: nat, d: Dl)
    requires OpenStill(g.dls, d)
    ensures OpenStill(Obtain(g, w, startNew, total).1.dls, d)
  {
    var d1 :| d1 in g.dls && !d1.closed && Later(d, d1);
    OpenOnesStay(g.dls, d1);
    var dls := RemoveClosed(g.dls);
    var k := FirstNear(dls, w.pos, 0);
    var j :| 0 <= j < |dls| && dls[j] == d1;
    var dls' := Obtain(g, w, startNew, total).1.dls;
    assert dls'[j] == if j == k then Extended(d1, w) else d1;
    assert dls'[j] in dls' && Later(d, dls'[j]) && !dls'[j].closed;
  }

  lemma {:induction false} EnsureEachStill(g: Group, rs: seq<Range>, size: int, total: nat, readAhead: nat,
                                           waiters: seq<Waiter>, d: Dl)
    requires OpenStill(g.dls, d)
    ensures OpenStill(EnsureEach(g, rs, size, total, readAhead, waiters).dls, d)
    decreases |waiters|
  {
    if waiters != [] {
      var n := |waiters| - 1;
      EnsureEachStill(g, rs, size, total, readAhead, waiters[..n], d);
      EnsureStill(EnsureEach(g, rs, size, total, readAhead, waiters[..n]), rs, size, total, readAhead, waiters[n].r, d);
    }
  }

  /** Attached or detached, a download that has not ended is there after every step, and has only moved on. */
  lemma NoDownloadLost(cfg: Config, s: System, step: Step, d: Dl)
    requires Core(s) && Enabled(cfg, s, step) && !d.closed && (d in s.group.dls || d in s.strays)
    ensures var s' := Apply(cfg, s, step); StillIn(s'.group.dls + s'.strays, d)
  {
    assert Later(d, d);
    if d in s.strays {
      StrayStays(cfg, s, step, d);
    } else if step.ReadEnsure? {
      EnsureStill(s.group, s.item.rs, s.item.size, |cfg.remote|, cfg.readAhead, s.handles[step.h].r, d);
    } else if step.KickAll? {
      var g1 := s.group.(waiters := Remaining(s.group.waiters, s.item.rs, |cfg.remote|));
      EnsureEachStill(g1, s.item.rs, s.item.size, |cfg.remote|, cfg.readAhead, g1.waiters, d);
    } else {
      AttachedStays(cfg, s, step, d);
    }
  }

  lemma StrayStays(cfg: Config, s: System, step: Step, d: Dl)
    requires Enabled(cfg, s, step) && d in s.strays
    ensures StillIn(Apply(cfg, s, step).strays, d)
  {
    assert Later(d, d);
    if step.StrayWrite? {
      UpdateStillIn(s.strays, step.i, Written(cfg, s.item, s.strays[step.i], step.len, step.n).1, d);
    } else if step.StrayStop? {
      UpdateStillIn(s.strays, step.i, s.strays[step.i].(stop := true), d);
    } else if step.OpenRun? || step.CloseRun? || step.GraceFires? || step.ResetStart? {
      var settled := SettlesTo(cfg, s, step);
      assert d in settled.strays;
    } else {
      StraysStay(cfg, s, step);
    }
  }

  /** The steps that may detach the downloads. */
  lemma SettlesTo(cfg: Config, s: System, step: Step) returns (settled: System)
    requires Enabled(cfg, s, step) && (step.OpenRun? || step.CloseRun? || step.GraceFires? || step.ResetStart?)
    ensures exists item :: settled == Settle(s, item)
    ensures Apply(cfg, s, step).group == settled.group && Apply(cfg, s, step).strays == settled.strays
  {
    if step.OpenRun? {
      var (how, item) := OpenBody(s.item, |cfg.remote|, step.mkdir, step.check, step.create);
      settled := Settle(s, item.(attached := item.attached && !how.Created?));
    } else if step.CloseRun? {
      settled := Settle(s, CloseBody(s.item, |cfg.remote|, cfg.handleCaching).1);
    } else if step.GraceFires? {
      settled := Settle(s, GraceBody(s.item, |cfg.remote|).1);
    } else {
      settled := Settle(s, if ResetBegin(s.item).0.Resetting? then ResetBegin(s.item).2 else s.item);
    }
  }

  lemma StraysStay(cfg: Config, s: System, step: Step)
    requires Enabled(cfg, s, step) && !step.StrayWrite? && !step.StrayStop?
    requires !step.OpenRun? && !step.CloseRun? && !step.GraceFires? && !step.ResetStart?
    ensures Apply(cfg, s, step).strays == s.strays
  {
    if Moves(step) {
      MoveKeepsDownloads(cfg, s, step);
    }
  }

  lemma MoveKeepsDownloads(cfg: Config, s: System, step: Step)
    requires Enabled(cfg, s, step) && Moves(step)
    ensures var s' := Apply(cfg, s, step); s'.group == s.group && s'.strays == s.strays
  {
    match step
    case OpenEnter(h) =>
    case OpenGivesUp(h) =>
    case ReadEnter(h, off, len) =>
    case CloseEnter(h) =>
    case CloseDone(h) =>
    case Leave(h) =>
  }

  lemma AttachedStays(cfg: Config, s: System, step: Step, d: Dl)
    requires Enabled(cfg, s, step) && d in s.group.dls && !step.ReadEnsure? && !step.KickAll?
    ensures var s' := Apply(cfg, s, step); StillIn(s'.group.dls + s'.strays, d)
  {
    assert Later(d, d);
    if step.OpenRun? || step.CloseRun? || step.GraceFires? || step.ResetStart? {
      var settled := SettlesTo(cfg, s, step);
      assert d in settled.group.dls + settled.strays;
    } else if step.DlWrite? || step.DlStop? || step.DlEnd? {
      DownloadStays(cfg, s, step, d);
    } else {
      QuietStays(cfg, s, step);
    }
  }

  lemma DownloadStays(cfg: Config, s: System, step: Step, d: Dl)
    requires Enabled(cfg, s, step) && d in s.group.dls && (step.DlWrite? || step.DlStop? || step.DlEnd?)
    ensures var s' := Apply(cfg, s, step); StillIn(s'.group.dls + s'.strays, d)
  {
    var e := if step.DlWrite? then Written(cfg, s.item, s.group.dls[step.i], step.len, step.n).1
             else if step.DlStop? then s.group.dls[step.i].(stop := true)
             else s.group.dls[step.i].(closed := true, done := true);
    UpdateStillIn(s.group.dls, step.i, e, d);
    var d' :| d' in s.group.dls[step.i := e] && Later(d, d');
    assert d' in Apply(cfg, s, step).group.dls;
  }

  lemma QuietStays(cfg: Config, s: System, step: Step)
    requires Enabled(cfg, s, step) && !step.ReadEnsure? && !step.KickAll? && !step.DlWrite? && !step.DlStop?
    requires !step.DlEnd? && !step.OpenRun? && !step.CloseRun? && !step.GraceFires? && !step.ResetStart?
    ensures Apply(cfg, s, step).group == s.group
  {
    if Moves(step) {
      MoveKeepsDownloads(cfg, s, step);
    }
  }

  /** A download at its maximum sleeps: without being told to go on, or to stop, it writes nothing. */
  lemma AsleepAtMaximum(cfg: Config, s: System, i: nat, len: nat, n: nat)
    requires i < |s.group.dls| && s.group.dls[i].maxOffset <= s.group.dls[i].offset && !s.group.dls[i].stop
    ensures !Enabled(cfg, s, DlWrite(i, len, n))
  {
  }
}
