/**
 How threads that ran out of space and the cache cleaner synchronise: a kick flag under
 its own lock, a channel with room for one kick, and the out-of-space flag the threads
 wait on.

 A step is one stretch under a lock.  `used` is the cleaner's idea of the space used;
 during a pass the sizes of items may grow on their own but shrink only by the cleaner.
 */
module KickProtocol {

  /** A thread inside KickCleaner: holding the kicker lock before the send, or waiting for space. */
  datatype Kicker = Sending | AwaitingSpace

  datatype Pass =
    | Resting
    | Started(kicked: bool) | OldPurged(kicked: bool) | QuotaPurged(kicked: bool) | Purged(kicked: bool)

  datatype State = State(
    maxSize: int,               // no quota when zero or less
    cleanerKicked: bool,
    outOfSpace: bool,
    kicks: nat,                 // kicks in the channel
    kickers: map<nat, Kicker>,
    pass: Pass,
    used: int
  )

  datatype Step =
    | KickEnter(t: nat)
    | KickSend(t: nat)
    | KickReturn(t: nat)
    | PassStart(kicked: bool, used: int)
    | PurgeOld(freed: nat)
    | PurgeOverQuota(grown: nat, freed: nat)
    | PurgeClean(freed: nat)
    | PassEnd

  predicate QuotaOk(s: State, used: int) { s.maxSize <= 0 || used <= s.maxSize }

  ghost predicate KickerLockFree(s: State) { forall t :: t in s.kickers ==> !s.kickers[t].Sending? }

  predicate KickedPass(s: State) { !s.pass.Resting? && s.pass.kicked }

  /** Without counting room in the channel, when can a step be taken? */
  ghost predicate Enabled(s: State, step: Step) {
    match step
    case KickEnter(t) => t !in s.kickers && KickerLockFree(s)
    case KickSend(t) => t in s.kickers && s.kickers[t].Sending?
    case KickReturn(t) => t in s.kickers && s.kickers[t].AwaitingSpace? && !s.outOfSpace
    case PassStart(kicked, _) => s.pass.Resting? && (kicked ==> s.kicks > 0)
    case PurgeOld(_) => s.pass.Started?
    case PurgeOverQuota(_, _) => s.pass.OldPurged?
    case PurgeClean(_) => s.pass.QuotaPurged?
    case PassEnd => s.pass.Purged? && (s.pass.kicked ==> KickerLockFree(s))
  }

  function Apply(s: State, step: Step): State {
    match step
    case KickEnter(t) =>
      if !s.cleanerKicked then s.(cleanerKicked := true, kickers := s.kickers[t := Sending])
      else s.(kickers := s.kickers[t := AwaitingSpace])
    case KickSend(t) => s.(outOfSpace := true, kicks := s.kicks + 1, kickers := s.kickers[t := AwaitingSpace])
    case KickReturn(t) => s.(kickers := s.kickers - {t})
    case PassStart(kicked, used) =>
      s.(kicks := if kicked && s.kicks > 0 then s.kicks - 1 else s.kicks, pass := Started(kicked), used := used)
    case PurgeOld(freed) =>
      var kicked := s.pass.Started? && s.pass.kicked;
      var used := s.used - freed;
      s.(used := used, outOfSpace := s.outOfSpace && !QuotaOk(s, used),
         pass := if s.maxSize > 0 then OldPurged(kicked) else Purged(kicked))
    case PurgeOverQuota(grown, freed) =>
      var kicked := s.pass.OldPurged? && s.pass.kicked;
      var used := s.used + grown;
      if QuotaOk(s, used) then s.(used := used, pass := QuotaPurged(kicked))
      else s.(used := used - freed, outOfSpace := s.outOfSpace && !QuotaOk(s, used - freed),
              pass := QuotaPurged(kicked))
    case PurgeClean(freed) =>
      var kicked := s.pass.QuotaPurged? && s.pass.kicked;
      if QuotaOk(s, s.used) then s.(pass := Purged(kicked))
      else s.(used := s.used - freed, outOfSpace := false, pass := Purged(kicked))
    case PassEnd => s.(cleanerKicked := s.cleanerKicked && !KickedPass(s), pass := Resting)
  }

  ghost function Senders(s: State): set<nat> {
    set t | t in s.kickers && s.kickers[t].Sending?
  }

  function One(b: bool): nat { if b then 1 else 0 }

  /**
   The kick flag stands for exactly one of: a thread about to send, a kick in the channel,
   or a kicked pass.  Threads wait only while a kick or a kicked pass will let them go.
   */
  ghost predicate Inv(s: State) {
    && |Senders(s)| + s.kicks + One(KickedPass(s)) == One(s.cleanerKicked)
    && (s.outOfSpace ==> s.kicks == 1 || (KickedPass(s) && !s.pass.Purged?))
    && (s.outOfSpace && KickedPass(s) && (s.pass.OldPurged? || s.pass.QuotaPurged?) ==> !QuotaOk(s, s.used))
    && (s.pass.OldPurged? || s.pass.QuotaPurged? ==> s.maxSize > 0)
  }

  lemma SendersStep(s: State, t: nat)
    ensures var was := t in s.kickers && s.kickers[t].Sending?;
            && |Senders(s.(kickers := s.kickers[t := Sending]))| == |Senders(s)| + One(!was)
            && |Senders(s.(kickers := s.kickers[t := AwaitingSpace]))| == |Senders(s)| - One(was)
            && |Senders(s.(kickers := s.kickers - {t}))| == |Senders(s)| - One(was)
  {
    var a := Senders(s);
    assert Senders(s.(kickers := s.kickers[t := Sending])) == a + {t};
    assert Senders(s.(kickers := s.kickers[t := AwaitingSpace])) == a - {t};
    assert Senders(s.(kickers := s.kickers - {t})) == a - {t};
    PlusMinus(a, t);
  }

  lemma PlusMinus(a: set<nat>, t: nat)
    ensures |a + {t}| == |a| + One(t !in a) && |a - {t}| == |a| - One(t in a)
  {
    if t in a {
      assert a == (a - {t}) + {t};
      assert a + {t} == a;
    } else {
      assert a - {t} == a;
    }
  }

  lemma SameSenders(s: State, s': State)
    requires s'.kickers == s.kickers
    ensures Senders(s') == Senders(s)
  {
  }

  /** Every step keeps the invariant, and a send finds room in the channel. */
  lemma StepKeepsInv(s: State, step: Step)
    requires Inv(s) && Enabled(s, step)
    ensures Inv(Apply(s, step))
    ensures step.KickSend? ==> s.kicks == 0
  {
    var s' := Apply(s, step);
    match step
    case KickEnter(t) =>
      SendersStep(s, t);
      SameSenders(s'.(kickers := s'.kickers), s');
      assert Senders(s') == Senders(s.(kickers := s'.kickers));
    case KickSend(t) =>
      SendersStep(s, t);
      assert t in Senders(s);
      assert Senders(s') == Senders(s.(kickers := s'.kickers));
    case KickReturn(t) =>
      SendersStep(s, t);
      assert Senders(s') == Senders(s.(kickers := s'.kickers));
    case _ =>
      SameSenders(s, s');
  }

  ghost predicate Legal(s: State, steps: seq<Step>)
    decreases |steps|
  {
    steps == [] || (Enabled(s, steps[0]) && Legal(Apply(s, steps[0]), steps[1..]))
  }

  function Exec(s: State, steps: seq<Step>): State
    decreases |steps|
  {
    if steps == [] then s else Exec(Apply(s, steps[0]), steps[1..])
  }

  function Initial(maxSize: int): State { State(maxSize, false, false, 0, map[], Resting, 0) }

  lemma {:induction false} RunKeepsInv(s: State, steps: seq<Step>)
    requires Inv(s) && Legal(s, steps)
    ensures Inv(Exec(s, steps))
    decreases |steps|
  {
    if steps != [] {
      StepKeepsInv(s, steps[0]);
      RunKeepsInv(Apply(s, steps[0]), steps[1..]);
    }
  }

  /** Over every run, the send under both locks never blocks. */
  lemma SendNeverBlocks(maxSize: int, steps: seq<Step>, t: nat)
    requires Legal(Initial(maxSize), steps)
    ensures Enabled(Exec(Initial(maxSize), steps), KickSend(t)) ==> Exec(Initial(maxSize), steps).kicks == 0
  {
    InitialOk(maxSize);
    RunKeepsInv(Initial(maxSize), steps);
    var s := Exec(Initial(maxSize), steps);
    if Enabled(s, KickSend(t)) {
      StepKeepsInv(s, KickSend(t));
    }
  }

  lemma InitialOk(maxSize: int)
    ensures Inv(Initial(maxSize))
  {
    assert Senders(Initial(maxSize)) == {};
  }

  /**
   Over every run, a thread waits for space only while a kick is pending or a kicked pass has yet to
   clear the flag.
   */
  lemma WaitersWillBeFreed(maxSize: int, steps: seq<Step>)
    requires Legal(Initial(maxSize), steps)
    ensures var s := Exec(Initial(maxSize), steps);
            s.outOfSpace ==> s.cleanerKicked && (s.kicks == 1 || (KickedPass(s) && !s.pass.Purged?))
  {
    InitialOk(maxSize);
    RunKeepsInv(Initial(maxSize), steps);
  }

  /**
   Over every run, a kicked pass ends with the out-of-space flag down; any pass leaves it up only for a
   pending kick.
   */
  lemma PassEndsFreed(maxSize: int, steps: seq<Step>)
    requires Legal(Initial(maxSize), steps)
    ensures var s := Exec(Initial(maxSize), steps);
            && (Enabled(s, PassEnd) && s.pass.kicked ==> !Apply(s, PassEnd).outOfSpace)
            && (Enabled(s, PassEnd) ==> (Apply(s, PassEnd).outOfSpace ==> s.kicks == 1))
  {
    InitialOk(maxSize);
    RunKeepsInv(Initial(maxSize), steps);
  }

  /** The step lets the threads go that wait for space. */
  predicate Clears(s: State, step: Step) {
    match step
    case PurgeOld(freed) => QuotaOk(s, s.used - freed)
    case PurgeOverQuota(grown, freed) => !QuotaOk(s, s.used + grown) && QuotaOk(s, s.used + grown - freed)
    case PurgeClean(_) => !QuotaOk(s, s.used)
    case _ => false
  }

  /** Was a kick sent in these steps that none of the later ones clears?  `sent` speaks for the steps before them. */
  predicate SentUncleared(s: State, steps: seq<Step>, sent: bool)
    decreases |steps|
  {
    if steps == [] then sent
    else SentUncleared(Apply(s, steps[0]), steps[1..], steps[0].KickSend? || (sent && !Clears(s, steps[0])))
  }

  /** A pass that has purged nothing yet, or that is over quota still, has not cleared the flag for certain. */
  predicate ToBeCleared(s: State) {
    s.pass.Started? || ((s.pass.OldPurged? || s.pass.QuotaPurged?) && !QuotaOk(s, s.used))
  }

  lemma {:induction false} FlagFollowsSends(s: State, steps: seq<Step>, sent: bool)
    requires Inv(s) && Legal(s, steps) && !s.pass.Resting?
    requires forall i :: 0 <= i < |steps| ==> !steps[i].PassEnd?
    requires sent ==> s.outOfSpace
    requires s.outOfSpace && !sent ==> ToBeCleared(s)
    ensures var s' := Exec(s, steps);
            && !s'.pass.Resting?
            && (SentUncleared(s, steps, sent) ==> s'.outOfSpace)
            && (s'.outOfSpace && !SentUncleared(s, steps, sent) ==> ToBeCleared(s'))
    decreases |steps|
  {
    if steps != [] {
      StepKeepsInv(s, steps[0]);
      assert forall i :: 0 <= i < |steps[1..]| ==> steps[1..][i] == steps[i + 1];
      FlagFollowsSends(Apply(s, steps[0]), steps[1..], steps[0].KickSend? || (sent && !Clears(s, steps[0])));
    }
  }

  /**
   When a pass ends, kicked or not, the flag is up exactly when a kick was sent during the
   pass after its last clearing point.  Nothing from before the pass keeps it up.
   */
  lemma PassLeavesFlag(s: State, steps: seq<Step>)
    requires Inv(s) && s.pass.Started? && Legal(s, steps)
    requires forall i :: 0 <= i < |steps| ==> !steps[i].PassEnd?
    requires Exec(s, steps).pass.Purged?
    ensures Apply(Exec(s, steps), PassEnd).outOfSpace <==> SentUncleared(s, steps, false)
  {
    FlagFollowsSends(s, steps, false);
  }

  /** A run built backwards, from its last step. */
  lemma Cons(s: State, step: Step, rest: seq<Step>) returns (steps: seq<Step>)
    requires Enabled(s, step) && Legal(Apply(s, step), rest)
    ensures steps == [step] + rest
    ensures Legal(s, steps) && Exec(s, steps) == Exec(Apply(s, step), rest)
  {
    steps := [step] + rest;
    assert steps[1..] == rest;
  }

  /** The step leads from `s` to `s'`. */
  ghost predicate Leads(s: State, step: Step, s': State) { Enabled(s, step) && s' == Apply(s, step) }

  /** A pass that was not kicked can end with the flag up: a kick came after its purges. */
  lemma TimedPassMayEndOutOfSpace(s: State, t: nat) returns (steps: seq<Step>)
    requires s.pass.Resting? && s.maxSize <= 0 && !s.cleanerKicked && s.kickers == map[]
    ensures Legal(s, steps) && |steps| == 5 && steps[4] == PassEnd
    ensures Exec(s, steps).outOfSpace
  {
    var s1 := s.(pass := Started(false), used := 0);
    var s2 := s1.(pass := Purged(false), outOfSpace := false);
    var s3 := s2.(cleanerKicked := true, kickers := s2.kickers[t := Sending]);
    var s4 := s3.(outOfSpace := true, kicks := s3.kicks + 1, kickers := s3.kickers[t := AwaitingSpace]);
    assert Leads(s, PassStart(false, 0), s1);
    assert Leads(s1, PurgeOld(0), s2);
    assert Leads(s2, KickEnter(t), s3);
    assert Leads(s3, KickSend(t), s4);
    steps := Cons(s4, PassEnd, []);
    steps := Cons(s3, KickSend(t), steps);
    steps := Cons(s2, KickEnter(t), steps);
    steps := Cons(s1, PurgeOld(0), steps);
    steps := Cons(s, PassStart(false, 0), steps);
  }

  /** The threads that wait are let go, one after the other, and none is left. */
  lemma KickReturns(s: State, t: nat)
    requires t in s.kickers && s.kickers[t].AwaitingSpace? && !s.outOfSpace
    ensures Enabled(s, KickReturn(t)) && t !in Apply(s, KickReturn(t)).kickers
    ensures forall u :: u in s.kickers && u != t ==> u in Apply(s, KickReturn(t)).kickers
  {
  }

  /**
   A thread that runs out of space kicks the cleaner, is let go by its pass, whatever that
   frees, and leaves everything as it was; without a quota the age purge is all there is.
   */
  lemma KickedAndFreed(s: State, t: nat, used: int, freed: nat, grown: nat, evicted: nat, reset: nat)
    returns (steps: seq<Step>)
    requires s.pass.Resting? && !s.cleanerKicked && !s.outOfSpace && s.kicks == 0 && s.kickers == map[]
    ensures Legal(s, steps)
    ensures var s' := Exec(s, steps);
            s'.pass.Resting? && !s'.cleanerKicked && !s'.outOfSpace && s'.kicks == 0 && s'.kickers == map[]
  {
    var s1 := s.(cleanerKicked := true, kickers := map[t := Sending]);
    var s2 := s1.(outOfSpace := true, kicks := 1, kickers := map[t := AwaitingSpace]);
    var s3 := s2.(kicks := 0, pass := Started(true), used := used);
    assert Leads(s, KickEnter(t), s1);
    assert Leads(s1, KickSend(t), s2);
    assert Leads(s2, PassStart(true, used), s3);
    steps := Purges(s3, t, freed, grown, evicted, reset);
    steps := Cons(s2, PassStart(true, used), steps);
    steps := Cons(s1, KickSend(t), steps);
    steps := Cons(s, KickEnter(t), steps);
  }

  lemma Purges(s: State, t: nat, freed: nat, grown: nat, evicted: nat, reset: nat) returns (steps: seq<Step>)
    requires s.pass == Started(true) && s.cleanerKicked && s.kicks == 0 && s.kickers == map[t := AwaitingSpace]
    ensures Legal(s, steps)
    ensures var s' := Exec(s, steps);
            s'.pass.Resting? && !s'.cleanerKicked && !s'.outOfSpace && s'.kicks == 0 && s'.kickers == map[]
  {
    var s1 := Apply(s, PurgeOld(freed));
    if s.maxSize <= 0 {
      steps := Finishes(s1, t);
    } else {
      var s2 := Apply(s1, PurgeOverQuota(grown, evicted));
      var s3 := Apply(s2, PurgeClean(reset));
      steps := Finishes(s3, t);
      steps := Cons(s2, PurgeClean(reset), steps);
      steps := Cons(s1, PurgeOverQuota(grown, evicted), steps);
    }
    steps := Cons(s, PurgeOld(freed), steps);
  }

  lemma Finishes(s: State, t: nat) returns (steps: seq<Step>)
    requires s.pass == Purged(true) && !s.outOfSpace && s.kicks == 0 && s.kickers == map[t := AwaitingSpace]
    ensures Legal(s, steps)
    ensures var s' := Exec(s, steps);
            s'.pass.Resting? && !s'.cleanerKicked && !s'.outOfSpace && s'.kicks == 0 && s'.kickers == map[]
  {
    var s1 := s.(cleanerKicked := false, pass := Resting);
    var s2 := s1.(kickers := s1.kickers - {t});
    assert s2.kickers == map[];
    assert Leads(s, PassEnd, s1);
    assert Leads(s1, KickReturn(t), s2);
    steps := Cons(s1, KickReturn(t), []);
    steps := Cons(s, PassEnd, steps);
  }
}
