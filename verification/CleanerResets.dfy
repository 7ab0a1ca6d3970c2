/**
 What resetting items does to a whole cache: the pass over the clean items when the quota
 still does not hold, and the retry of the resets that failed.
 */
module CleanerResets {
  import opened CacheItem
  import opened Ranges
  import opened Stocks
  import opened Wrappers

  /** The size of an item's remote, and how the system calls of a reset fare. */
  datatype Faults = Faults(total: nat, close: Option<Error>, check: CheckFault, create: Option<Error>)

  datatype Outcome = Outcome(removed: bool, err: Option<Error>, freed: nat, after: ItemState)

  /** A whole Reset. */
  ghost function Reset(s: ItemState, f: Faults): Outcome {
    var (rr, freed, s1) := ResetBegin(s);
    if rr.Resetting? then
      var (_, err, freed', s2) := ResetEnd(s1, f.total, f.close, f.check, f.create);
      Outcome(false, err, freed', s2)
    else Outcome(rr.RemovedNotInUse?, None, freed, s1)
  }

  /** A reset frees exactly what the item loses. */
  lemma ResetFrees(s: ItemState, f: Faults)
    requires Canonical(s.rs)
    ensures var o := Reset(s, f);
            Canonical(o.after.rs) && o.freed + (if o.removed then 0 else DiskSize(o.after)) == DiskSize(s)
  {
    EmptyDiskSize([]);
  }

  /** The items after the one named was reset in purgeClean. */
  ghost function After(stock: Stock, name: string, o: Outcome): Stock {
    if o.removed then stock - {name} else stock[name := o.after]
  }

  ghost function Noted(errItems: set<string>, name: string, o: Outcome): set<string> {
    if o.err.Some? then errItems + {name} else errItems
  }

  lemma TotalReset(stock: Stock, name: string, f: Faults)
    requires name in stock && Canonical(stock[name].rs)
    ensures var o := Reset(stock[name], f);
            Total(After(stock, name, o)) == Total(stock) - o.freed
  {
    var o := Reset(stock[name], f);
    ResetFrees(stock[name], f);
    TotalWithout(stock, name);
    if !o.removed {
      TotalWithout(stock[name := o.after], name);
      assert stock[name := o.after] - {name} == stock - {name};
    }
  }

  /** The item holds up the threads that want it, and a retry of its reset goes through with it. */
  predicate Blocked(s: ItemState) { s.beingReset && s.pending <= 0 && s.opens != 0 && !s.dirty && !s.grace }

  /** Every item that is being reset is down for a retry that will not skip it. */
  ghost predicate Remembered(stock: Stock, errItems: set<string>) {
    forall name :: name in stock && stock[name].beingReset ==> name in errItems && Blocked(stock[name])
  }

  /** A reset leaves an item blocked only for lack of space, and it clears the flag of a blocked one otherwise. */
  lemma ResetBlocks(s: ItemState, f: Faults)
    requires s.beingReset ==> Blocked(s)
    ensures var o := Reset(s, f);
            && (o.after.beingReset && !o.removed ==> o.err == Some(NoSpace) && Blocked(o.after))
            && (s.beingReset ==> !o.removed)
  {
  }

  /** Nothing more can be had from the item. */
  ghost predicate Spent(s: ItemState) { s.dirty || s.grace || s.pending > 0 || DiskSize(s) == 0 }

  lemma ResetSpends(s: ItemState, f: Faults)
    ensures var o := Reset(s, f); o.removed || o.err.Some? || Spent(o.after)
  {
    EmptyDiskSize([]);
  }

  // ---------- The pass over the clean items ----------

  /** What a reset would make of each item. */
  ghost function Plan(stock: Stock, faults: string -> Faults): map<string, Outcome> {
    map name | name in stock :: Reset(stock[name], faults(name))
  }

  /** Just the items in `tried` went through their reset, and the failed ones are remembered. */
  ghost predicate Tried(was: Stock, now: Stock, plan: map<string, Outcome>, errWas: set<string>,
                        errItems: set<string>, tried: set<string>)
    requires plan.Keys == was.Keys
  {
    && tried <= was.Keys && now.Keys <= was.Keys
    && (forall name :: name in was && name !in tried ==> name in now && now[name] == was[name])
    && (forall name :: name in tried && plan[name].removed ==> name !in now)
    && (forall name :: name in tried && !plan[name].removed ==> name in now && now[name] == plan[name].after)
    && (forall name :: name in errItems <==> name in errWas || (name in tried && plan[name].err.Some?))
  }

  /** Trying one more item. */
  lemma TryOne(was: Stock, now: Stock, plan: map<string, Outcome>, errWas: set<string>, errItems: set<string>,
               tried: set<string>, name: string)
    requires plan.Keys == was.Keys && Tried(was, now, plan, errWas, errItems, tried) && name in was && name !in tried
    ensures Tried(was, After(now, name, plan[name]), plan, errWas, Noted(errItems, name, plan[name]), tried + {name})
  {
  }

  /** `g` was tried last: the most recently used of the tried, and before it the quota did not hold. */
  ghost predicate LastTried(now: Stock, plan: map<string, Outcome>, ages: map<string, int>, maxSize: int,
                            tried: set<string>, g: string)
    requires tried <= plan.Keys && tried <= ages.Keys
  {
    && g in tried && !QuotaOk(maxSize, Total(now) + plan[g].freed)
    && forall name :: name in tried ==> ages[name] <= ages[g]
  }

  /**
   What the pass must do.  It tries clean items only, the least recently used first, each
   while the quota does not hold, and either it holds in the end or every clean item was tried.
   */
  ghost predicate Cleaned(was: Stock, now: Stock, plan: map<string, Outcome>, ages: map<string, int>, maxSize: int,
                          errWas: set<string>, errItems: set<string>, tried: set<string>)
    requires plan.Keys == was.Keys == ages.Keys
  {
    && Tried(was, now, plan, errWas, errItems, tried)
    && (forall name :: name in tried ==> !was[name].dirty)
    && (forall m, n :: m in tried && n in was && n !in tried && !was[n].dirty ==> ages[m] <= ages[n])
    && if QuotaOk(maxSize, Total(now)) then exists g :: LastTried(now, plan, ages, maxSize, tried, g)
       else forall name :: name in was && !was[name].dirty ==> name in tried
  }

  /** The pass forgets no blocked item. */
  lemma CleanRemembers(was: Stock, now: Stock,
                       faults: string -> Faults, errWas: set<string>, errItems: set<string>, tried: set<string>)
    requires Remembered(was, errWas) && Tried(was, now, Plan(was, faults), errWas, errItems, tried)
    ensures Remembered(now, errItems)
  {
    forall name | name in now && now[name].beingReset ensures name in errItems && Blocked(now[name]) {
      ResetBlocks(was[name], faults(name));
    }
  }

  /**
   When the quota does not hold after the pass, nothing more can be had: whatever is left is spent, or
   its reset failed.
   */
  lemma CleanExhausts(was: Stock, now: Stock, faults: string -> Faults, ages: map<string, int>, maxSize: int,
                      errWas: set<string>, errItems: set<string>, tried: set<string>)
    requires was.Keys == ages.Keys && Cleaned(was, now, Plan(was, faults), ages, maxSize, errWas, errItems, tried)
    requires !QuotaOk(maxSize, Total(now))
    ensures forall name :: name in now ==> Spent(now[name]) || name in errItems
  {
    forall name | name in now ensures Spent(now[name]) || name in errItems {
      ResetSpends(was[name], faults(name));
    }
  }

  /** Only items that nobody uses disappear. */
  lemma CleanSparesUsed(was: Stock, now: Stock,
                        faults: string -> Faults, errWas: set<string>, errItems: set<string>, tried: set<string>)
    requires Tried(was, now, Plan(was, faults), errWas, errItems, tried)
    ensures forall name :: name in was && name !in now ==> was[name].opens == 0 && !was[name].dirty && !was[name].grace
  {
  }

  // ---------- The retry ----------

  /**
   The items in `retried` were reset again; of the names, those that lack space still stay, and those
   not retried yet.
   */
  ghost predicate Retried(was: Stock, now: Stock, plan: map<string, Outcome>, errWas: set<string>,
                          errItems: set<string>, retried: set<string>)
    requires plan.Keys == was.Keys
  {
    && now.Keys == was.Keys && retried <= errWas
    && (forall name :: name in was && name !in retried ==> now[name] == was[name])
    && (forall name :: name in was && name in retried ==> now[name] == plan[name].after)
    && (forall name :: name in errItems <==>
          name in errWas && (name in retried ==> name in was && plan[name].err == Some(NoSpace)))
  }

  lemma RetryOne(was: Stock, now: Stock, plan: map<string, Outcome>, errWas: set<string>, errItems: set<string>,
                 retried: set<string>, name: string)
    requires plan.Keys == was.Keys && Retried(was, now, plan, errWas, errItems, retried)
    requires name in errWas && name !in retried
    ensures Retried(was, if name in was then now[name := plan[name].after] else now, plan, errWas,
                    if name in was && plan[name].err == Some(NoSpace) then errItems else errItems - {name},
                    retried + {name})
  {
  }

  /** After the retry no blocked item is forgotten, and the only names kept are those that still lack space. */
  lemma RetryRemembers(was: Stock, now: Stock, faults: string -> Faults, errWas: set<string>, errItems: set<string>)
    requires Remembered(was, errWas) && Retried(was, now, Plan(was, faults), errWas, errItems, errWas)
    ensures Remembered(now, errItems)
    ensures forall name :: name in errItems ==> name in was && Reset(was[name], faults(name)).err == Some(NoSpace)
    ensures forall name :: name in was && was[name].beingReset && name !in errItems ==> !now[name].beingReset
  {
    forall name | name in was ensures RetryOk(was[name], faults(name), now[name], name in errWas, name in errItems) {
      ResetBlocks(was[name], faults(name));
    }
  }

  /** What the retry does to one item and its note. */
  ghost predicate RetryOk(s: ItemState, f: Faults, s': ItemState, noted: bool, noted': bool) {
    && (s'.beingReset ==> noted' && Blocked(s'))
    && (noted' ==> noted && Reset(s, f).err == Some(NoSpace))
    && (s.beingReset && !noted' ==> !s'.beingReset)
  }

  /** What resets free together. */
  ghost function Freed(plan: map<string, Outcome>): nat {
    if plan == map[] then 0
    else
      var name :| name in plan;
      plan[name].freed + Freed(plan - {name})
  }

  lemma {:induction false} FreedWithout(plan: map<string, Outcome>, name: string)
    requires name in plan
    ensures Freed(plan) == plan[name].freed + Freed(plan - {name})
  {
    var first :| first in plan && Freed(plan) == plan[first].freed + Freed(plan - {first});
    if first != name {
      FreedWithout(plan - {first}, name);
      FreedWithout(plan - {name}, first);
      assert plan - {first} - {name} == plan - {name} - {first};
    }
  }

  lemma {:induction false} FreedNothing(plan: map<string, Outcome>)
    ensures Freed(plan) == 0 <==> forall name :: name in plan ==> plan[name].freed == 0
    decreases |plan|
  {
    if plan != map[] {
      var name :| name in plan && Freed(plan) == plan[name].freed + Freed(plan - {name});
      var rest := plan - {name};
      FreedNothing(rest);
      assert forall k :: k in plan <==> k == name || k in rest;
      assert forall k :: k in rest ==> rest[k] == plan[k];
    }
  }

  /** The resets of the named items. */
  ghost function Picked(plan: map<string, Outcome>, names: set<string>): map<string, Outcome> {
    map name | name in plan && name in names :: plan[name]
  }

  lemma FreedPicked(plan: map<string, Outcome>, names: set<string>, name: string)
    requires name in plan
    ensures Freed(Picked(plan, names)) ==
            Freed(Picked(plan - {name}, names)) + if name in names then plan[name].freed else 0
  {
    if name in names {
      FreedWithout(Picked(plan, names), name);
      assert Picked(plan - {name}, names) == Picked(plan, names) - {name};
    } else {
      assert Picked(plan - {name}, names) == Picked(plan, names);
    }
  }

  lemma {:induction false} TotalRetried(was: Stock, now: Stock, plan: map<string, Outcome>, names: set<string>)
    requires now.Keys == was.Keys == plan.Keys
    requires forall name :: name in was ==>
               DiskSize(was[name]) == DiskSize(now[name]) + if name in names then plan[name].freed else 0
    ensures Total(was) == Total(now) + Freed(Picked(plan, names))
    decreases |was|
  {
    if was.Keys == {} {
      assert was == map[] && now == map[] && Picked(plan, names) == map[];
    } else {
      var name :| name in was;
      TotalWithout(was, name);
      TotalWithout(now, name);
      TotalRetried(was - {name}, now - {name}, plan - {name}, names);
      FreedPicked(plan, names, name);
    }
  }

  /** The space used falls by just what the retried resets free. */
  lemma RetryFrees(was: Stock, now: Stock, faults: string -> Faults, errWas: set<string>, errItems: set<string>)
    requires forall name :: name in was ==> Canonical(was[name].rs)
    requires Retried(was, now, Plan(was, faults), errWas, errItems, errWas)
    ensures var picked := Picked(Plan(was, faults), errWas);
            && Total(was) == Total(now) + Freed(picked)
            && (Total(was) == Total(now) <==> forall name :: name in picked ==> picked[name].freed == 0)
  {
    var plan := Plan(was, faults);
    forall name | name in was
      ensures DiskSize(was[name]) == DiskSize(now[name]) + if name in errWas then plan[name].freed else 0
    {
      ResetFrees(was[name], faults(name));
      RemovedFrees(was[name], faults(name));
    }
    TotalRetried(was, now, plan, errWas);
    FreedNothing(Picked(plan, errWas));
  }

  lemma RemovedFrees(s: ItemState, f: Faults)
    ensures var o := Reset(s, f); o.removed ==> DiskSize(o.after) == 0
  {
    EmptyDiskSize([]);
  }

  /** Items that go take their notes' need with them. */
  lemma LeftRemembers(was: Stock, now: Stock, errItems: set<string>)
    requires Remembered(was, errItems) && forall name :: name in now ==> name in was && now[name] == was[name]
    ensures Remembered(now, errItems)
  {
  }
}
