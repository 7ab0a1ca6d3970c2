/**
 The cleaner's purges of items that are not in use: the age limit, and the quota, which
 removes the least recently used items first.

 A purge holds the cache mutex; the items are taken not to change by themselves while it runs.
 */
module Eviction {
  import opened CacheItem
  import opened CleanerResets
  import opened Ranges
  import opened Stocks
  import opened Wrappers

  /** `now` is what is left of `was`. */
  ghost predicate Left(was: Stock, now: Stock) {
    forall name :: name in now ==> name in was && now[name] == was[name]
  }

  lemma {:induction false} TotalLeft(was: Stock, now: Stock)
    requires Left(was, now)
    ensures Total(now) <= Total(was)
    decreases |was|
  {
    if now.Keys == was.Keys {
      assert now == was;
    } else {
      assert now.Keys <= was.Keys;
      var name :| name in was && name !in now;
      TotalWithout(was, name);
      TotalLeft(was - {name}, now);
    }
  }

  /** All items but those in `names` are counted. */
  ghost predicate Counting(stock: Stock, names: set<string>, counted: int) {
    names <= stock.Keys && counted == Total(stock - names)
  }

  lemma CountOne(stock: Stock, names: set<string>, counted: int, name: string)
    requires Counting(stock, names, counted) && name in names
    ensures Counting(stock, names - {name}, counted + DiskSize(stock[name]))
  {
    TotalWithout(stock - (names - {name}), name);
    assert stock - (names - {name}) - {name} == stock - names;
  }

  /** Nobody has the item open, nothing in it waits for an upload, and it is not in grace. */
  predicate Removable(s: ItemState) { s.opens == 0 && !s.dirty && !s.grace }

  /** Does removeNotInUse take the item? */
  ghost predicate Removes(s: ItemState, maxAge: nat, sinceAccess: int, emptyOnly: bool) {
    Removable(s) && (maxAge == 0 || maxAge <= sinceAccess) && (emptyOnly ==> DiskSize(s) == 0)
  }

  ghost predicate Gone(was: Stock, now: Stock, name: string) { name in was && name !in now }

  /** Was something of a size removed? */
  ghost predicate GoneFull(was: Stock, now: Stock, name: string) {
    Gone(was, now, name) && DiskSize(was[name]) > 0
  }

  ghost predicate Evictable(now: Stock, name: string) { name in now && Removable(now[name]) }

  /** `g` is the most recently used item removed that had a size, and without its removal the quota would not hold. */
  ghost predicate LastNeeded(was: Stock, now: Stock, ages: map<string, int>, maxSize: int, g: string)
    requires was.Keys <= ages.Keys && Left(was, now)
  {
    && GoneFull(was, now, g) && !QuotaOk(maxSize, Total(now) + DiskSize(was[g]))
    && (forall name :: GoneFull(was, now, name) ==> ages[name] <= ages[g])
    && (forall name :: Evictable(now, name) ==> ages[g] <= ages[name])
  }

  /**
   What a purge over quota must do.  Only removable items go, every empty one among them;
   either the quota holds at the end, with the least recently used items gone and none
   of them needlessly, or nothing removable is left.
   */
  ghost predicate EvictedLru(was: Stock, now: Stock, ages: map<string, int>, maxSize: int)
    requires was.Keys <= ages.Keys
  {
    && Left(was, now)
    && (forall name :: Gone(was, now, name) ==> Removable(was[name]))
    && (forall name :: Evictable(now, name) ==> DiskSize(now[name]) > 0)
    && if QuotaOk(maxSize, Total(now)) then exists g :: LastNeeded(was, now, ages, maxSize, g)
       else forall name :: !Evictable(now, name)
  }

  /** When no two items were accessed at the same time, that leaves no choice. */
  lemma EvictionDetermined(was: Stock, a: Stock, b: Stock, ages: map<string, int>, maxSize: int)
    requires was.Keys <= ages.Keys
    requires forall m, n :: m in was && n in was && ages[m] == ages[n] ==> m == n
    requires EvictedLru(was, a, ages, maxSize) && EvictedLru(was, b, ages, maxSize)
    ensures a == b
  {
    EvictsNoMore(was, a, b, ages, maxSize);
    EvictsNoMore(was, b, a, ages, maxSize);
    assert a.Keys == b.Keys;
  }

  /** What the one outcome keeps, the other keeps. */
  lemma EvictsNoMore(was: Stock, a: Stock, b: Stock, ages: map<string, int>, maxSize: int)
    requires was.Keys <= ages.Keys
    requires forall m, n :: m in was && n in was && ages[m] == ages[n] ==> m == n
    requires EvictedLru(was, a, ages, maxSize) && EvictedLru(was, b, ages, maxSize)
    ensures b.Keys <= a.Keys
  {
    if name :| name in b && name !in a {
      assert Gone(was, a, name) && Evictable(b, name) && GoneFull(was, a, name);
      // b keeps something removable, so it is within quota
      assert QuotaOk(maxSize, Total(b));
      if QuotaOk(maxSize, Total(a)) {
        var g :| LastNeeded(was, a, ages, maxSize, g);
        KeptTogether(was, a, b, ages, g, name);
      } else {
        forall k | k in a ensures k in b && b[k] == a[k] {
          assert !Evictable(a, k);
        }
        TotalLeft(b, a);
      }
    }
  }

  /** No item that was removed and had a size is younger than one that could have gone instead. */
  ghost predicate OldestGone(was: Stock, now: Stock, ages: map<string, int>)
    requires was.Keys <= ages.Keys && Left(was, now)
  {
    forall m, n :: GoneFull(was, now, m) && Evictable(now, n) ==> ages[m] <= ages[n]
  }

  /** When `b` keeps something `a` removed, it keeps all that `a` keeps, and the last item `a` removed. */
  lemma KeptTogether(was: Stock, a: Stock, b: Stock, ages: map<string, int>, g: string, name: string)
    requires was.Keys <= ages.Keys
    requires forall m, n :: m in was && n in was && ages[m] == ages[n] ==> m == n
    requires Left(was, a) && Left(was, b) && OldestGone(was, b, ages)
    requires forall k :: Gone(was, b, k) ==> Removable(was[k])
    requires GoneFull(was, a, g) && GoneFull(was, a, name) && ages[name] <= ages[g] && Evictable(b, name)
    requires forall k :: Evictable(a, k) ==> DiskSize(a[k]) > 0 && ages[g] <= ages[k]
    ensures Total(a) + DiskSize(was[g]) <= Total(b)
  {
    if g !in b {
      assert GoneFull(was, b, g);
    }
    forall k | k in a ensures k in b && k != g && b[k] == a[k] {
      if k !in b {
        assert Gone(was, b, k);
        assert Evictable(a, k);
        assert GoneFull(was, b, k);
      }
    }
    TotalWithout(b, g);
    TotalLeft(b - {g}, a);
  }

  // ---------- The loops ----------

  /** The names to go through, the least recently used first. */
  ghost predicate InOrder(order: seq<string>, ages: map<string, int>) {
    && (forall i :: 0 <= i < |order| ==> order[i] in ages)
    && (forall i, j :: 0 <= i < j < |order| ==> ages[order[i]] <= ages[order[j]] && order[i] != order[j])
  }

  lemma {:induction false} Oldest(names: set<string>, ages: map<string, int>) returns (name: string)
    requires names != {} && names <= ages.Keys
    ensures name in names && forall m :: m in names ==> ages[name] <= ages[m]
    decreases |names|
  {
    name :| name in names;
    if names != {name} {
      var other := Oldest(names - {name}, ages);
      name := if ages[other] <= ages[name] then other else name;
    }
  }

  /** All of `names` but those in `left` are sorted already. */
  ghost predicate Sorting(order: seq<string>, ages: map<string, int>, names: set<string>, left: set<string>) {
    && InOrder(order, ages) && left <= names <= ages.Keys
    && (forall name :: name in order <==> name in names - left)
    && (forall i, n :: 0 <= i < |order| && n in left ==> ages[order[i]] <= ages[n])
  }

  lemma SortStep(order: seq<string>, ages: map<string, int>, names: set<string>, left: set<string>, name: string)
    requires Sorting(order, ages, names, left) && name in left
    requires forall m :: m in left ==> ages[name] <= ages[m]
    ensures Sorting(order + [name], ages, names, left - {name})
  {
    var order' := order + [name];
    assert name !in order;
    assert forall i :: 0 <= i < |order'| ==> order'[i] == if i < |order| then order[i] else name;
    assert forall k :: k in order' <==> k in order || k == name;
  }

  /** Where the purge over quota stands after the items in `seen`; `g` is the last item removed while over quota. */
  ghost predicate Purging(was: Stock, now: Stock, ages: map<string, int>, maxSize: int, seen: set<string>, g: string)
    requires was.Keys <= ages.Keys
  {
    && Left(was, now)
    && (forall name :: Gone(was, now, name) ==> Removable(was[name]) && name in seen)
    && if !QuotaOk(maxSize, Total(now)) then forall name :: name in seen ==> !Evictable(now, name)
       else Satisfied(was, now, ages, maxSize, seen, g)
  }

  ghost predicate Satisfied(was: Stock, now: Stock, ages: map<string, int>, maxSize: int, seen: set<string>, g: string)
    requires was.Keys <= ages.Keys && Left(was, now)
  {
    && GoneFull(was, now, g) && !QuotaOk(maxSize, Total(now) + DiskSize(was[g]))
    && (forall name :: GoneFull(was, now, name) ==> ages[name] <= ages[g])
    && (forall name :: name in seen && Evictable(now, name) ==> DiskSize(now[name]) > 0 && ages[g] <= ages[name])
  }

  /** An item that stays: it is not removable, or the quota holds and it is not empty. */
  lemma PurgeKeeps(was: Stock, now: Stock, ages: map<string, int>, maxSize: int, seen: set<string>, name: string,
                   g: string)
    requires was.Keys <= ages.Keys && name in now && name in ages
    requires forall m :: m in seen && m in ages ==> ages[m] <= ages[name]
    requires Purging(was, now, ages, maxSize, seen, g)
    requires !Removable(now[name]) || (QuotaOk(maxSize, Total(now)) && DiskSize(now[name]) > 0)
    ensures Purging(was, now, ages, maxSize, seen + {name}, g)
  {
  }

  /** An item that is removed. */
  lemma PurgeTakes(was: Stock, now: Stock, ages: map<string, int>, maxSize: int, seen: set<string>, name: string,
                   g: string)
    requires was.Keys <= ages.Keys && name in now && name in ages
    requires forall m :: m in seen && m in ages ==> ages[m] <= ages[name]
    requires Purging(was, now, ages, maxSize, seen, g)
    requires Removable(now[name]) && (!QuotaOk(maxSize, Total(now)) || DiskSize(now[name]) == 0)
    ensures Purging(was, now - {name}, ages, maxSize, seen + {name}, if QuotaOk(maxSize, Total(now)) then g else name)
  {
    TotalWithout(now, name);
    assert forall k :: Gone(was, now - {name}, k) <==> Gone(was, now, k) || k == name;
    assert forall k :: Evictable(now - {name}, k) ==> Evictable(now, k);
  }

  /** The items from `i` on are still to come, and were used no earlier than those seen. */
  ghost predicate Going(order: seq<string>, i: nat, seen: set<string>, ages: map<string, int>, there: set<string>) {
    && i <= |order| && InOrder(order, ages)
    && (forall j :: 0 <= j < i ==> order[j] in seen)
    && (forall m, j :: m in seen && i <= j < |order| && m in ages ==> ages[m] <= ages[order[j]])
    && (forall j :: i <= j < |order| ==> order[j] in there && order[j] !in seen)
  }

  lemma GoOn(order: seq<string>, i: nat, seen: set<string>, ages: map<string, int>, there: set<string>,
             now: set<string>)
    requires Going(order, i, seen, ages, there) && i < |order|
    requires now == there || now == there - {order[i]}
    ensures Going(order, i + 1, seen + {order[i]}, ages, now)
  {
  }

  lemma PurgeDone(was: Stock, now: Stock, ages: map<string, int>, maxSize: int, seen: set<string>, g: string)
    requires was.Keys <= ages.Keys && Purging(was, now, ages, maxSize, seen, g)
    requires forall name :: name in was && Removable(was[name]) ==> name in seen
    ensures EvictedLru(was, now, ages, maxSize)
  {
    assert forall name :: Evictable(now, name) ==> name in seen;
    if QuotaOk(maxSize, Total(now)) {
      assert LastNeeded(was, now, ages, maxSize, g);
    }
  }

  /** The purge over quota, between two turns. */
  ghost predicate Evicting(was: Stock, now: Stock, ages: map<string, int>, maxSize: int, order: seq<string>, i: nat,
                           seen: set<string>, g: string)
    requires was.Keys <= ages.Keys
  {
    Going(order, i, seen, ages, now.Keys) && Purging(was, now, ages, maxSize, seen, g)
  }

  lemma EvictStart(was: Stock, ages: map<string, int>, maxSize: int, order: seq<string>)
    requires was.Keys <= ages.Keys && !QuotaOk(maxSize, Total(was))
    requires InOrder(order, ages) && forall name :: name in order ==> name in was
    ensures Evicting(was, was, ages, maxSize, order, 0, {}, "")
  {
  }

  lemma EvictNext(was: Stock, now: Stock, ages: map<string, int>, maxSize: int, order: seq<string>, i: nat,
                  seen: set<string>, g: string)
    requires was.Keys <= ages.Keys && i < |order| && Evicting(was, now, ages, maxSize, order, i, seen, g)
    ensures order[i] in now
  {
  }

  /** The next item is kept or removed, as removeNotInUse does it. */
  lemma EvictStep(was: Stock, now: Stock, ages: map<string, int>, maxSize: int, order: seq<string>, i: nat,
                  seen: set<string>, g: string, removed: bool)
    requires was.Keys <= ages.Keys && i < |order|
    requires Evicting(was, now, ages, maxSize, order, i, seen, g) && order[i] in now
    requires removed == Removes(now[order[i]], 0, 0, QuotaOk(maxSize, Total(now)))
    ensures Evicting(was, if removed then now - {order[i]} else now, ages, maxSize, order, i + 1, seen + {order[i]},
                     if removed && !QuotaOk(maxSize, Total(now)) then order[i] else g)
  {
    var name := order[i];
    if removed {
      GoOn(order, i, seen, ages, now.Keys, (now - {name}).Keys);
      PurgeTakes(was, now, ages, maxSize, seen, name, g);
    } else {
      GoOn(order, i, seen, ages, now.Keys, now.Keys);
      PurgeKeeps(was, now, ages, maxSize, seen, name, g);
    }
  }

  lemma EvictDone(was: Stock, now: Stock, ages: map<string, int>, maxSize: int, order: seq<string>, seen: set<string>,
                  g: string)
    requires was.Keys <= ages.Keys && Evicting(was, now, ages, maxSize, order, |order|, seen, g)
    requires forall name :: name in was && Removable(was[name]) ==> name in order
    ensures EvictedLru(was, now, ages, maxSize)
  {
    PurgeDone(was, now, ages, maxSize, seen, g);
  }

  /** The items removeNotInUse takes for their age. */
  ghost function Expired(stock: Stock, ages: map<string, int>, maxAge: nat, now: int): set<string>
    requires stock.Keys == ages.Keys
  {
    set name | name in stock && Removes(stock[name], maxAge, now - ages[name], false)
  }

  ghost predicate AgePurged(was: Stock, ages: map<string, int>, now: Stock, maxAge: nat, clock: int) {
    was.Keys == ages.Keys && now == was - Expired(was, ages, maxAge, clock)
  }

  lemma AgeStep<T>(was: map<string, T>, now: map<string, T>, expired: set<string>, todo: set<string>, name: string)
    requires now == was - (expired - todo) && name in todo
    ensures (if name in expired then now - {name} else now) == was - (expired - (todo - {name}))
  {
    if name in expired {
      assert expired - (todo - {name}) == (expired - todo) + {name};
    } else {
      assert expired - (todo - {name}) == expired - todo;
    }
  }

  /** The pass over the clean items, between two turns; `g` was tried last. */
  ghost predicate Cleaning(was: Stock, now: Stock, plan: map<string, Outcome>, ages: map<string, int>, maxSize: int,
                           errWas: set<string>, errItems: set<string>, order: seq<string>, i: nat,
                           tried: set<string>, g: string)
    requires plan.Keys == was.Keys == ages.Keys
  {
    && Tried(was, now, plan, errWas, errItems, tried)
    && Going(order, i, tried, ages, now.Keys)
    && (forall name :: name in tried ==> !was[name].dirty)
    && if i == 0 then !QuotaOk(maxSize, Total(now)) else LastTried(now, plan, ages, maxSize, tried, g)
  }

  lemma CleanStart(was: Stock, plan: map<string, Outcome>, ages: map<string, int>, maxSize: int, errWas: set<string>,
                   order: seq<string>)
    requires plan.Keys == was.Keys == ages.Keys && InOrder(order, ages) && !QuotaOk(maxSize, Total(was))
    ensures Cleaning(was, was, plan, ages, maxSize, errWas, errWas, order, 0, {}, "")
  {
  }

  lemma CleanStep(was: Stock, now: Stock, plan: map<string, Outcome>, ages: map<string, int>, maxSize: int,
                  errWas: set<string>, errItems: set<string>, order: seq<string>, i: nat, tried: set<string>, g: string)
    requires plan.Keys == was.Keys == ages.Keys && i < |order| && order[i] in was && !was[order[i]].dirty
    requires Cleaning(was, now, plan, ages, maxSize, errWas, errItems, order, i, tried, g)
    requires !QuotaOk(maxSize, Total(now))
    requires Total(After(now, order[i], plan[order[i]])) == Total(now) - plan[order[i]].freed
    ensures var o := plan[order[i]];
            Cleaning(was, After(now, order[i], o), plan, ages, maxSize, errWas, Noted(errItems, order[i], o), order,
                     i + 1, tried + {order[i]}, order[i])
  {
    var name := order[i];
    var now' := After(now, name, plan[name]);
    TryOne(was, now, plan, errWas, errItems, tried, name);
    GoOn(order, i, tried, ages, now.Keys, now'.Keys);
  }

  lemma CleanDone(was: Stock, now: Stock, plan: map<string, Outcome>, ages: map<string, int>, maxSize: int,
                  errWas: set<string>, errItems: set<string>, order: seq<string>, i: nat, tried: set<string>, g: string)
    requires plan.Keys == was.Keys == ages.Keys
    requires Cleaning(was, now, plan, ages, maxSize, errWas, errItems, order, i, tried, g)
    requires forall name :: name in order <==> name in was && !was[name].dirty
    requires QuotaOk(maxSize, Total(now)) || i == |order|
    ensures Cleaned(was, now, plan, ages, maxSize, errWas, errItems, tried)
  {
    forall n | n in was && n !in tried && !was[n].dirty
      ensures i < |order|
      ensures forall m :: m in tried ==> ages[m] <= ages[n]
    {
      assert n in order;
      var j :| 0 <= j < |order| && order[j] == n;
    }
  }

  /** Every name has its own item. */
  ghost predicate Separate(items: map<string, Item>, repr: set<object>) {
    && (forall name :: name in items ==> items[name] in repr && items[name].rs in repr)
    && (forall m, n :: m in items && n in items && m != n ==> items[m] != items[n] && items[m].rs != items[n].rs)
  }

  ghost predicate Shows(item: Item, s: ItemState, aTime: int)
    reads item, item.rs
  {
    item.Valid() && item.State() == s && item.aTime == aTime
  }

  /** What the items look like. */
  ghost predicate AllShow(items: map<string, Item>, stock: Stock, ages: map<string, int>, repr: set<object>)
    requires Separate(items, repr)
    reads repr
  {
    && items.Keys == stock.Keys == ages.Keys
    && forall name {:trigger Shows(items[name], stock[name], ages[name])} :: name in items ==>
         Shows(items[name], stock[name], ages[name])
  }

  lemma ShowsOne(items: map<string, Item>, stock: Stock, ages: map<string, int>, repr: set<object>, name: string)
    requires Separate(items, repr) && AllShow(items, stock, ages, repr) && name in items
    ensures Shows(items[name], stock[name], ages[name])
  {
  }

  /** No other name has this item. */
  ghost predicate NotElsewhere(items: map<string, Item>, name: string, item: Item) {
    forall m :: m in items && m != name ==> items[m] != item && items[m].rs != item.rs
  }

  lemma ShowPut(items: map<string, Item>, stock: Stock, ages: map<string, int>, repr: set<object>, name: string,
                item: Item)
    requires Separate(items, repr) && AllShow(items, stock, ages, repr)
    requires item.Valid() && NotElsewhere(items, name, item)
    ensures var items' := items[name := item];
            && Separate(items', repr + {item, item.rs})
            && AllShow(items', stock[name := item.State()], ages[name := item.aTime], repr + {item, item.rs})
  {
    SeparatePut(items, repr, name, item);
    forall m | m in items ensures Shows(items[m], stock[m], ages[m]) {
      ShowsOne(items, stock, ages, repr, m);
    }
  }

  lemma SeparatePut(items: map<string, Item>, repr: set<object>, name: string, item: Item)
    requires Separate(items, repr) && NotElsewhere(items, name, item)
    ensures Separate(items[name := item], repr + {item, item.rs})
  {
  }

  /** All but one item look as noted. */
  ghost predicate OthersShow(items: map<string, Item>, stock: Stock, ages: map<string, int>, repr: set<object>,
                             name: string)
    requires Separate(items, repr)
    reads repr
  {
    && items.Keys == stock.Keys == ages.Keys
    && forall m {:trigger Shows(items[m], stock[m], ages[m])} :: m in items && m != name ==>
         Shows(items[m], stock[m], ages[m])
  }

  lemma ShowAgain(items: map<string, Item>, stock: Stock, ages: map<string, int>, repr: set<object>, name: string)
    requires Separate(items, repr) && OthersShow(items, stock, ages, repr, name)
    requires name in items && Shows(items[name], stock[name], ages[name])
    ensures AllShow(items, stock, ages, repr)
  {
  }

  lemma ShowWithout(items: map<string, Item>, stock: Stock, ages: map<string, int>, repr: set<object>, name: string)
    requires Separate(items, repr) && OthersShow(items, stock, ages, repr, name)
    ensures Separate(items - {name}, repr) && AllShow(items - {name}, stock - {name}, ages - {name}, repr)
  {
  }

  lemma ShowWith(items: map<string, Item>, stock: Stock, ages: map<string, int>, repr: set<object>, name: string,
                 s: ItemState, at: int)
    requires Separate(items, repr) && OthersShow(items, stock, ages, repr, name)
    requires name in items && Shows(items[name], s, at)
    ensures AllShow(items, stock[name := s], ages[name := at], repr)
  {
  }

  // ---------- A whole pass ----------

  /** The items after the age purge, after the eviction, those the resets were tried on, and what the retry found. */
  datatype Trail = Trail(aged: Stock, evicted: Stock, tried: set<string>, before: Stock, noted: set<string>)

  ghost function AgesOf(ages: map<string, int>, stock: Stock): map<string, int> {
    map name | name in ages && name in stock :: ages[name]
  }

  lemma AgesTwice(ages: map<string, int>, stock: Stock, left: Stock)
    requires left.Keys <= stock.Keys
    ensures AgesOf(AgesOf(ages, stock), left) == AgesOf(ages, left)
  {
  }

  /** Nobody had the items that went open, and nothing in them was to be uploaded. */
  ghost predicate SparesUsed(was: Stock, now: Stock) {
    forall name :: name in was && name !in now ==> was[name].opens == 0 && !was[name].dirty && !was[name].grace
  }

  /** Within quota nothing happens; over it unused items are evicted, and then clean ones are reset. */
  ghost predicate QuotaPassed(trail: Trail, ages: map<string, int>, faults: string -> Faults, maxSize: int,
                              errWas: set<string>)
  {
    && trail.aged.Keys <= ages.Keys && trail.evicted.Keys <= trail.aged.Keys
    && (if Total(trail.aged) <= maxSize then trail.evicted == trail.aged
        else EvictedLru(trail.aged, trail.evicted, ages, maxSize))
    && AgesOf(ages, trail.evicted).Keys == trail.evicted.Keys
    && (if Total(trail.evicted) <= maxSize then trail.before == trail.evicted && trail.noted == errWas
        else Cleaned(trail.evicted, trail.before, Plan(trail.evicted, faults), AgesOf(ages, trail.evicted), maxSize,
                     errWas, trail.noted, trail.tried))
  }

  /** The stages of a pass follow one from the other. */
  ghost predicate Passed(was: Stock, ages: map<string, int>, trail: Trail, faults: string -> Faults, maxAge: nat,
                         clock: int, maxSize: int, errWas: set<string>)
  {
    && AgePurged(was, ages, trail.aged, maxAge, clock)
    && if maxSize > 0 then QuotaPassed(trail, AgesOf(ages, trail.aged), faults, maxSize, errWas)
       else trail.before == trail.aged
  }

  /** Whoever nobody uses was accessed not longer ago than allowed. */
  ghost predicate NoneOld(stock: Stock, ages: map<string, int>, maxAge: nat, clock: int) {
    forall name :: name in stock && name in ages && !InUse(stock[name]) ==> 0 < maxAge && clock - ages[name] < maxAge
  }

  predicate InUse(s: ItemState) { s.opens != 0 || s.dirty || s.grace }

  /** What the stages come to. */
  lemma PassOutcome(was: Stock, ages: map<string, int>, trail: Trail, faults: string -> Faults, maxAge: nat,
                    clock: int, maxSize: int, errWas: set<string>)
    requires Passed(was, ages, trail, faults, maxAge, clock, maxSize, errWas)
    ensures NoneOld(trail.before, ages, maxAge, clock)
    ensures maxSize > 0 ==>
              || Total(trail.before) <= maxSize
              || forall name :: name in trail.before ==> Spent(trail.before[name]) || name in trail.noted
  {
    assert NoneOld(trail.aged, ages, maxAge, clock);
    if maxSize > 0 {
      QuotaOutcome(trail, AgesOf(ages, trail.aged), ages, faults, maxAge, clock, maxSize, errWas);
    }
  }

  lemma QuotaOutcome(trail: Trail, ages: map<string, int>, all: map<string, int>, faults: string -> Faults, maxAge: nat,
                     clock: int, maxSize: int, errWas: set<string>)
    requires maxSize > 0 && QuotaPassed(trail, ages, faults, maxSize, errWas) && NoneOld(trail.aged, all, maxAge, clock)
    ensures NoneOld(trail.before, all, maxAge, clock)
    ensures || Total(trail.before) <= maxSize
            || forall name :: name in trail.before ==> Spent(trail.before[name]) || name in trail.noted
  {
    assert NoneOld(trail.evicted, all, maxAge, clock);
    if Total(trail.evicted) > maxSize {
      var kept := AgesOf(ages, trail.evicted);
      CleanedNoneOld(trail.evicted, trail.before, faults, errWas, trail.noted, trail.tried, all, maxAge, clock);
      if Total(trail.before) > maxSize {
        CleanExhausts(trail.evicted, trail.before, faults, kept, maxSize, errWas, trail.noted, trail.tried);
      }
    }
  }

  /** A reset leaves an item in use that was. */
  lemma CleanedNoneOld(was: Stock, now: Stock, faults: string -> Faults, errWas: set<string>, errItems: set<string>,
                       tried: set<string>, ages: map<string, int>, maxAge: nat, clock: int)
    requires Tried(was, now, Plan(was, faults), errWas, errItems, tried) && NoneOld(was, ages, maxAge, clock)
    ensures NoneOld(now, ages, maxAge, clock)
  {
    forall name | name in now ensures InUse(now[name]) || now[name] == was[name] {
      ResetInUse(was[name], faults(name));
    }
  }

  lemma ResetInUse(s: ItemState, f: Faults)
    ensures var o := Reset(s, f); o.removed || o.after == s || InUse(o.after)
  {
  }

  class Cache {
    const maxSize: int
    var items: map<string, Item>
    var used: int
    var outOfSpace: bool
    var errItems: set<string>            // items whose reset failed
    ghost var stock: Stock               // the items' fields
    ghost var ages: map<string, int>     // when they were last accessed
    ghost var repr: set<object>          // the items and their sets, and those of items that went

    constructor (maxSize: int)
      ensures Valid() && items == map[] && this.maxSize == maxSize && used == 0 && !outOfSpace && errItems == {}
    {
      this.maxSize := maxSize;
      items, used, outOfSpace, errItems := map[], 0, false, {};
      stock, ages, repr := map[], map[], {};
    }

    ghost predicate Valid()
      reads this`items, this`stock, this`ages, this`repr, repr
    {
      this !in repr && Separate(items, repr) && AllShow(items, stock, ages, repr)
    }

    /** put: the item takes the name, and an item that had it is returned. */
    method Put(name: string, item: Item) returns (oldItem: Option<Item>)
      requires Valid() && item.Valid() && NotElsewhere(items, name, item)
      modifies this`items, this`stock, this`ages, this`repr
      ensures Valid() && items == old(items)[name := item] && repr == old(repr) + {item, item.rs}
      ensures stock == old(stock)[name := item.State()] && ages == old(ages)[name := item.aTime]
      ensures oldItem == if name in old(items) && old(items)[name] != item then Some(old(items)[name]) else None
    {
      oldItem := if name in items && items[name] != item then Some(items[name]) else None;
      ShowPut(items, stock, ages, repr, name, item);
      Adopt(items[name := item], stock[name := item.State()], ages[name := item.aTime], repr + {item, item.rs});
    }

    method Adopt(entries: map<string, Item>, ghost stock': Stock, ghost ages': map<string, int>, ghost all: set<object>)
      requires this !in all && Separate(entries, all) && AllShow(entries, stock', ages', all)
      modifies this`items, this`stock, this`ages, this`repr
      ensures Valid() && items == entries && stock == stock' && ages == ages' && repr == all
    {
      items, stock, ages, repr := entries, stock', ages', all;
    }

    predicate QuotasOk()
      reads this`used
    {
      QuotaOk(maxSize, used)
    }

    /** updateUsed. */
    method UpdateUsed() returns (newUsed: int)
      requires Valid()
      modifies this`used
      ensures Valid() && newUsed == used == Total(stock)
      ensures repr == old(repr)
    {
      newUsed := SumUp();
      used := newUsed;
    }

    method SizeOf(name: string) returns (size: int)
      requires Valid() && name in items
      ensures size == DiskSize(stock[name])
    {
      ShowsOne(items, stock, ages, repr, name);
      size := items[name].GetDiskSize();
    }

    method SumUp() returns (newUsed: int)
      requires Valid()
      ensures newUsed == Total(stock)
    {
      newUsed := 0;
      var names := items.Keys;
      assert stock - stock.Keys == map[];
      while names != {}
        invariant Counting(stock, names, newUsed)
      {
        var name :| name in names;
        var size := SizeOf(name);
        CountOne(stock, names, newUsed, name);
        newUsed := newUsed + size;
        names := names - {name};
      }
      assert stock - {} == stock;
    }

    /** The item's own part of a removal; no other item notices. */
    method RemoveFilesOf(name: string, maxAge: nat, now: int, emptyOnly: bool) returns (removed: bool, spaceFreed: nat)
      requires Valid() && name in items
      modifies items[name], items[name].rs
      ensures OthersShow(items, stock, ages, repr, name)
      ensures removed == Removes(stock[name], maxAge, now - ages[name], emptyOnly)
      ensures if removed then spaceFreed == DiskSize(stock[name])
              else spaceFreed == 0 && Shows(items[name], stock[name], ages[name])
      ensures Unmoved()
    {
      ShowsOne(items, stock, ages, repr, name);
      removed, spaceFreed := items[name].RemoveNotInUse(maxAge, now - items[name].aTime, emptyOnly);
    }

    /** The cache's own fields are as before. */
    twostate predicate Unmoved()
      reads this
    {
      && items == old(items) && used == old(used) && stock == old(stock) && ages == old(ages) && repr == old(repr)
      && Unflagged()
    }

    twostate predicate Unflagged()
      reads this`outOfSpace, this`errItems, this`repr
    {
      outOfSpace == old(outOfSpace) && errItems == old(errItems) && repr == old(repr)
    }

    /** The entry of an item whose files are gone is deleted. */
    method Delete(name: string)
      requires this !in repr && Separate(items, repr) && OthersShow(items, stock, ages, repr, name)
      modifies this`items, this`stock, this`ages
      ensures Valid() && stock == old(stock) - {name} && ages == old(ages) - {name} && items == old(items) - {name}
      ensures used == old(used) && Unflagged()
    {
      ShowWithout(items, stock, ages, repr, name);
      items, stock, ages := items - {name}, stock - {name}, ages - {name};
    }

    /** The ghost fields follow an item. */
    ghost method Follow(name: string, after: ItemState, aTime: int)
      requires this !in repr && Separate(items, repr) && OthersShow(items, stock, ages, repr, name)
      requires name in items && Shows(items[name], after, aTime)
      modifies this`stock, this`ages
      ensures Valid() && stock == old(stock)[name := after] && ages == old(ages)[name := aTime]
      ensures items == old(items) && used == old(used) && Unflagged()
    {
      ShowWith(items, stock, ages, repr, name, after, aTime);
      stock, ages := stock[name := after], ages[name := aTime];
    }

    /** removeNotInUse. */
    method RemoveNotInUse(name: string, maxAge: nat, now: int, emptyOnly: bool) returns (ghost removed: bool)
      requires Valid() && name in items && used == Total(stock)
      modifies this`used, this`items, this`stock, this`ages, items[name], items[name].rs
      ensures Valid() && used == Total(stock) && Unflagged()
      ensures removed == Removes(old(stock[name]), maxAge, now - old(ages[name]), emptyOnly)
      ensures stock == (if removed then old(stock) - {name} else old(stock))
      ensures ages == (if removed then old(ages) - {name} else old(ages))
      ensures items == (if removed then old(items) - {name} else old(items))
    {
      TotalWithout(stock, name);
      var gone, spaceFreed := RemoveFilesOf(name, maxAge, now, emptyOnly);
      removed := gone;
      DeleteIf(name, gone);
      used := used - spaceFreed;
    }

    method DeleteIf(name: string, gone: bool)
      requires this !in repr && Separate(items, repr) && OthersShow(items, stock, ages, repr, name) && name in items
      requires gone || Shows(items[name], stock[name], ages[name])
      modifies this`items, this`stock, this`ages
      ensures Valid() && used == old(used) && Unflagged()
      ensures stock == (if gone then old(stock) - {name} else old(stock))
      ensures ages == (if gone then old(ages) - {name} else old(ages))
      ensures items == (if gone then old(items) - {name} else old(items))
    {
      if gone {
        Delete(name);
      } else {
        ShowAgain(items, stock, ages, repr, name);
      }
    }

    /** sort.Sort of the items: which of two accessed at the same time comes first is open. */
    method ByAge(names: set<string>) returns (order: seq<string>)
      requires Valid() && names <= items.Keys
      ensures InOrder(order, ages) && forall name :: name in order <==> name in names
    {
      order := [];
      var left := names;
      while left != {}
        invariant left <= names && Sorting(order, ages, names, left)
      {
        var name := LeastRecent(left);
        SortStep(order, ages, names, left, name);
        order := order + [name];
        left := left - {name};
      }
    }

    method LeastRecent(names: set<string>) returns (name: string)
      requires Valid() && names <= items.Keys && names != {}
      ensures name in names && forall m :: m in names ==> ages[name] <= ages[m]
    {
      assert forall m :: m in names ==> Shows(items[m], stock[m], ages[m]);
      ghost var oldest := Oldest(names, ages);
      assert forall m :: m in names ==> items[oldest].aTime <= items[m].aTime;
      name :| name in names && forall m :: m in names ==> items[name].aTime <= items[m].aTime;
    }

    /** purgeOld: every item past its age goes, if nobody uses it. */
    method PurgeOld(maxAge: nat, now: int)
      requires Valid() && used == Total(stock)
      modifies this`used, this`items, this`stock, this`ages, this`outOfSpace, repr
      ensures Valid() && used == Total(stock)
      ensures AgePurged(old(stock), old(ages), stock, maxAge, now) && ages == AgesOf(old(ages), stock)
      ensures SparesUsed(old(stock), stock) && NoneOld(stock, old(ages), maxAge, now)
      ensures outOfSpace == (old(outOfSpace) && !QuotasOk()) && errItems == old(errItems)
      ensures repr == old(repr)
    {
      RemoveAged(maxAge, now);
      assert outOfSpace == old(outOfSpace);
      WakeIfOk();
    }

    method RemoveAged(maxAge: nat, now: int)
      requires Valid() && used == Total(stock)
      modifies this`used, this`items, this`stock, this`ages, repr
      ensures Valid() && used == Total(stock) && outOfSpace == old(outOfSpace)
      ensures AgePurged(old(stock), old(ages), stock, maxAge, now) && ages == AgesOf(old(ages), stock)
      ensures errItems == old(errItems)
      ensures repr == old(repr)
    {
      ghost var expired := Expired(stock, ages, maxAge, now);
      RemoveExpired(maxAge, now, expired);
    }

    method RemoveExpired(maxAge: nat, now: int, ghost expired: set<string>)
      requires Valid() && used == Total(stock) && expired == Expired(stock, ages, maxAge, now)
      modifies this`used, this`items, this`stock, this`ages, repr
      ensures Valid() && used == Total(stock) && stock == old(stock) - expired && ages == old(ages) - expired
      ensures errItems == old(errItems)
      ensures repr == old(repr)
    {
      ghost var was, wasAges := stock, ages;
      var names := items.Keys;
      while names != {}
        invariant Valid() && used == Total(stock)
        invariant names <= items.Keys
        invariant stock == was - (expired - names) && ages == wasAges - (expired - names)
      {
        var name :| name in names;
        AgeStep(was, stock, expired, names, name);
        AgeStep(wasAges, ages, expired, names, name);
        RemoveIfAged(name, maxAge, now, was, wasAges, expired);
        names := names - {name};
      }
      assert expired - {} == expired;
    }

    /** The threads waiting for space are let go when the quota holds. */
    method WakeIfOk()
      requires Valid()
      modifies this`outOfSpace
      ensures Valid() && stock == old(stock) && used == old(used)
      ensures outOfSpace == (old(outOfSpace) && !QuotasOk())
      ensures repr == old(repr)
    {
      if QuotasOk() {
        outOfSpace := false;
      }
    }

    method RemoveIfAged(name: string, maxAge: nat, now: int, ghost was: Stock, ghost wasAges: map<string, int>,
                        ghost expired: set<string>)
      requires Valid() && name in items && used == Total(stock)
      requires was.Keys == wasAges.Keys && expired == Expired(was, wasAges, maxAge, now)
      requires name in was && stock[name] == was[name] && ages[name] == wasAges[name]
      modifies this`used, this`items, this`stock, this`ages, items[name], items[name].rs
      ensures Valid() && used == Total(stock)
      ensures stock == (if name in expired then old(stock) - {name} else old(stock))
      ensures ages == (if name in expired then old(ages) - {name} else old(ages))
      ensures items == (if name in expired then old(items) - {name} else old(items))
      ensures repr == old(repr)
    {
      ghost var removed := RemoveNotInUse(name, maxAge, now, false);
    }

    /** purgeOverQuota: over quota, the least recently used items go, until the quota holds. */
    method PurgeOverQuota()
      requires Valid()
      modifies this`used, this`items, this`stock, this`ages, this`outOfSpace, repr
      ensures Valid() && used == Total(stock)
      ensures if maxSize <= 0 || Total(old(stock)) <= maxSize then stock == old(stock)
              else EvictedLru(old(stock), stock, old(ages), maxSize)
      ensures ages == AgesOf(old(ages), stock) && SparesUsed(old(stock), stock)
      ensures outOfSpace == (old(outOfSpace) && (QuotaOk(maxSize, Total(old(stock))) || !QuotasOk()))
      ensures errItems == old(errItems)
      ensures repr == old(repr)
    {
      var newUsed := UpdateUsed();
      if QuotasOk() {
        return;
      }
      EvictAndWake();
    }

    method EvictAndWake()
      requires Valid() && used == Total(stock) && !QuotasOk()
      modifies this`used, this`items, this`stock, this`ages, this`outOfSpace, repr
      ensures Valid() && used == Total(stock)
      ensures EvictedLru(old(stock), stock, old(ages), maxSize) && ages == AgesOf(old(ages), stock)
      ensures outOfSpace == (old(outOfSpace) && !QuotasOk())
      ensures errItems == old(errItems)
      ensures repr == old(repr)
    {
      EvictUnused();
      assert outOfSpace == old(outOfSpace);
      WakeIfOk();
    }

    method EvictUnused()
      requires Valid() && used == Total(stock) && !QuotasOk()
      modifies this`used, this`items, this`stock, this`ages, repr
      ensures Valid() && used == Total(stock) && outOfSpace == old(outOfSpace)
      ensures EvictedLru(old(stock), stock, old(ages), maxSize) && ages == AgesOf(old(ages), stock)
      ensures errItems == old(errItems)
      ensures repr == old(repr)
    {
      var order := UnusedByAge();
      EvictStart(stock, ages, maxSize, order);
      RemoveInOrder(order);
    }

    /** The items that are not in use, in order of age. */
    method UnusedByAge() returns (order: seq<string>)
      requires Valid()
      ensures InOrder(order, ages)
      ensures forall name :: name in order <==> name in stock && stock[name].opens == 0 && !stock[name].dirty
    {
      assert forall name :: name in items ==> Shows(items[name], stock[name], ages[name]);
      var names := set name | name in items && !items[name].InUse();
      order := ByAge(names);
    }

    method RemoveInOrder(order: seq<string>)
      requires Valid() && used == Total(stock) && Evicting(stock, stock, ages, maxSize, order, 0, {}, "")
      requires forall name :: name in stock && Removable(stock[name]) ==> name in order
      modifies this`used, this`items, this`stock, this`ages, repr
      ensures Valid() && used == Total(stock) && outOfSpace == old(outOfSpace)
      ensures EvictedLru(old(stock), stock, old(ages), maxSize) && ages == AgesOf(old(ages), stock)
      ensures errItems == old(errItems)
    {
      ghost var was, wasAges := stock, ages;
      ghost var seen, g := {}, "";
      assert was.Keys <= wasAges.Keys;
      for i := 0 to |order|
        invariant Valid() && used == Total(stock)
        invariant Evicting(was, stock, wasAges, maxSize, order, i, seen, g) && ages == AgesOf(wasAges, stock)
        invariant outOfSpace == old(outOfSpace) && errItems == old(errItems) && repr == old(repr)
      {
        EvictNext(was, stock, wasAges, maxSize, order, i, seen, g);
        assert items[order[i]] in repr && items[order[i]].rs in repr;
        ghost var mid, midAges := stock, ages;
        g := RemoveNext(order, i, was, wasAges, seen, g);
        AgesTwice(wasAges, mid, stock);
        seen := seen + {order[i]};
      }
      EvictDone(was, stock, wasAges, maxSize, order, seen, g);
    }

    /** One turn of the loop of purgeOverQuota. */
    method RemoveNext(order: seq<string>, i: nat, ghost was: Stock, ghost wasAges: map<string, int>,
                      ghost seen: set<string>, ghost g: string)
      returns (ghost g': string)
      requires Valid() && used == Total(stock) && was.Keys <= wasAges.Keys && i < |order| && order[i] in items
      requires Evicting(was, stock, wasAges, maxSize, order, i, seen, g)
      modifies this`used, this`items, this`stock, this`ages, items[order[i]], items[order[i]].rs
      ensures Valid() && used == Total(stock)
      ensures items == (if order[i] in stock then old(items) else old(items) - {order[i]})
      ensures Evicting(was, stock, wasAges, maxSize, order, i + 1, seen + {order[i]}, g')
      ensures ages == AgesOf(old(ages), stock) && stock.Keys <= old(stock).Keys
      ensures Unflagged()
    {
      ghost var before := stock;
      ghost var removed := RemoveNotInUse(order[i], 0, 0, QuotasOk());
      EvictStep(was, before, wasAges, maxSize, order, i, seen, g, removed);
      g' := if removed && !QuotaOk(maxSize, Total(before)) then order[i] else g;
    }

    // ---------- Resets ----------

    /** The item's own part of a reset; no other item notices. */
    method ResetFilesOf(name: string, f: Faults) returns (removed: bool, err: Option<Error>, freed: nat)
      requires Valid() && name in items
      modifies items[name], items[name].rs
      ensures OthersShow(items, stock, ages, repr, name) && Unmoved()
      ensures Outcome(removed, err, freed, items[name].State()) == Reset(stock[name], f) && items[name].Valid()
    {
      ShowsOne(items, stock, ages, repr, name);
      var rr;
      rr, freed, err := items[name].Reset(f.total, f.close, f.check, f.create);
      removed := rr.RemovedNotInUse?;
    }

    /** An item that was reset stays, or its entry is deleted. */
    method Settle(name: string, removed: bool, ghost after: ItemState)
      requires this !in repr && Separate(items, repr) && OthersShow(items, stock, ages, repr, name)
      requires name in items && Shows(items[name], after, items[name].aTime)
      modifies this`items, this`stock, this`ages
      ensures Valid() && used == old(used) && Unflagged()
      ensures stock == (if removed then old(stock) - {name} else old(stock)[name := after])
      ensures items == (if removed then old(items) - {name} else old(items))
    {
      if removed {
        Delete(name);
      } else {
        Follow(name, after, items[name].aTime);
      }
    }

    method NoteReset(name: string, err: Option<Error>, freed: nat)
      requires Valid()
      modifies this`used, this`errItems
      ensures Valid() && stock == old(stock) && items == old(items)
      ensures used == old(used) - freed
      ensures errItems == (if err.Some? then old(errItems) + {name} else old(errItems))
      ensures outOfSpace == old(outOfSpace) && repr == old(repr)
    {
      used := used - freed;
      if err.Some? {
        errItems := errItems + {name};
      }
    }

    /** One turn of the loop of purgeClean: the item is reset, the space booked, a failure noted. */
    method ResetItem(name: string, f: Faults, ghost o: Outcome)
      requires Valid() && name in items && o == Reset(stock[name], f)
      modifies this`used, this`items, this`stock, this`ages, this`errItems, items[name], items[name].rs
      ensures Valid() && used == old(used) - o.freed
      ensures stock == After(old(stock), name, o)
      ensures items == (if o.removed then old(items) - {name} else old(items))
      ensures errItems == Noted(old(errItems), name, o)
      ensures outOfSpace == old(outOfSpace) && repr == old(repr)
    {
      var removed, err, freed := ResetFilesOf(name, f);
      Settle(name, removed, o.after);
      NoteReset(name, err, freed);
    }

    lemma ResetTotal(name: string, f: Faults, o: Outcome)
      requires Valid() && name in items && o == Reset(stock[name], f)
      ensures Total(After(stock, name, o)) == Total(stock) - o.freed
    {
      ShowsOne(items, stock, ages, repr, name);
      TotalReset(stock, name, f);
    }

    /** The items without local changes, in order of age. */
    method CleanByAge() returns (order: seq<string>)
      requires Valid()
      ensures InOrder(order, ages)
      ensures forall name :: name in order <==> name in stock && !stock[name].dirty
    {
      assert forall name :: name in items ==> Shows(items[name], stock[name], ages[name]);
      var names := set name | name in items && !items[name].dirty;
      order := ByAge(names);
    }

    /** purgeClean: over quota still, clean items are reset, the least recently used first, until the quota holds. */
    method PurgeClean(faults: string -> Faults) returns (ghost tried: set<string>)
      requires Valid() && used == Total(stock)
      modifies this`used, this`items, this`stock, this`ages, this`errItems, this`outOfSpace, repr
      ensures Valid() && used == Total(stock)
      ensures old(QuotasOk()) ==> stock == old(stock) && errItems == old(errItems) && outOfSpace == old(outOfSpace)
      ensures !old(QuotasOk()) ==> !outOfSpace
      ensures !old(QuotasOk()) ==>
                Cleaned(old(stock), stock, Plan(old(stock), faults), old(ages), maxSize, old(errItems), errItems, tried)
      ensures repr == old(repr)
    {
      tried := {};
      if QuotasOk() {
        return;
      }
      tried := ResetUntilOk(faults, Plan(stock, faults));
      LetGo();
    }

    /** The threads waiting for space are let go, whether the quota holds or not. */
    method LetGo()
      requires Valid()
      modifies this`outOfSpace
      ensures Valid() && stock == old(stock) && used == old(used) && errItems == old(errItems) && !outOfSpace
      ensures repr == old(repr)
    {
      outOfSpace := false;
    }

    method ResetUntilOk(faults: string -> Faults, ghost plan: map<string, Outcome>) returns (ghost tried: set<string>)
      requires Valid() && used == Total(stock) && !QuotasOk() && plan == Plan(stock, faults)
      modifies this`used, this`items, this`stock, this`ages, this`errItems, repr
      ensures Valid() && used == Total(stock)
      ensures Cleaned(old(stock), stock, plan, old(ages), maxSize, old(errItems), errItems, tried)
      ensures repr == old(repr)
    {
      var order := CleanByAge();
      CleanStart(stock, plan, ages, maxSize, errItems, order);
      tried := ResetInOrder(order, faults, plan);
    }

    method ResetInOrder(order: seq<string>, faults: string -> Faults, ghost plan: map<string, Outcome>)
      returns (ghost tried: set<string>)
      requires Valid() && used == Total(stock) && plan == Plan(stock, faults)
      requires forall name :: name in order <==> name in stock && !stock[name].dirty
      requires Cleaning(stock, stock, plan, ages, maxSize, errItems, errItems, order, 0, {}, "")
      modifies this`used, this`items, this`stock, this`ages, this`errItems, repr
      ensures Valid() && used == Total(stock)
      ensures Cleaned(old(stock), stock, plan, old(ages), maxSize, old(errItems), errItems, tried)
      ensures repr == old(repr)
    {
      ghost var was, wasAges, errWas := stock, ages, errItems;
      tried := {};
      ghost var g := "";
      var i := 0;
      while i < |order| && !QuotasOk()
        invariant Valid() && used == Total(stock) && i <= |order| && repr == old(repr)
        invariant Cleaning(was, stock, plan, wasAges, maxSize, errWas, errItems, order, i, tried, g)
      {
        assert order[i] in items && items[order[i]] in repr && items[order[i]].rs in repr;
        assert order[i] in was && !was[order[i]].dirty;
        CleanNext(order, i, faults, was, wasAges, plan, errWas, tried, g);
        g := order[i];
        tried := tried + {g};
        i := i + 1;
      }
      CleanDone(was, stock, plan, wasAges, maxSize, errWas, errItems, order, i, tried, g);
    }

    /** One turn of the loop of purgeClean. */
    method CleanNext(order: seq<string>, i: nat, faults: string -> Faults,
                     ghost was: Stock, ghost wasAges: map<string, int>, ghost plan: map<string, Outcome>,
                     ghost errWas: set<string>, ghost tried: set<string>, ghost g: string)
      requires Valid() && used == Total(stock) && !QuotasOk() && i < |order| && order[i] in items
      requires was.Keys == wasAges.Keys && plan == Plan(was, faults) && order[i] in was && !was[order[i]].dirty
      requires Cleaning(was, stock, plan, wasAges, maxSize, errWas, errItems, order, i, tried, g)
      modifies this`used, this`items, this`stock, this`ages, this`errItems, items[order[i]], items[order[i]].rs
      ensures Valid() && used == Total(stock)
      ensures items == (if plan[order[i]].removed then old(items) - {order[i]} else old(items))
      ensures Cleaning(was, stock, plan, wasAges, maxSize, errWas, errItems, order, i + 1, tried + {order[i]}, order[i])
      ensures outOfSpace == old(outOfSpace) && repr == old(repr)
    {
      CleanNextPlanned(order, i, faults, was, wasAges, plan, errWas, tried, g);
      ResetItem(order[i], faults(order[i]), plan[order[i]]);
    }

    lemma CleanNextPlanned(order: seq<string>, i: nat, faults: string -> Faults, was: Stock, wasAges: map<string, int>,
                           plan: map<string, Outcome>, errWas: set<string>, tried: set<string>, g: string)
      requires Valid() && used == Total(stock) && !QuotasOk() && i < |order| && order[i] in items
      requires was.Keys == wasAges.Keys && plan == Plan(was, faults) && order[i] in was && !was[order[i]].dirty
      requires Cleaning(was, stock, plan, wasAges, maxSize, errWas, errItems, order, i, tried, g)
      ensures var name, o := order[i], plan[order[i]];
              && o == Reset(stock[name], faults(name)) && Total(After(stock, name, o)) == used - o.freed
              && Cleaning(was, After(stock, name, o), plan, wasAges, maxSize, errWas, Noted(errItems, name, o),
                          order, i + 1, tried + {name}, name)
    {
      ResetTotal(order[i], faults(order[i]), plan[order[i]]);
      CleanStep(was, stock, plan, wasAges, maxSize, errWas, errItems, order, i, tried, g);
    }

    /** retryFailedResets. */
    method RetryFailedResets(faults: string -> Faults)
      requires Valid()
      modifies this`stock, this`ages, this`errItems, repr
      ensures Valid() && Retried(old(stock), stock, Plan(old(stock), faults), old(errItems), errItems, old(errItems))
      ensures items == old(items) && used == old(used) && outOfSpace == old(outOfSpace)
      ensures repr == old(repr)
    {
      ghost var was, wasItems, errWas, plan := stock, items, errItems, Plan(stock, faults);
      var names := errItems;
      assert errWas - names == {};
      while names != {}
        invariant Valid() && items == wasItems && names <= errWas
        invariant used == old(used) && outOfSpace == old(outOfSpace) && repr == old(repr)
        invariant Retried(was, stock, plan, errWas, errItems, errWas - names)
      {
        var name :| name in names;
        RetryNext(name, faults, was, plan, errWas, errWas - names);
        assert errWas - (names - {name}) == (errWas - names) + {name};
        names := names - {name};
      }
      assert errWas - {} == errWas;
    }

    /** One turn; the space a retry frees is not booked, nor its entry deleted. */
    method RetryNext(name: string, faults: string -> Faults, ghost was: Stock, ghost plan: map<string, Outcome>,
                     ghost errWas: set<string>, ghost retried: set<string>)
      requires Valid() && plan == Plan(was, faults) && name in errWas && name !in retried
      requires Retried(was, stock, plan, errWas, errItems, retried)
      modifies this`stock, this`ages, this`errItems, if name in items then {items[name], items[name].rs} else {}
      ensures Valid() && items == old(items)
      ensures Retried(was, stock, plan, errWas, errItems, retried + {name})
      ensures used == old(used) && outOfSpace == old(outOfSpace)
      ensures repr == old(repr)
    {
      ghost var after := if name in was then stock[name := plan[name].after] else stock;
      ghost var errAfter := if name in was && plan[name].err == Some(NoSpace) then errItems else errItems - {name};
      RetryOne(was, stock, plan, errWas, errItems, retried, name);
      assert Retried(was, after, plan, errWas, errAfter, retried + {name});
      if name in items {
        ResetAgain(name, faults(name), plan[name]);
      } else {
        Unlist(name, None);
      }
      assert stock == after && errItems == errAfter;
    }

    method ResetAgain(name: string, f: Faults, ghost o: Outcome)
      requires Valid() && name in items && o == Reset(stock[name], f)
      modifies this`stock, this`ages, this`errItems, items[name], items[name].rs
      ensures Valid() && items == old(items) && stock == old(stock)[name := o.after]
      ensures errItems == (if o.err == Some(NoSpace) then old(errItems) else old(errItems) - {name})
      ensures used == old(used) && outOfSpace == old(outOfSpace) && repr == old(repr)
    {
      var removed, err, freed := ResetFilesOf(name, f);
      Follow(name, o.after, items[name].aTime);
      Unlist(name, err);
    }

    method Unlist(name: string, err: Option<Error>)
      requires Valid()
      modifies this`errItems
      ensures Valid() && stock == old(stock)
      ensures errItems == (if err == Some(NoSpace) then old(errItems) else old(errItems) - {name})
      ensures items == old(items) && used == old(used) && outOfSpace == old(outOfSpace) && repr == old(repr)
    {
      if err != Some(NoSpace) {
        errItems := errItems - {name};
      }
    }

    // ---------- A whole pass ----------

    lemma AllCanonical()
      requires Valid()
      ensures forall name :: name in stock ==> Canonical(stock[name].rs)
    {
      assert forall name :: name in items ==> Shows(items[name], stock[name], ages[name]);
    }

    /**
     clean, when no kick comes in between: the age purge, with a quota then the eviction, the
     resets and the retry.  The out-of-space flag falls, no blocked item is forgotten, and
     `used` exceeds the space used by just what the retry freed, which is not booked.
     Afterwards no unused item is past its age, and the quota holds or nothing more can be had.
     */
    method CleanUp(maxAge: nat, now: int, faults: string -> Faults) returns (ghost trail: Trail)
      requires Valid()
      modifies this`used, this`items, this`stock, this`ages, this`errItems, this`outOfSpace, repr
      ensures Valid() && !outOfSpace && used == Total(trail.before) && Unbooked(trail.before, faults, trail.noted)
      ensures Passed(old(stock), old(ages), trail, faults, maxAge, now, maxSize, old(errItems))
      ensures if maxSize > 0
              then Retried(trail.before, stock, Plan(trail.before, faults), trail.noted, errItems, trail.noted)
              else stock == trail.before && errItems == old(errItems)
      ensures NoneOld(trail.before, old(ages), maxAge, now)
      ensures maxSize > 0 ==>
                || Total(trail.before) <= maxSize
                || forall name :: name in trail.before ==> Spent(trail.before[name]) || name in trail.noted
      ensures Remembered(old(stock), old(errItems)) ==> Remembered(stock, errItems)
    {
      ghost var was, wasAges, errWas := stock, ages, errItems;
      CleanByAgeLimit(maxAge, now);
      if maxSize > 0 {
        trail := CleanWithQuota(faults);
        AgesTwice(wasAges, trail.aged, trail.evicted);
      } else {
        trail := Trail(stock, stock, {}, stock, {});
        assert Picked(Plan(stock, faults), {}) == map[];
      }
      PassOutcome(was, wasAges, trail, faults, maxAge, now, maxSize, errWas);
    }

    /** The part of clean that a cache with a quota has. */
    method CleanWithQuota(faults: string -> Faults) returns (ghost trail: Trail)
      requires Valid() && used == Total(stock) && (outOfSpace ==> !QuotasOk()) && maxSize > 0
      modifies this`used, this`items, this`stock, this`ages, this`errItems, this`outOfSpace, repr
      ensures Valid() && !outOfSpace && used == Total(trail.before) && Unbooked(trail.before, faults, trail.noted)
      ensures trail.aged == old(stock) && QuotaPassed(trail, old(ages), faults, maxSize, old(errItems))
      ensures Retried(trail.before, stock, Plan(trail.before, faults), trail.noted, errItems, trail.noted)
      ensures Remembered(old(stock), old(errItems)) ==> Remembered(stock, errItems)
    {
      trail := CleanForQuota(faults);
      CleanRetry(faults, trail);
    }

    /**
     `used` exceeds the space used by what the retried resets freed; there is no excess exactly when none
     freed any.
     */
    ghost predicate Unbooked(before: Stock, faults: string -> Faults, noted: set<string>)
      reads this`used, this`stock
    {
      var retried := Picked(Plan(before, faults), noted);
      && used == Total(stock) + Freed(retried)
      && (used == Total(stock) <==> forall name :: name in retried ==> retried[name].freed == 0)
    }

    method CleanByAgeLimit(maxAge: nat, now: int)
      requires Valid()
      modifies this`used, this`items, this`stock, this`ages, this`outOfSpace, repr
      ensures Valid() && used == Total(stock) && errItems == old(errItems)
      ensures AgePurged(old(stock), old(ages), stock, maxAge, now) && ages == AgesOf(old(ages), stock)
      ensures outOfSpace ==> !QuotasOk()
      ensures Remembered(old(stock), old(errItems)) ==> Remembered(stock, errItems)
    {
      ghost var was := stock;
      var newUsed := UpdateUsed();
      assert stock == was;
      PurgeOld(maxAge, now);
      if Remembered(was, errItems) { LeftRemembers(was, stock, errItems); }
    }

    /** The purge over quota, and the pass over the clean items. */
    method CleanForQuota(faults: string -> Faults) returns (ghost trail: Trail)
      requires Valid() && used == Total(stock) && (outOfSpace ==> !QuotasOk()) && maxSize > 0
      modifies this`used, this`items, this`stock, this`ages, this`errItems, this`outOfSpace, repr
      ensures Valid() && used == Total(stock) && !outOfSpace
      ensures trail.aged == old(stock) && trail.before == stock && trail.noted == errItems
      ensures QuotaPassed(trail, old(ages), faults, maxSize, old(errItems))
      ensures Remembered(old(stock), old(errItems)) ==> Remembered(stock, errItems)
    {
      ghost var was := stock;
      PurgeOverQuota();
      if Remembered(was, errItems) { LeftRemembers(was, stock, errItems); }
      ghost var between, errBetween := stock, errItems;
      ghost var over := !QuotasOk();
      ghost var tried := PurgeClean(faults);
      trail := Trail(was, between, tried, stock, errItems);
      if Remembered(between, errBetween) && over {
        CleanRemembers(between, stock, faults, errBetween, errItems, tried);
      }
    }

    method CleanRetry(faults: string -> Faults, ghost trail: Trail)
      requires Valid() && used == Total(stock) && trail.before == stock && trail.noted == errItems
      modifies this`stock, this`ages, this`errItems, repr
      ensures Valid() && outOfSpace == old(outOfSpace)
      ensures used == Total(trail.before) && Unbooked(trail.before, faults, trail.noted)
      ensures Retried(trail.before, stock, Plan(trail.before, faults), trail.noted, errItems, trail.noted)
      ensures Remembered(old(stock), old(errItems)) ==> Remembered(stock, errItems)
    {
      AllCanonical();
      RetryFailedResets(faults);
      RetryFrees(trail.before, stock, faults, trail.noted, errItems);
      if Remembered(trail.before, trail.noted) {
        RetryRemembers(trail.before, stock, faults, trail.noted, errItems);
      }
    }
  }
}
