/**
 The write-back queue: items waiting on a heap by expiry, a table of handles, a limit on
 the uploads running at once, and one timer that wakes the queue.
 */
module WriteBackQueue {
  import opened HeapOrder
  import opened Wrappers

  const MAX_UPLOADS: nat := 4
  const MAX_UPLOAD_DELAY: int := 300_000_000_000   // five minutes in nanoseconds

  class WbItem {
    const id: nat
    var name: string
    var size: int
    var index: int
    var expiry: int
    var uploading: bool
    var onHeap: bool
    var delay: int

    constructor (id: nat, name: string, size: int, expiry: int, delay: int)
      ensures this.id == id && this.name == name && this.size == size && this.expiry == expiry
      ensures !uploading && !onHeap && index == -1 && this.delay == delay
    {
      this.id, this.name, this.size, this.expiry, this.delay := id, name, size, expiry, delay;
      index, uploading, onHeap := -1, false, false;
    }

    function Priority(): Key
      reads this`expiry
    {
      Key(expiry, id)
    }
  }

  ghost predicate IsKeys(ks: seq<Key>, items: seq<WbItem>)
    reads items`expiry
  {
    |ks| == |items| && forall i :: 0 <= i < |ks| ==> ks[i] == items[i].Priority()
  }

  lemma {:induction false} KeysExist(items: seq<WbItem>)
    ensures exists ks :: IsKeys(ks, items)
  {
    if items == [] {
      assert IsKeys([], items);
    } else {
      KeysExist(items[..|items| - 1]);
      var ks :| IsKeys(ks, items[..|items| - 1]);
      assert IsKeys(ks + [items[|items| - 1].Priority()], items);
    }
  }

  /** The keys of a sequence of items. */
  ghost function Keys(items: seq<WbItem>): (ks: seq<Key>)
    reads items`expiry
    ensures |ks| == |items| && forall i :: 0 <= i < |ks| ==> ks[i] == items[i].Priority()
  {
    KeysExist(items);
    var ks :| IsKeys(ks, items);
    ks
  }

  /** The index of every item on the heap points back at it, so no item is there twice. */
  ghost predicate Indexed(items: seq<WbItem>)
    reads items`index
  {
    forall i :: 0 <= i < |items| ==> items[i].index == i
  }

  class Queue {
    var items: seq<WbItem>
    ghost var all: set<WbItem>   // every item there ever was

    ghost predicate Valid()
      reads this, all`index, items`expiry, items`index
    {
      && (forall w :: w in items ==> w in all)
      && Indexed(items) && Heap(Keys(items), |items|)
      && (forall w :: w in all && w !in items ==> w.index == -1)
    }

    constructor ()
      ensures Valid() && items == [] && all == {}
    {
      items, all := [], {};
    }

    /** Rearranging the first n places changes nothing else. */
    twostate predicate Shuffled(n: nat)
      reads this, all
    {
      && all == old(all) && |items| == |old(items)| && n <= |items|
      && (forall w :: w in items ==> w in all)
      && items[n..] == old(items)[n..]
      && (forall w :: w in items ==> w in old(items)) && (forall w :: w in old(items) ==> w in items)
      && Indexed(items)
      && (forall w :: w in all && w !in items ==> w.index == old(w.index))
    }

    method Swap(i: nat, j: nat, ghost n: nat)
      requires i < n && j < n <= |items| && Indexed(items) && forall w :: w in items ==> w in all
      modifies this`items, all`index
      ensures Shuffled(n) && Keys(items) == Swapped(old(Keys(items)), i, j)
      ensures items[i] == old(items)[j] && items[j] == old(items)[i]
    {
      ghost var was := items;
      items := items[i := items[j]][j := items[i]];
      items[i].index := i;
      items[j].index := j;
      assert was[i] == items[j] && was[j] == items[i];
      forall w | w in was ensures w in items {
        var k :| 0 <= k < |was| && was[k] == w;
        assert items[if k == i then j else if k == j then i else k] == w;
      }
    }

    /** Sifts the item at j up; a negative j, as of an item off the heap, changes nothing. */
    method Up(j0: int, ghost n: nat)
      requires -1 <= j0 && n <= |items| && Indexed(items) && forall w :: w in items ==> w in all
      requires if j0 < 0 then Heap(Keys(items), n) else HeapUp(Keys(items), n, j0)
      modifies this`items, all`index
      ensures Shuffled(n) && Heap(Keys(items), n)
      ensures j0 < 0 ==> items == old(items)
    {
      var j := j0;
      while true
        invariant -1 <= j && Shuffled(n)
        invariant if j < 0 then Heap(Keys(items), n) else HeapUp(Keys(items), n, j)
        invariant j0 < 0 ==> j == j0 && items == old(items)
        decreases j
      {
        // division truncates toward zero, so 0 and -1 are their own parents
        var i := if j <= 0 then j else (j - 1) / 2;
        if i == j || !Less(items[j].Priority(), items[i].Priority()) {
          if j >= 0 { UpDone(Keys(items), n, j); }
          break;
        }
        UpStep(Keys(items), n, j);
        Swap(i, j, n);
        j := i;
      }
    }

    /** The lesser of the children at j1 and j1 + 1, as far as they are among the first n. */
    method LesserChild(j1: nat, n: nat) returns (j: nat)
      requires j1 < n <= |items| && j1 % 2 == 1
      ensures j < n && (j == j1 || j == j1 + 1)
      ensures forall k :: 0 < k < n && Parent(k) == (j1 - 1) / 2 ==> !Less(items[k].Priority(), items[j].Priority())
    {
      j := j1;   // left child
      var j2 := j1 + 1;
      if j2 < n && Less(items[j2].Priority(), items[j1].Priority()) {
        j := j2; // right child
      }
    }

    /** Sifts the item at i0 down among the first n, as container/heap does it in a loop; tells whether it moved. */
    method Down(i0: int, n: nat) returns (moved: bool)
      requires -1 <= i0 && n <= |items| && Indexed(items) && forall w :: w in items ==> w in all
      requires if 0 <= i0 < n then HeapBut(Keys(items), n, i0) else Heap(Keys(items), n)
      modifies this`items, all`index
      ensures Shuffled(n)
      ensures if moved || !(0 <= i0 < n) then Heap(Keys(items), n) else HeapUp(Keys(items), n, i0)
      ensures if moved then 0 <= i0 < n else items == old(items)
      decreases n - i0
    {
      var j1 := 2 * i0 + 1;
      if j1 >= n || j1 < 0 {
        if 0 <= i0 < n { DownStops(Keys(items), n, i0); }
        return false;
      }
      var j := LesserChild(j1, n);
      if !Less(items[j].Priority(), items[i0].Priority()) {
        DownStops(Keys(items), n, i0);
        return false;
      }
      DownStep(Keys(items), n, i0, j);
      Swap(i0, j, n);
      var further := Down(j, n);
      if !further { UpDone(Keys(items), n, j); }
      return true;
    }

    /** heap.Fix: restores the order after the item at index i changed; off the heap (-1) nothing happens. */
    method Fix(i: int)
      requires -1 <= i < |items| && Indexed(items) && forall w :: w in items ==> w in all
      requires if i < 0 then Heap(Keys(items), |items|) else HeapBut(Keys(items), |items|, i)
      modifies this`items, all`index
      ensures Shuffled(|items|) && Heap(Keys(items), |items|)
      ensures i < 0 ==> items == old(items)
    {
      var moved := Down(i, |items|);
      if !moved {
        Up(i, |items|);
      }
    }

    /** The queue's own Pop: takes the last item off. */
    method PopLast() returns (w: WbItem)
      requires items != [] && Indexed(items) && forall v :: v in items ==> v in all
      modifies this`items, all`index
      ensures all == old(all) && w == old(items)[|old(items)| - 1] && w.index == -1
      ensures items == old(items)[..|old(items)| - 1] && Indexed(items) && w !in items
      ensures forall v :: v in old(items) <==> v in items || v == w
      ensures forall v :: v in all && v != w ==> v.index == old(v.index)
      ensures old(Heap(Keys(items), |items| - 1)) ==> Heap(Keys(items), |items|)
    {
      var n := |items| - 1;
      HeapPrefix(Keys(items), n);
      assert Keys(items)[..n] == Keys(items[..n]);
      w := items[n];
      w.index := -1;
      items := items[..n];
      assert Keys(items) == old(Keys(items))[..n];
    }

    /** heap.Push. */
    method Push(w: WbItem)
      requires Valid() && w in all && w !in items
      modifies this`items, all`index
      ensures Valid() && all == old(all) && w in items && |items| == |old(items)| + 1
      ensures forall v :: v in items ==> v in old(items) || v == w
      ensures forall v :: v in old(items) ==> v in items
    {
      var n := |items|;
      w.index := n;
      items := items + [w];
      assert items[n] == w;
      assert forall k :: 0 <= k < n ==> Keys(items)[k] == old(Keys(items))[k];
      forall k | 0 < k < n ensures Ordered(Keys(items), k) {
        assert Ordered(old(Keys(items)), k);
      }
      Up(n, n + 1);
    }

    /** Swaps the item at index i with the last one. */
    method SwapOut(i: nat)
      requires Valid() && i < |items|
      modifies this`items, all`index
      ensures Shuffled(|items|) && items[|items| - 1] == old(items)[i]
      ensures var n := |items| - 1; if i < n then HeapBut(Keys(items), n, i) else Heap(Keys(items), n)
    {
      TakenOut(Keys(items), |items| - 1, i);
      Swap(i, |items| - 1, |items|);
    }

    /** Restores the order of the first n after the item at index i was replaced. */
    method Sift(i: nat, n: nat)
      requires i <= n <= |items| && Indexed(items) && forall w :: w in items ==> w in all
      requires if i < n then HeapBut(Keys(items), n, i) else Heap(Keys(items), n)
      modifies this`items, all`index
      ensures Shuffled(n) && Heap(Keys(items), n)
    {
      var moved := Down(i, n);
      if !moved && i < n {
        Up(i, n);
      }
    }

    /** The common part of heap.Pop and heap.Remove, for the item at index i. */
    method TakeOut(i: nat) returns (w: WbItem)
      requires Valid() && i < |items|
      modifies this`items, all`index
      ensures Valid() && all == old(all) && w == old(items)[i] && w !in items && |items| == |old(items)| - 1
      ensures forall v :: v in old(items) <==> v in items || v == w
    {
      ghost var was := items;
      SwapOut(i);
      var n := |items| - 1;
      assert items[n..][0] == was[i];
      Sift(i, n);
      assert items[n] == items[n..][0];
      w := PopLast();
    }

    /** heap.Pop: takes off an item with the least key. */
    method Pop() returns (w: WbItem)
      requires Valid() && items != []
      modifies this`items, all`index
      ensures Valid() && all == old(all) && w == old(items)[0] && w !in items && |items| == |old(items)| - 1
      ensures forall v :: v in old(items) <==> v in items || v == w
      ensures forall v :: v in items ==> !Less(v.Priority(), w.Priority())
    {
      ghost var ks := Keys(items);
      forall v | v in items ensures !Less(v.Priority(), items[0].Priority()) {
        var k :| 0 <= k < |items| && items[k] == v;
        RootLeast(ks, |items|, k);
      }
      w := TakeOut(0);
    }

    /** heap.Remove. */
    method Remove(w: WbItem)
      requires Valid() && w in items
      modifies this`items, all`index
      ensures Valid() && all == old(all) && w !in items && |items| == |old(items)| - 1
      ensures forall v :: v in old(items) <==> v in items || v == w
    {
      var k :| 0 <= k < |items| && items[k] == w;
      assert w.index == k;
      var _ := TakeOut(w.index);
    }

    /** _update: changes the expiry of an item and restores the order. */
    method Update(w: WbItem, expiry: int)
      requires Valid() && w in all
      modifies this`items, all`index, w`expiry
      ensures Valid() && all == old(all) && w.expiry == expiry
      ensures w !in old(items) ==> items == old(items)
      ensures forall v :: v in items <==> v in old(items)
    {
      ghost var ks := Keys(items);
      w.expiry := expiry;
      if w in items {
        var k :| 0 <= k < |items| && items[k] == w;
        assert k == w.index;
        Disturb(ks, |items|, w.index, w.Priority());
        assert Keys(items) == ks[w.index := w.Priority()];
      } else {
        assert Keys(items) == ks;
      }
      Fix(w.index);
    }
  }

  /** The last key moved to place i of a heap leaves the others a heap but for that place. */
  lemma TakenOut(ks: seq<Key>, n: nat, i: nat)
    requires i <= n < |ks| && Heap(ks, n + 1)
    ensures var t := Swapped(ks, i, n);
            if i < n then HeapBut(t, n, i) else Heap(t, n)
  {
    var t := Swapped(ks, i, n);
    if i < n {
      Disturb(ks, n + 1, i, ks[n]);
      forall k | 0 < k < n && k != i && Parent(k) != i ensures Ordered(t, k) {
        assert Ordered(ks[i := ks[n]], k);
      }
      forall k | 0 < k < n && Parent(k) == i && 0 < i ensures !Less(t[k], t[Parent(i)]) {
        assert !Less(ks[i := ks[n]][k], ks[i := ks[n]][Parent(i)]);
      }
    } else {
      forall k | 0 < k < n ensures Ordered(t, k) {
        assert Ordered(ks, k);
      }
    }
  }

  /** The delay after one more failure. */
  function Backoff(delay: int): int { if delay * 2 > MAX_UPLOAD_DELAY then MAX_UPLOAD_DELAY else delay * 2 }

  function After(delay: int, failures: nat): int {
    if failures == 0 then delay else Backoff(After(delay, failures - 1))
  }

  function PowerOf2(k: nat): nat { if k == 0 then 1 else 2 * PowerOf2(k - 1) }

  /** After k failures in a row the delay is the first one doubled k times, but never more than five minutes. */
  lemma {:induction false} BackoffLaw(delay: nat, k: nat)
    requires 0 < k
    ensures After(delay, k) == if delay * PowerOf2(k) > 300_000_000_000 then 300_000_000_000 else delay * PowerOf2(k)
    decreases k
  {
    if k == 1 {
      assert After(delay, 0) == delay && PowerOf2(1) == 2 * PowerOf2(0);
    } else {
      BackoffLaw(delay, k - 1);
      assert delay * PowerOf2(k) == 2 * (delay * PowerOf2(k - 1));
    }
  }

  /** Just this item has left the heap. */
  ghost predicate Taken(was: seq<WbItem>, now: seq<WbItem>, w: WbItem) {
    && w in was && w !in now
    && (forall v :: v in was ==> v in now || v == w)
    && (forall v :: v in now ==> v in was)
  }

  /** Just the items in `started`, each once, went from the heap to the running uploads. */
  ghost predicate Moved(was: seq<WbItem>, wasRunning: set<WbItem>, now: seq<WbItem>, running: set<WbItem>,
                        started: seq<WbItem>)
  {
    && running == wasRunning + (set w | w in started)
    && (forall i, j :: 0 <= i < j < |started| ==> started[i] != started[j])
    && (forall w :: w in started ==> w in was && w !in now)
    && (forall v :: v in was ==> v in now || v in started)
    && (forall v :: v in now ==> v in was)
  }

  lemma MovedOne(was: seq<WbItem>, wasRunning: set<WbItem>, mid: seq<WbItem>, midRunning: set<WbItem>,
                 started: seq<WbItem>, now: seq<WbItem>, w: WbItem)
    requires Moved(was, wasRunning, mid, midRunning, started) && Taken(mid, now, w)
    ensures Moved(was, wasRunning, now, midRunning + {w}, started + [w])
  {
    assert (set v | v in started + [w]) == (set v | v in started) + {w};
  }

  /** How an upload ended. */
  datatype Outcome = Uploaded | Cancelled | UploadFailed

  class WriteBack {
    const writeBack: int       // delay before an item is written back
    const queue: Queue
    var lookup: map<nat, WbItem>
    var uploads: nat
    var expiry: Option<int>    // when the timer was last set to fire
    var timer: Option<int>     // when the running timer fires; none once it has
    var pendingRuns: nat       // fired timers whose processItems has not got the lock yet
    var lastId: nat
    var now: int
    ghost var running: set<WbItem>   // items whose upload task has not ended

    /** The onHeap flag is exact, and the heap is one. */
    ghost predicate HeapOk()
      reads queue, queue.all`index, queue.all`onHeap, queue.items`index, queue.items`expiry
    {
      queue.Valid() && forall w {:trigger w in queue.all} :: w in queue.all ==> (w.onHeap <==> w in queue.items)
    }

    /** `uploads` counts the running tasks, which are never on the heap. */
    ghost predicate RunningOk()
      reads this`running, this`uploads, queue, queue.all`onHeap, queue.all`uploading
    {
      && running <= queue.all && uploads == |running| <= MAX_UPLOADS
      && forall w {:trigger w in queue.all} :: w in queue.all ==>
           (w.uploading <==> w in running) && !(w.uploading && w.onHeap)
    }

    /** Every handle leads to its own item, which waits on the heap or is being uploaded. */
    ghost predicate LookupOk()
      reads this`lookup, queue, queue.all`onHeap, queue.all`uploading
    {
      forall h :: h in lookup ==>
        lookup[h] in queue.all && lookup[h].id == h && (lookup[h].onHeap || lookup[h].uploading)
    }

    ghost predicate Booked()
      reads this`running, this`uploads, this`lookup, queue, queue.all`index, queue.all`onHeap, queue.items`index,
            queue.items`expiry, queue.all`uploading
    {
      HeapOk() && RunningOk() && LookupOk()
    }

    /** A set expiry has its timer running, or the timer fired, not early, and its run is still to come. */
    ghost predicate TimerOk()
      reads this`expiry, this`timer, this`now, this`pendingRuns
    {
      && (expiry == None ==> timer == None)
      && (timer.Some? ==> timer == expiry)
      && (expiry.Some? && timer == None ==> expiry.value <= now && pendingRuns > 0)
    }

    /** Something will look at the head of the queue when it is due. */
    ghost predicate Awake()
      reads this`timer, this`pendingRuns, this`uploads, queue, queue.items`expiry
    {
      queue.items != [] ==> timer == Some(queue.items[0].expiry) || pendingRuns > 0 || uploads == MAX_UPLOADS
    }

    ghost predicate Valid()
      reads this, queue, queue.all`index, queue.all`onHeap, queue.items`index, queue.items`expiry, queue.all`uploading
    {
      Booked() && TimerOk() && Awake()
    }

    constructor (writeBack: int, now: int)
      ensures Valid() && fresh(queue) && queue.all == {} && lookup == map[] && running == {} && pendingRuns == 0
      ensures this.writeBack == writeBack && this.now == now && lastId == 0
    {
      this.writeBack, this.now := writeBack, now;
      queue := new Queue();
      lookup, uploads, expiry, timer, pendingRuns, lastId := map[], 0, None, None, 0, 0;
      running := {};
    }

    /** _newExpiry: an item that begins to wait now is due after the write-back delay, or at once without one. */
    function NewExpiry(): (at: int)
      reads this
      ensures writeBack <= 0 ==> at == now
      ensures 0 < writeBack ==> at - now == writeBack
    {
      now + if writeBack > 0 then writeBack else 0
    }

    /** _pushItem: onto the heap unless it is there. */
    method PushItem(w: WbItem)
      requires HeapOk() && RunningOk() && w in queue.all && !w.uploading
      modifies queue`items, queue.all`index, w`onHeap
      ensures HeapOk() && RunningOk() && queue.all == old(queue.all) && w.onHeap
      ensures forall v :: v in queue.items <==> v in old(queue.items) || v == w
      ensures old(LookupBut(w)) ==> LookupOk()
    {
      if !w.onHeap {
        queue.Push(w);
        w.onHeap := true;
      }
    }

    /** _resetTimer: a timer for the head of the queue, or none. */
    method ResetTimer()
      requires HeapOk() && (expiry == None ==> timer == None) && (timer.Some? ==> timer == expiry)
      requires queue.items != [] && expiry == Some(queue.items[0].expiry) && timer == None ==>
                 expiry.value <= now && pendingRuns > 0
      modifies this`expiry, this`timer
      ensures TimerOk() && Awake()
      ensures if queue.items == [] then expiry == None && timer == None
              else
                && expiry == Some(queue.items[0].expiry)
                && (timer == expiry || (expiry == old(expiry) && timer == old(timer)))
    {
      if queue.items == [] {
        StopTimer();
      } else {
        var head := queue.items[0];
        if expiry == Some(head.expiry) {
          return;
        }
        expiry := Some(head.expiry);
        timer := Some(head.expiry);
      }
    }

    /** _stopTimer. */
    method StopTimer()
      requires expiry == None ==> timer == None
      modifies this`expiry, this`timer
      ensures expiry == None && timer == None
    {
      if expiry == None {
        return;
      }
      expiry := None;
      timer := None;
    }

    /** Time passes; nothing else happens. */
    method Tick(elapsed: nat)
      requires Valid()
      modifies this`now
      ensures Valid() && now == old(now) + elapsed
    {
      now := now + elapsed;
    }

    /** The timer fires, never before its time, and starts a run of processItems. */
    method TimerFires()
      requires Valid() && timer.Some? && timer.value <= now
      modifies this`timer, this`pendingRuns
      ensures Valid() && pendingRuns == old(pendingRuns) + 1 && timer == None
    {
      timer := None;
      pendingRuns := pendingRuns + 1;
    }

    /** Puts an item back with a new expiry. */
    method Requeue(w: WbItem, expiry: int)
      requires HeapOk() && RunningOk() && w in queue.all && !w.uploading
      modifies queue`items, queue.all`index, w`onHeap, w`expiry
      ensures HeapOk() && RunningOk() && queue.all == old(queue.all) && w.onHeap && w.expiry == expiry
      ensures forall v :: v in queue.items <==> v in old(queue.items) || v == w
      ensures old(LookupBut(w)) ==> LookupOk()
    {
      PushItem(w);
      queue.Update(w, expiry);
    }

    /** The end of an upload: success drops the handle, anything else queues the item again. */
    method FinishUpload(w: WbItem, outcome: Outcome)
      requires Booked() && w in running
      modifies this`lookup, this`uploads, this`running, queue`items, queue.all`index, w`uploading, w`onHeap, w`expiry,
               w`delay
      ensures Booked() && queue.all == old(queue.all) && running == old(running) - {w}
      ensures outcome.Uploaded? ==> lookup == old(lookup) - {w.id} && queue.items == old(queue.items)
      ensures !outcome.Uploaded? ==> lookup == old(lookup) && w.onHeap && w.expiry == now + w.delay
      ensures outcome.Cancelled? ==> w.delay == writeBack
      ensures outcome.UploadFailed? ==> w.delay == Backoff(old(w.delay))
      ensures outcome.Uploaded? ==> w.expiry == old(w.expiry)
      ensures forall v :: v in queue.items <==> v in old(queue.items) || (v == w && !outcome.Uploaded?)
    {
      EndTask(w);
      if !outcome.Uploaded? {
        // it is tried again later
        Retry(w, outcome);
      } else {
        Unlist(w);
      }
    }

    method EndTask(w: WbItem)
      requires Booked() && w in running
      modifies this`uploads, this`running, w`uploading
      ensures HeapOk() && RunningOk() && LookupBut(w) && running == old(running) - {w}
      ensures !w.uploading && !w.onHeap
    {
      w.uploading := false;
      uploads := uploads - 1;
      running := running - {w};
    }

    method Retry(w: WbItem, outcome: Outcome)
      requires HeapOk() && RunningOk() && LookupBut(w) && w in queue.all && !w.uploading
      modifies queue`items, queue.all`index, w`onHeap, w`expiry, w`delay
      ensures Booked() && queue.all == old(queue.all) && w.onHeap && w.expiry == now + w.delay
      ensures forall v :: v in queue.items <==> v in old(queue.items) || v == w
      ensures w.delay == if outcome.Cancelled? then writeBack else Backoff(old(w.delay))
    {
      w.delay := if outcome.Cancelled? then writeBack
                 else if w.delay * 2 > MAX_UPLOAD_DELAY then MAX_UPLOAD_DELAY else w.delay * 2;
      Requeue(w, now + w.delay);
    }

    /** upload, after the store function returned. */
    method UploadEnds(w: WbItem, outcome: Outcome)
      requires Valid() && w in running
      modifies this`lookup, this`uploads, this`running, this`expiry, this`timer, queue`items, queue.all`index,
               w`uploading, w`onHeap, w`expiry, w`delay
      ensures Valid() && queue.all == old(queue.all) && running == old(running) - {w}
      ensures lookup == if outcome.Uploaded? then old(lookup) - {w.id} else old(lookup)
      ensures forall v :: v in queue.items <==> v in old(queue.items) || (v == w && !outcome.Uploaded?)
      ensures outcome.Cancelled? ==> w.delay == writeBack && w.expiry == now + writeBack
      ensures outcome.UploadFailed? ==> w.delay == Backoff(old(w.delay)) && w.expiry == now + w.delay
    {
      EndUpload(w, outcome);
    }

    method EndUpload(w: WbItem, outcome: Outcome)
      requires Booked() && TimerOk() && w in running
      modifies this`lookup, this`uploads, this`running, this`expiry, this`timer, queue`items, queue.all`index,
               w`uploading, w`onHeap, w`expiry, w`delay
      ensures Valid() && queue.all == old(queue.all) && running == old(running) - {w}
      ensures lookup == if outcome.Uploaded? then old(lookup) - {w.id} else old(lookup)
      ensures forall v :: v in queue.items <==> v in old(queue.items) || (v == w && !outcome.Uploaded?)
      ensures outcome.Cancelled? ==> w.delay == writeBack && w.expiry == now + writeBack
      ensures outcome.Uploaded? ==> w.expiry == old(w.expiry)
      ensures outcome.UploadFailed? ==> w.delay == Backoff(old(w.delay)) && w.expiry == now + w.delay
    {
      FinishUpload(w, outcome);
      ResetTimer();
    }

    /** _cancelUpload and the wait for the upload to end; the item is on the heap afterwards, whatever the outcome. */
    method CancelUpload(w: WbItem, outcome: Outcome)
      requires Booked() && TimerOk() && w in running
      modifies this`lookup, this`uploads, this`running, this`expiry, this`timer, queue`items, queue.all`index,
               w`uploading, w`onHeap, w`expiry, w`delay
      ensures Booked() && TimerOk() && queue.all == old(queue.all) && running == old(running) - {w} && w.onHeap
      ensures lookup == if outcome.Uploaded? then old(lookup) - {w.id} else old(lookup)
      ensures forall v :: v in queue.items <==> v in old(queue.items) || v == w
      ensures outcome.Cancelled? ==> w.expiry == now + writeBack
      ensures outcome.UploadFailed? ==> w.delay == Backoff(old(w.delay)) && w.expiry == now + w.delay
      ensures outcome.Uploaded? ==> w.expiry == old(w.expiry)
    {
      EndUpload(w, outcome);
      PushAgain(w);
    }

    method PushAgain(w: WbItem)
      requires Booked() && w in queue.all && !w.uploading
      modifies queue`items, queue.all`index, w`onHeap
      ensures Booked() && queue.all == old(queue.all) && w.onHeap
      ensures forall v :: v in queue.items <==> v in old(queue.items) || v == w
    {
      assert LookupBut(w);
      PushItem(w);
    }

    /** _newItem: a fresh item under its handle, on the heap. */
    method NewItem(id: nat, name: string, size: int) returns (w: WbItem)
      requires Booked() && TimerOk() && HandedOut() && id <= lastId && id !in lookup
      modifies this`lookup, this`lastId, queue, queue.all`index
      ensures HandedOut() && w.id !in old(lookup)
      ensures Booked() && TimerOk() && fresh(w) && queue.all == old(queue.all) + {w}
      ensures w.id == (if id == 0 then old(lastId) + 1 else id) && lookup == old(lookup)[w.id := w]
      ensures w.onHeap && w.expiry == NewExpiry() && w.name == name && w.delay == writeBack
    {
      var handle := SetID(id);
      w := new WbItem(handle, name, size, NewExpiry(), writeBack);
      Place(w);
    }

    /** A new item gets its handle and its place on the heap. */
    method Place(w: WbItem)
      requires Booked() && TimerOk() && w !in queue.all && w.index == -1 && !w.onHeap && !w.uploading
      modifies this`lookup, queue, queue.all`index, w`index, w`onHeap
      ensures Booked() && TimerOk() && queue.all == old(queue.all) + {w} && w.onHeap
      ensures lookup == old(lookup)[w.id := w]
    {
      Enter(w);
      PushItem(w);
    }

    /** _addItem. */
    method Enter(w: WbItem)
      requires Booked() && TimerOk() && w !in queue.all && w.index == -1 && !w.onHeap && !w.uploading
      modifies this`lookup, queue`all
      ensures HeapOk() && RunningOk() && LookupBut(w) && TimerOk() && queue.all == old(queue.all) + {w}
      ensures lookup == old(lookup)[w.id := w] && queue.items == old(queue.items)
    {
      queue.all := queue.all + {w};
      lookup := lookup[w.id := w];
    }

    /** The branch of Add for a known handle: postpone the item, cancelling its upload if it was modified. */
    method Postpone(w: WbItem, modified: bool, outcome: Outcome)
      requires Booked() && TimerOk() && w in queue.all && (w.onHeap || w.uploading)
      modifies this`lookup, this`uploads, this`running, this`expiry, this`timer, queue`items, queue.all`index,
               w`uploading, w`onHeap, w`expiry, w`delay
      ensures Booked() && TimerOk() && queue.all == old(queue.all)
      ensures w.expiry == NewExpiry() && (w.onHeap <==> !old(w.uploading) || modified)
      ensures lookup == if old(w.uploading) && modified && outcome.Uploaded? then old(lookup) - {w.id} else old(lookup)
    {
      if w.uploading && modified {
        // what is being uploaded is out of date
        CancelUpload(w, outcome);
      }
      queue.Update(w, NewExpiry());
    }

    /** What Add does to the item of a handle: w, its place, and the table afterwards. */
    twostate predicate Added(id: nat, new w: WbItem, modified: bool, outcome: Outcome)
      reads this`lookup, w`onHeap
    {
      if id in old(lookup) then
        && w == old(lookup[id])
        && (w.onHeap <==> !old(lookup[id].uploading) || modified)
        && lookup == if old(lookup[id].uploading) && modified && outcome.Uploaded? then old(lookup) - {w.id}
                     else old(lookup)
      else
        && fresh(w) && w.onHeap && w.id == (if id == 0 then old(lastId) + 1 else id)
        && lookup == old(lookup)[w.id := w]
    }

    /** No other item is moved, postponed or renamed. */
    twostate predicate OthersKept(new w: WbItem)
      reads queue, queue.all
    {
      forall v :: v in old(queue.all) && v in queue.all && v != w ==>
        && v.expiry == old(v.expiry) && v.onHeap == old(v.onHeap) && v.uploading == old(v.uploading)
        && v.delay == old(v.delay) && v.name == old(v.name) && v.size == old(v.size)
    }

    method Enqueue(id: nat, name: string, size: int, modified: bool, outcome: Outcome) returns (w: WbItem)
      requires Booked() && TimerOk() && HandedOut() && id <= lastId
      modifies this`lookup, this`lastId, this`uploads, this`running, this`expiry, this`timer, queue, queue.all
      ensures Booked() && TimerOk() && fresh(queue.all - old(queue.all)) && w in queue.all
      ensures w.expiry == NewExpiry() && Added(id, w, modified, outcome) && OthersKept(w)
      ensures HandedOut()
      ensures id !in old(lookup) ==> w.id !in old(lookup) && w.name == name && w.delay == writeBack
    {
      if id !in lookup {
        w := NewItem(id, name, size);
      } else {
        w := lookup[id];
        Postpone(w, modified, outcome);
      }
    }

    /** Every handle in the table has been handed out. */
    ghost predicate HandedOut()
      reads this`lookup, this`lastId
    {
      forall h :: h in lookup ==> h <= lastId
    }

    /** SetID: the next handle, unless there is one. */
    method SetID(id: nat) returns (handle: nat)
      requires HandedOut()
      modifies this`lastId
      ensures HandedOut()
      ensures if id == 0 then handle == lastId == old(lastId) + 1 && handle !in lookup
              else handle == id && lastId == old(lastId)
    {
      handle := id;
      if id == 0 {
        lastId := lastId + 1;
        handle := lastId;
      }
    }

    /** Add: a new item, never under another one's handle, or a known one with its wait started again. */
    method Add(id: nat, name: string, size: int, modified: bool, outcome: Outcome) returns (w: WbItem)
      requires Valid() && HandedOut() && id <= lastId
      modifies this`lookup, this`lastId, this`uploads, this`running, this`expiry, this`timer, queue, queue.all
      ensures Valid() && HandedOut() && fresh(queue.all - old(queue.all))
      ensures w.expiry == NewExpiry() && w.size == size
      ensures id !in old(lookup) ==> w.id !in old(lookup) && w.name == name && w.delay == writeBack
      ensures Added(id, w, modified, outcome) && OthersKept(w)
    {
      w := Enqueue(id, name, size, modified, outcome);
      Resize(w, size);
    }

    /** The end of Add. */
    method Resize(w: WbItem, size: int)
      requires Booked() && TimerOk()
      modifies w`size, this`expiry, this`timer
      ensures Valid() && w.size == size
    {
      w.size := size;
      ResetTimer();
    }

    /** Takes an item that is on the heap off it and out of the table. */
    method Forget(w: WbItem)
      requires Booked() && w in queue.all && w.onHeap
      modifies this`lookup, queue`items, queue.all`index, w`onHeap
      ensures Booked() && queue.all == old(queue.all) && !w.onHeap && !w.uploading
      ensures lookup == old(lookup) - {w.id}
    {
      queue.Remove(w);
      w.onHeap := false;
      Unlist(w);
    }

    /** _delItem. */
    method Unlist(w: WbItem)
      requires HeapOk() && RunningOk() && LookupBut(w)
      modifies this`lookup
      ensures Booked() && lookup == old(lookup) - {w.id}
    {
      lookup := lookup - {w.id};
    }

    method Withdraw(w: WbItem, outcome: Outcome)
      requires Booked() && TimerOk() && w in queue.all && (w.onHeap || w.uploading)
      modifies this`lookup, this`uploads, this`running, this`expiry, this`timer, queue`items, queue.all`index,
               w`uploading, w`onHeap, w`expiry, w`delay
      ensures Booked() && TimerOk() && queue.all == old(queue.all) && !w.onHeap && !w.uploading
      ensures lookup == old(lookup) - {w.id}
    {
      if w.uploading {
        CancelUpload(w, outcome);
      }
      Forget(w);
    }

    /** Items with another handle are neither moved nor postponed. */
    twostate predicate KeptBut(id: nat)
      reads queue, queue.all
    {
      forall v :: v in old(queue.all) && v in queue.all && v.id != id ==>
        && v.onHeap == old(v.onHeap) && v.uploading == old(v.uploading)
        && v.expiry == old(v.expiry) && v.delay == old(v.delay)
    }

    /** _remove: cancels a write-back and takes the item off the queue. */
    method RemoveLocked(id: nat, outcome: Outcome) returns (found: bool)
      requires Booked() && TimerOk()
      modifies this`lookup, this`uploads, this`running, this`expiry, this`timer, queue`items
      modifies queue.all`index, queue.all`uploading, queue.all`onHeap, queue.all`expiry, queue.all`delay
      ensures Booked() && TimerOk() && Awake() && queue.all == old(queue.all)
      ensures (found <==> id in old(lookup)) && lookup == old(lookup) - {id}
      ensures KeptBut(id)
    {
      found := id in lookup;
      if found {
        Withdraw(lookup[id], outcome);
      }
      ResetTimer();
    }

    /** The loop of Rename: removes every other item that carries the name. */
    method RemoveNamesakes(id: nat, name: string)
      requires Booked() && TimerOk()
      modifies this`lookup, this`uploads, this`running, this`expiry, this`timer, queue`items
      modifies queue.all`index, queue.all`uploading, queue.all`onHeap, queue.all`expiry, queue.all`delay
      ensures Booked() && TimerOk() && queue.all == old(queue.all)
      ensures forall h :: h in lookup ==> h in old(lookup) && lookup[h] == old(lookup)[h]
      ensures forall h :: h in lookup && h != id ==> lookup[h].name != name
      ensures forall h :: h in old(lookup) && (h == id || old(lookup[h].name) != name) ==> h in lookup
      ensures forall v :: v in queue.all && v.id == id ==> v.onHeap == old(v.onHeap)
      ensures forall h :: h in lookup ==> lookup[h].expiry == old(lookup[h].expiry)
    {
      ghost var was := lookup;
      var todo := lookup.Keys;
      while todo != {}
        invariant Booked() && TimerOk() && queue.all == old(queue.all)
        invariant forall h :: h in lookup ==> h in was && lookup[h] == was[h]
        invariant forall h :: h in lookup && h != id && h !in todo ==> lookup[h].name != name
        invariant forall h :: h in was && (h == id || was[h].name != name) ==> h in lookup
        invariant forall v :: v in queue.all && v.id == id ==> v.onHeap == old(v.onHeap)
        invariant forall h :: h in lookup ==> lookup[h].expiry == old(lookup[h].expiry)
        decreases |todo|
      {
        var e :| e in todo;
        todo := todo - {e};
        if e in lookup && e != id && lookup[e].name == name {
          var outcome := *;
          var _ := RemoveLocked(e, outcome);
        }
      }
    }

    /** Rename: the item gets the name, and nobody else has it; its wait starts again. */
    method Rename(id: nat, name: string, outcome: Outcome)
      requires Valid()
      modifies this`lookup, this`uploads, this`running, this`expiry, this`timer, queue`items, queue.all
      ensures Valid() && queue.all == old(queue.all)
      ensures id !in old(lookup) ==> lookup == old(lookup)
      ensures id in old(lookup) ==> var w := old(lookup[id]); w.name == name && w.onHeap && w.expiry == NewExpiry()
      ensures id in old(lookup) ==> NameTaken(id, name, old(lookup[id].uploading) && outcome.Uploaded?)
    {
      if id in lookup {
        RenameKnown(lookup[id], id, name, outcome);
      }
    }

    /** Nobody else has the name, and those that had another one stay and wait as before. */
    twostate predicate NameTaken(id: nat, name: string, gone: bool)
      reads this`lookup, queue, queue.all
    {
      && (id in lookup <==> !gone) && (forall h :: h in lookup ==> h in old(lookup))
      && (forall h :: h in lookup && h != id ==> lookup[h] in queue.all && lookup[h].name != name)
      && (forall h :: h in old(lookup) && h != id && old(lookup[h].name) != name ==>
            && h in lookup && lookup[h] == old(lookup[h]) && lookup[h] in queue.all
            && lookup[h].expiry == old(lookup[h].expiry))
    }

    /** The entries of other handles are as they were. */
    twostate predicate OthersKnown(id: nat)
      reads this`lookup, queue, queue.all
    {
      && (forall h :: h in lookup && h != id ==> h in old(lookup) && lookup[h] in queue.all)
      && (forall h :: h in old(lookup) && h != id ==>
            h in lookup && lookup[h] == old(lookup[h]) && lookup[h] in queue.all
            && lookup[h].name == old(lookup[h].name) && lookup[h].expiry == old(lookup[h].expiry))
    }

    method RenameKnown(w: WbItem, id: nat, name: string, outcome: Outcome)
      requires Valid() && id in lookup && w == lookup[id]
      modifies this`lookup, this`uploads, this`running, this`expiry, this`timer, queue`items, queue.all
      ensures Valid() && queue.all == old(queue.all) && w.name == name && w.onHeap && w.expiry == NewExpiry()
      ensures NameTaken(id, name, old(w.uploading) && outcome.Uploaded?)
    {
      Interrupt(w, outcome);
      TakeName(w, id, name);
    }

    /** An upload that runs is cancelled, so that the item is on the heap. */
    method Interrupt(w: WbItem, outcome: Outcome)
      requires Booked() && TimerOk() && w in queue.all && (w.onHeap || w.uploading)
      modifies this`lookup, this`uploads, this`running, this`expiry, this`timer, queue`items, queue.all`index,
               w`uploading, w`onHeap, w`expiry, w`delay
      ensures Booked() && TimerOk() && queue.all == old(queue.all) && w.onHeap
      ensures lookup == if old(w.uploading) && outcome.Uploaded? then old(lookup) - {w.id} else old(lookup)
      ensures OthersKnown(w.id)
    {
      if w.uploading {
        CancelUpload(w, outcome);
      }
    }

    /** The item gets the name, and whoever had it goes. */
    method TakeName(w: WbItem, id: nat, name: string)
      requires Booked() && TimerOk() && w in queue.all && w.onHeap && w.id == id
      modifies this`lookup, this`uploads, this`running, this`expiry, this`timer, queue`items, queue.all
      ensures Valid() && queue.all == old(queue.all)
      ensures w.name == name && w.onHeap && w.expiry == NewExpiry() && NameTaken(id, name, id !in old(lookup))
    {
      RemoveNamesakes(id, name);
      Named(w, id, name);
    }

    /** The end of Rename. */
    method Named(w: WbItem, id: nat, name: string)
      requires Booked() && TimerOk() && w in queue.all && w.onHeap && w.id == id
      modifies this`expiry, this`timer, queue`items, queue.all`index, w`name, w`expiry
      ensures Valid() && queue.all == old(queue.all) && w.name == name && w.onHeap && w.expiry == NewExpiry()
      ensures lookup == old(lookup)
    {
      w.name := name;
      Rearm(w, NewExpiry());
    }

    /** An item gets a new expiry, and the timer follows. */
    method Rearm(w: WbItem, expiry': int)
      requires Booked() && TimerOk() && w in queue.all
      modifies this`expiry, this`timer, queue`items, queue.all`index, w`expiry
      ensures Valid() && queue.all == old(queue.all) && w.expiry == expiry'
      ensures !w.onHeap ==> queue.items == old(queue.items)
    {
      queue.Update(w, expiry');
      ResetTimer();
    }

    /** SetExpiry: at the given time, or relative to the item's own. */
    method SetExpiry(id: nat, at: Option<int>, relative: int) returns (found: bool)
      requires Valid()
      modifies this`expiry, this`timer, queue`items, queue.all`index, queue.all`expiry
      ensures Valid() && queue.all == old(queue.all) && lookup == old(lookup) && (found <==> id in lookup)
      ensures found ==> lookup[id].expiry == (if at.Some? then at.value else old(lookup[id].expiry)) + relative
      ensures found && !lookup[id].onHeap ==> queue.items == old(queue.items)
      ensures forall v :: v in queue.all && v.id != id ==> v.expiry == old(v.expiry)
    {
      if id !in lookup {
        return false;
      }
      var w := lookup[id];
      var expiry' := (if at.Some? then at.value else w.expiry) + relative;
      Rearm(w, expiry');
      return true;
    }

    // ---------- processItems ----------

    /** Pops the head and starts its upload. */
    method StartHead() returns (w: WbItem)
      requires Booked() && queue.items != [] && uploads < MAX_UPLOADS
      modifies this`uploads, this`running, queue`items, queue.all`index, queue.all`onHeap, queue.all`uploading
      ensures Booked() && queue.all == old(queue.all) && w == old(queue.items)[0] && w in running
      ensures running == old(running) + {w} && |queue.items| < |old(queue.items)|
      ensures Taken(old(queue.items), queue.items, w)
      ensures forall v :: v in queue.items ==> !Less(v.Priority(), w.Priority())
      ensures expiry == old(expiry) && timer == old(timer) && pendingRuns == old(pendingRuns) && lookup == old(lookup)
    {
      w := PopItem();
      MarkRunning(w);
    }

    method MarkRunning(w: WbItem)
      requires HeapOk() && RunningOk() && LookupBut(w) && w in queue.all
      requires !w.onHeap && !w.uploading && uploads < MAX_UPLOADS
      modifies this`uploads, this`running, w`uploading
      ensures Booked() && running == old(running) + {w}
    {
      w.uploading := true;
      uploads := uploads + 1;
      running := running + {w};
    }

    /** LookupOk, but that w may be nowhere. */
    ghost predicate LookupBut(w: WbItem)
      reads this`lookup, queue, queue.all`onHeap, queue.all`uploading
    {
      forall h :: h in lookup ==>
        lookup[h] in queue.all && lookup[h].id == h && (lookup[h].onHeap || lookup[h].uploading || lookup[h] == w)
    }

    /** _popItem. */
    method PopItem() returns (w: WbItem)
      requires Booked() && queue.items != []
      modifies queue`items, queue.all`index, queue.all`onHeap
      ensures HeapOk() && RunningOk() && LookupBut(w) && queue.all == old(queue.all)
      ensures w == old(queue.items)[0] && w in queue.all
      ensures !w.onHeap && !w.uploading && |queue.items| < |old(queue.items)|
      ensures Taken(old(queue.items), queue.items, w)
      ensures forall v :: v in queue.items ==> !Less(v.Priority(), w.Priority())
    {
      assert queue.items[0] in queue.items;
      w := queue.Pop();
      w.onHeap := false;
    }

    /** One round of the loop: what is started now comes after what was started before. */
    method StartNext(ghost order: seq<Key>) returns (w: WbItem)
      requires Booked() && queue.items != [] && uploads < MAX_UPLOADS && queue.items[0].expiry <= now
      requires InOrder(order) && AllAfter(order)
      modifies this`now, this`uploads, this`running, queue`items, queue.all`index, queue.all`onHeap, queue.all`uploading
      ensures Booked() && queue.all == old(queue.all) && old(now) <= now && |queue.items| < |old(queue.items)|
      ensures running == old(running) + {w} && w.expiry <= now && Taken(old(queue.items), queue.items, w)
      ensures InOrder(order + [w.Priority()]) && AllAfter(order + [w.Priority()])
      ensures expiry == old(expiry) && timer == old(timer) && pendingRuns == old(pendingRuns) && lookup == old(lookup)
    {
      assert queue.items[0] in queue.items;
      w := StartHead();
      OrderSnoc(order, w.Priority());
      // the clock goes on
      var elapsed: int :| 0 <= elapsed;
      now := now + elapsed;
    }

    /** What was started is due, in order, and before whatever is still on the heap. */
    ghost predicate Started(started: seq<WbItem>)
      reads this`running, this`now, queue, queue.items`expiry, started`expiry
    {
      && InOrder(Keys(started)) && AllAfter(Keys(started))
      && forall w :: w in started ==> w in running && w.expiry <= now
    }

    /** One more is started. */
    method StartOne(started: seq<WbItem>, ghost was: seq<WbItem>, ghost wasRunning: set<WbItem>)
      returns (started': seq<WbItem>)
      requires Booked() && queue.items != [] && uploads < MAX_UPLOADS
      requires queue.items[0].expiry <= now && Started(started)
      requires Moved(was, wasRunning, queue.items, running, started)
      modifies this`now, this`uploads, this`running, queue`items, queue.all`index, queue.all`onHeap, queue.all`uploading
      ensures Booked() && queue.all == old(queue.all) && old(now) <= now && |queue.items| < |old(queue.items)|
      ensures Started(started') && Moved(was, wasRunning, queue.items, running, started')
      ensures expiry == old(expiry) && timer == old(timer) && pendingRuns == old(pendingRuns) && lookup == old(lookup)
    {
      ghost var order, mid, midRunning := Keys(started), queue.items, running;
      var w := StartNext(order);
      started' := started + [w];
      assert Keys(started') == order + [w.Priority()];
      MovedOne(was, wasRunning, mid, midRunning, started, queue.items, w);
    }

    /** The loop of processItems. */
    method StartDue() returns (started: seq<WbItem>, atLimit: bool)
      requires Booked()
      modifies this`now, this`uploads, this`running, queue`items, queue.all`index, queue.all`onHeap, queue.all`uploading
      ensures Booked() && queue.all == old(queue.all) && old(now) <= now
      ensures Moved(old(queue.items), old(running), queue.items, running, started) && Started(started)
      ensures atLimit ==> uploads == MAX_UPLOADS && queue.items != [] && queue.items[0].expiry <= now
      ensures !atLimit ==> queue.items == [] || queue.items[0].expiry > now
      ensures expiry == old(expiry) && timer == old(timer) && pendingRuns == old(pendingRuns) && lookup == old(lookup)
    {
      started, atLimit := [], false;
      while queue.items != [] && queue.items[0].expiry <= now
        invariant Booked() && queue.all == old(queue.all) && old(now) <= now && Started(started)
        invariant Moved(old(queue.items), old(running), queue.items, running, started)
        invariant expiry == old(expiry) && timer == old(timer)
        invariant pendingRuns == old(pendingRuns) && lookup == old(lookup)
        decreases |queue.items|
      {
        // if the transfer limit is reached, do not restart the timer
        if uploads >= MAX_UPLOADS {
          return started, true;
        }
        started := StartOne(started, old(queue.items), old(running));
      }
    }

    /** What is still on the heap does not come before any of `order`. */
    ghost predicate AllAfter(order: seq<Key>)
      reads queue, queue.items`expiry
    {
      forall v, i :: v in queue.items && 0 <= i < |order| ==> !Less(v.Priority(), order[i])
    }

    /**
     A run of processItems: starts what is due, in order, and stops only when the limit is
     reached or nothing is due; then it sees to the next wake-up.
     */
    method ProcessItems() returns (started: seq<WbItem>)
      requires Valid() && pendingRuns > 0
      modifies this`pendingRuns, this`now, this`uploads, this`running, this`expiry, this`timer
      modifies queue`items, queue.all`index, queue.all`onHeap, queue.all`uploading
      ensures Valid() && queue.all == old(queue.all) && lookup == old(lookup) && pendingRuns == old(pendingRuns) - 1
      ensures Started(started) && Moved(old(queue.items), old(running), queue.items, running, started)
      ensures uploads == MAX_UPLOADS || queue.items == [] || queue.items[0].expiry > now
      ensures timer == NextRun()
    {
      pendingRuns := pendingRuns - 1;
      started := RunDue();
    }

    /** When the queue must be looked at next: when its head is due, but not for one that is due already. */
    function NextRun(): Option<int>
      reads this`now, queue, queue.items`expiry
    {
      if queue.items == [] || queue.items[0].expiry <= now then None else Some(queue.items[0].expiry)
    }

    method RunDue() returns (started: seq<WbItem>)
      requires Booked() && TimerSane()
      modifies this`now, this`uploads, this`running, this`expiry, this`timer
      modifies queue`items, queue.all`index, queue.all`onHeap, queue.all`uploading
      ensures Valid() && queue.all == old(queue.all)
      ensures Started(started) && Moved(old(queue.items), old(running), queue.items, running, started)
      ensures uploads == MAX_UPLOADS || queue.items == [] || queue.items[0].expiry > now
      ensures timer == NextRun()
    {
      var atLimit;
      started, atLimit := StartDue();
      WindUp(atLimit);
    }

    /** The timer, if it runs, is set for the expiry, and if it has fired, not early. */
    ghost predicate TimerSane()
      reads this`expiry, this`timer, this`now
    {
      && (expiry == None ==> timer == None) && (timer.Some? ==> timer == expiry)
      && (expiry.Some? && timer == None ==> expiry.value <= now)
    }

    /** The end of processItems: a timer for what is not due yet, and none at the limit. */
    method WindUp(atLimit: bool)
      requires Booked() && TimerSane()
      requires if atLimit then uploads == MAX_UPLOADS && queue.items != [] && queue.items[0].expiry <= now
               else queue.items == [] || queue.items[0].expiry > now
      modifies this`expiry, this`timer
      ensures Valid() && timer == NextRun()
    {
      if !atLimit {
        ResetTimer();
      } else {
        StopTimer();
      }
    }
  }
}
