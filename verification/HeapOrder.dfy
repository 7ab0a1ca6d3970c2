/**
 Binary heaps of keys as sequences: what one sift step of container/heap keeps, and that
 the root is least.  A key is an expiry time with the handle that breaks ties.
 */
module HeapOrder {

  datatype Key = Key(expiry: int, id: nat)

  predicate Less(a: Key, b: Key) {
    if a.expiry == b.expiry then a.id < b.id else a.expiry < b.expiry
  }

  function Parent(k: nat): nat
    requires 0 < k
  {
    (k - 1) / 2
  }

  function Swapped(ks: seq<Key>, i: nat, j: nat): seq<Key>
    requires i < |ks| && j < |ks|
  {
    ks[i := ks[j]][j := ks[i]]
  }

  /** Position k is not before its parent. */
  predicate Ordered(ks: seq<Key>, k: nat)
    requires 0 < k < |ks|
  {
    !Less(ks[k], ks[Parent(k)])
  }

  /** The first n keys form a heap. */
  ghost predicate Heap(ks: seq<Key>, n: nat)
    requires n <= |ks|
  {
    forall k :: 0 < k < n ==> Ordered(ks, k)
  }

  /** A heap but for position j, which may be before its parent. */
  ghost predicate HeapUp(ks: seq<Key>, n: nat, j: nat)
    requires n <= |ks|
  {
    && j < n
    && (forall k :: 0 < k < n && k != j ==> Ordered(ks, k))
    && (forall k :: 0 < k < n && Parent(k) == j && 0 < j ==> !Less(ks[k], ks[Parent(j)]))
  }

  /** A heap but for position i, which may be out of order with its parent and its children. */
  ghost predicate HeapBut(ks: seq<Key>, n: nat, i: nat)
    requires n <= |ks|
  {
    && i < n
    && (forall k :: 0 < k < n && k != i && Parent(k) != i ==> Ordered(ks, k))
    && (forall k :: 0 < k < n && Parent(k) == i && 0 < i ==> !Less(ks[k], ks[Parent(i)]))
  }

  lemma UpStep(ks: seq<Key>, n: nat, j: nat)
    requires n <= |ks| && HeapUp(ks, n, j) && 0 < j && Less(ks[j], ks[Parent(j)])
    ensures HeapUp(Swapped(ks, Parent(j), j), n, Parent(j))
  {
    var i := Parent(j);
    var t := Swapped(ks, i, j);
    forall k | 0 < k < n && k != i ensures Ordered(t, k) {
      assert k != j ==> Ordered(ks, k);
      assert 0 < i ==> Ordered(ks, i);
    }
    forall k | 0 < k < n && Parent(k) == i && 0 < i ensures !Less(t[k], t[Parent(i)]) {
      assert Ordered(ks, i);
      assert k != j ==> Ordered(ks, k);
    }
  }

  lemma UpDone(ks: seq<Key>, n: nat, j: nat)
    requires n <= |ks| && HeapUp(ks, n, j) && (j == 0 || Ordered(ks, j))
    ensures Heap(ks, n)
  {
  }

  /** Moving the lesser child up leaves a heap but for the child's place, now in order with its parent. */
  lemma DownStep(ks: seq<Key>, n: nat, i: nat, j: nat)
    requires n <= |ks| && HeapBut(ks, n, i) && 0 < j < n && Parent(j) == i
    requires Less(ks[j], ks[i])
    requires forall k :: 0 < k < n && Parent(k) == i ==> !Less(ks[k], ks[j])
    ensures var t := Swapped(ks, i, j); HeapBut(t, n, j) && Ordered(t, j)
  {
    var t := Swapped(ks, i, j);
    forall k | 0 < k < n && k != j && Parent(k) != j ensures Ordered(t, k) {
      assert k != i && Parent(k) != i ==> Ordered(ks, k);
    }
    forall k | 0 < k < n && Parent(k) == j ensures !Less(t[k], t[Parent(j)]) {
      assert Ordered(ks, k);
    }
  }

  /** When no child is before position i, only its place above is open. */
  lemma DownStops(ks: seq<Key>, n: nat, i: nat)
    requires n <= |ks| && HeapBut(ks, n, i)
    requires forall k :: 0 < k < n && Parent(k) == i ==> !Less(ks[k], ks[i])
    ensures HeapUp(ks, n, i)
    ensures i == 0 || Ordered(ks, i) ==> Heap(ks, n)
  {
    forall k | 0 < k < n && k != i ensures Ordered(ks, k) {
    }
  }

  /** Changing one key of a heap, or putting any key in one place, leaves a heap but for that place. */
  lemma Disturb(ks: seq<Key>, n: nat, i: nat, key: Key)
    requires i < n <= |ks| && Heap(ks, n)
    ensures HeapBut(ks[i := key], n, i)
  {
    var t := ks[i := key];
    forall k | 0 < k < n && k != i && Parent(k) != i ensures Ordered(t, k) {
      assert Ordered(ks, k);
    }
    forall k | 0 < k < n && Parent(k) == i && 0 < i ensures !Less(t[k], t[Parent(i)]) {
      assert Ordered(ks, k) && Ordered(ks, i);
    }
  }

  /** The root of a heap is least. */
  lemma {:induction false} RootLeast(ks: seq<Key>, n: nat, k: nat)
    requires k < n <= |ks| && Heap(ks, n)
    ensures !Less(ks[k], ks[0])
    decreases k
  {
    if k > 0 {
      assert Ordered(ks, k);
      RootLeast(ks, n, Parent(k));
    }
  }

  lemma HeapPrefix(ks: seq<Key>, n: nat)
    requires n <= |ks|
    ensures Heap(ks, n) ==> Heap(ks[..n], n)
  {
    if Heap(ks, n) {
      forall k | 0 < k < n ensures Ordered(ks[..n], k) {
        assert Ordered(ks, k);
      }
    }
  }

  /** Keys in non-decreasing order: by expiry, ties by handle. */
  ghost predicate InOrder(ks: seq<Key>) {
    forall i, j :: 0 <= i < j < |ks| ==> !Less(ks[j], ks[i])
  }

  lemma OrderSnoc(ks: seq<Key>, k: Key)
    requires InOrder(ks) && forall i :: 0 <= i < |ks| ==> !Less(k, ks[i])
    ensures InOrder(ks + [k])
  {
  }

  /** Of two different keys one comes first, never the one that expires later. */
  lemma LessTotal(a: Key, b: Key)
    ensures a != b ==> (Less(a, b) <==> !Less(b, a))
    ensures !Less(a, a) && (Less(a, b) ==> a.expiry <= b.expiry)
  {
  }

  lemma SameEmpty(a: seq<Key>, b: seq<Key>)
    requires forall k :: k in a <==> k in b
    ensures a == [] <==> b == []
  {
    if a != [] {
      assert a[0] in b;
    }
    if b != [] {
      assert b[0] in a;
    }
  }

  /** There is one order: the same keys, each once, are in order in one way only. */
  lemma {:induction false} OrderDetermined(a: seq<Key>, b: seq<Key>)
    requires InOrder(a) && InOrder(b)
    requires forall i, j :: 0 <= i < j < |a| ==> a[i] != a[j]
    requires forall i, j :: 0 <= i < j < |b| ==> b[i] != b[j]
    requires forall k :: k in a <==> k in b
    ensures a == b
    decreases |a|
  {
    SameEmpty(a, b);
    if a != [] {
      assert a[0] in b && b[0] in a;
      var i :| 0 <= i < |b| && b[i] == a[0];
      var j :| 0 <= j < |a| && a[j] == b[0];
      LessTotal(a[0], b[0]);
      assert a[0] == b[0];
      forall k | k in a[1..] ensures k in b[1..] {
        var m :| 0 <= m < |a[1..]| && a[1..][m] == k;
        assert a[m + 1] == k && k in b;
      }
      forall k | k in b[1..] ensures k in a[1..] {
        var m :| 0 <= m < |b[1..]| && b[1..][m] == k;
        assert b[m + 1] == k && k in a;
      }
      OrderDetermined(a[1..], b[1..]);
    }
  }
}
