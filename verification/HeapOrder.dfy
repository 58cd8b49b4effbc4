/**
  The order theory of an in-place heap sort over a strict weak order: which swaps
  keep a heap with one hole, and why the root of a heap is a maximum.
 */
module HeapOrder {

  /** The standard requirements on a comparison: irreflexive, transitive, transitive incomparability. */
  ghost predicate StrictWeakOrder<T(!new)>(less: (T, T) -> bool) {
    && (forall a :: !less(a, a))
    && (forall a, b, c :: less(a, b) && less(b, c) ==> less(a, c))
    && (forall a, b, c :: Tied(less, a, b) && Tied(less, b, c) ==> Tied(less, a, c))
  }

  predicate Tied<T>(less: (T, T) -> bool, a: T, b: T) { !less(a, b) && !less(b, a) }

  /** `a` may stand before `b` in a sorted sequence. */
  predicate Le<T>(less: (T, T) -> bool, a: T, b: T) { !less(b, a) }

  lemma LeTransitive<T(!new)>(less: (T, T) -> bool, a: T, b: T, c: T)
    requires StrictWeakOrder(less) && Le(less, a, b) && Le(less, b, c)
    ensures Le(less, a, c)
  {
    assert less(a, b) || Tied(less, a, b);
    assert less(b, c) || Tied(less, b, c);
  }

  lemma LessIsLe<T(!new)>(less: (T, T) -> bool, a: T, b: T)
    requires StrictWeakOrder(less) && less(a, b)
    ensures Le(less, a, b)
  {
  }

  function Parent(k: nat): nat
    requires k > 0
  {
    (k - 1) / 2
  }

  function Swapped<T>(s: seq<T>, i: nat, j: nat): seq<T>
    requires i < |s| && j < |s|
  {
    s[i := s[j]][j := s[i]]
  }

  lemma SwapPermutes<T>(s: seq<T>, i: nat, j: nat)
    requires i < |s| && j < |s|
    ensures multiset(Swapped(s, i, j)) == multiset(s)
  {
  }

  ghost predicate Sorted<T>(less: (T, T) -> bool, s: seq<T>) {
    forall p, q | 0 <= p < q < |s| :: Le(less, s[p], s[q])
  }

  /** `k` respects its parent, when the parent lies at or above `first`. */
  ghost predicate HeapAt<T>(less: (T, T) -> bool, s: seq<T>, first: nat, k: nat) {
    0 < k < |s| && first <= Parent(k) ==> Le(less, s[k], s[Parent(k)])
  }

  ghost predicate Heap<T>(less: (T, T) -> bool, s: seq<T>, first: nat, count: nat) {
    forall k: nat | k < count :: HeapAt(less, s, first, k)
  }

  /** A heap except that node `i` may be below its children, which still respect `i`'s parent. */
  ghost predicate HeapBut<T>(less: (T, T) -> bool, s: seq<T>, first: nat, count: nat, i: nat) {
    && (forall k: nat | k < count && !(k > 0 && Parent(k) == i) :: HeapAt(less, s, first, k))
    && (forall k: nat | 0 < k < count && k < |s| && Parent(k) == i && i > 0 && first <= Parent(i) && i < |s| ::
          Le(less, s[k], s[Parent(i)]))
  }

  lemma SiftStart<T>(less: (T, T) -> bool, s: seq<T>, first: nat, count: nat)
    requires count <= |s| && Heap(less, s, first + 1, count)
    ensures HeapBut(less, s, first, count, first)
  {
    forall k: nat | k < count && !(k > 0 && Parent(k) == first) ensures HeapAt(less, s, first, k) {
      assert HeapAt(less, s, first + 1, k);
    }
  }

  /** Below `i` there is nothing left to repair. */
  lemma SiftLeaf<T>(less: (T, T) -> bool, s: seq<T>, first: nat, count: nat, i: nat)
    requires count <= |s| && HeapBut(less, s, first, count, i) && 2 * i + 1 >= count
    ensures Heap(less, s, first, count)
  {
    assert forall k: nat | 0 < k < count :: Parent(k) != i;
  }

  /** `largest` is a child of `i` at least as large as the other child. */
  ghost predicate LargestChild<T>(less: (T, T) -> bool, s: seq<T>, count: nat, i: nat, largest: nat) {
    && 0 < largest < count <= |s| && Parent(largest) == i
    && forall k: nat | 0 < k < count && Parent(k) == i :: Le(less, s[k], s[largest])
  }

  /** The node at `i` already dominates its children. */
  lemma SiftStop<T(!new)>(less: (T, T) -> bool, s: seq<T>, first: nat, count: nat, i: nat, largest: nat)
    requires StrictWeakOrder(less) && HeapBut(less, s, first, count, i)
    requires LargestChild(less, s, count, i, largest) && !less(s[i], s[largest])
    ensures Heap(less, s, first, count)
  {
    forall k: nat | k < count ensures HeapAt(less, s, first, k) {
      if k > 0 && Parent(k) == i { LeTransitive(less, s[k], s[largest], s[i]); }
    }
  }

  /** Swapping with the largest child moves the hole down one level. */
  lemma SiftSwap<T(!new)>(less: (T, T) -> bool, s: seq<T>, first: nat, count: nat, i: nat, largest: nat)
    requires StrictWeakOrder(less) && first <= i && HeapBut(less, s, first, count, i)
    requires LargestChild(less, s, count, i, largest) && less(s[i], s[largest])
    ensures HeapBut(less, Swapped(s, i, largest), first, count, largest)
  {
    var u := Swapped(s, i, largest);
    LessIsLe(less, s[i], s[largest]);
    forall k: nat | k < count && !(k > 0 && Parent(k) == largest) ensures HeapAt(less, u, first, k) {
      if k > 0 && first <= Parent(k) && Parent(k) != i && k != i { assert HeapAt(less, s, first, k); }
    }
    forall k: nat | 0 < k < count && Parent(k) == largest ensures Le(less, u[k], u[i]) {
      assert HeapAt(less, s, first, k);
    }
  }

  /** The root of a heap is a maximum. */
  lemma {:induction false} RootIsMax<T(!new)>(less: (T, T) -> bool, s: seq<T>, count: nat, k: nat)
    requires StrictWeakOrder(less) && Heap(less, s, 0, count) && k < count <= |s|
    ensures Le(less, s[k], s[0])
  {
    if k > 0 {
      assert HeapAt(less, s, 0, k);
      RootIsMax(less, s, count, Parent(k));
      LeTransitive(less, s[k], s[Parent(k)], s[0]);
    }
  }

  /** Everything before `e` may stand before everything from `e` on, which is sorted. */
  ghost predicate SortedFrom<T>(less: (T, T) -> bool, s: seq<T>, e: nat) {
    && (forall p, q | 0 <= p < e <= q < |s| :: Le(less, s[p], s[q]))
    && (forall p, q | e <= p < q < |s| :: Le(less, s[p], s[q]))
  }

  /** Swaps below `e` do not disturb the sorted part. */
  lemma SwapKeepsSorted<T>(less: (T, T) -> bool, s: seq<T>, e: nat, i: nat, j: nat)
    requires SortedFrom(less, s, e) && i < e <= |s| && j < e
    ensures SortedFrom(less, Swapped(s, i, j), e)
  {
  }

  /** Taking the root to the end of the heap extends the sorted part by one. */
  lemma ExtractKeepsSorted<T(!new)>(less: (T, T) -> bool, s: seq<T>, e: nat)
    requires StrictWeakOrder(less) && 1 < e <= |s| && Heap(less, s, 0, e) && SortedFrom(less, s, e)
    ensures SortedFrom(less, Swapped(s, 0, e - 1), e - 1)
    ensures Heap(less, Swapped(s, 0, e - 1), 1, e - 1)
  {
    var u := Swapped(s, 0, e - 1);
    forall p, q | 0 <= p < e - 1 <= q < |u| ensures Le(less, u[p], u[q]) {
      if q == e - 1 { RootIsMax(less, s, e, if p == 0 then e - 1 else p); }
    }
    forall k: nat | k < e - 1 ensures HeapAt(less, u, 1, k) { assert HeapAt(less, s, 0, k); }
  }
}
