/**
  In-place heap sort over the container's elements: values are swapped between
  fixed locations, so no location changes and every intermediate state holds a
  permutation of the original values.
 */
module HiveSort {
  import opened HiveBlock
  import opened HiveModel
  import opened HiveModelProofs
  import opened HiveTraversal
  import opened HiveElements
  import opened HiveContainer
  import opened HiveAlgorithms
  import opened HeapOrder
  import Proofs = HiveBlockProofs

  // ----- Writing one value

  function SetValue<T>(h: Hive<T>, l: Loc, v: T): Hive<T>
    requires l.block in h.store && l.index < |h.store[l.block].slots|
  {
    var b := h.store[l.block];
    h.(store := h.store[l.block := b.(slots := b.slots[l.index := Live(v)])])
  }

  lemma OverwriteBlock<T>(b: Block<T>, i: nat, v: T)
    requires HiveBlock.Valid(b) && i in Contents(b)
    ensures i < |b.slots|
    ensures var b' := b.(slots := b.slots[i := Live(v)]);
            && HiveBlock.Valid(b') && Contents(b') == Contents(b)[i := v]
            && b'.liveCount == b.liveCount && b'.capacity == b.capacity && (HasSpace(b') <==> HasSpace(b))
  {
    var fl :| BlockInv(b, fl);
    BlockFacts(b);
    Proofs.LiveNotNode(b, fl, i);
    var b' := b.(slots := b.slots[i := Live(v)]);
    forall p ensures NodeOk(b'.slots, fl, p) { assert NodeOk(b.slots, fl, p); }
    assert Contents(b') == Contents(b)[i := v];
    assert BlockInv(b', fl);
  }

  lemma SetValueKeeps<T>(h: Hive<T>, l: Loc, v: T)
    requires Inv(h) && LiveAt(h, l)
    ensures l.block in h.store && l.index < |h.store[l.block].slots|
    ensures var h' := SetValue(h, l, v);
            && Inv(h') && (forall m: Loc :: LiveAt(h', m) <==> LiveAt(h, m))
            && h'.order == h.order && h' == h.(store := h'.store) && h'.store.Keys == h.store.Keys
            && (forall m: Loc | LiveAt(h, m) :: ValueAt(h', m) == if m == l then v else ValueAt(h, m))
  {
    hide HiveBlock.Valid, Contents, HasSpace;
    assert BlockOk(h, l.block);
    OverwriteBlock(h.store[l.block], l.index, v);
    var h' := SetValue(h, l, v);
    BytesKeep(h, l.block, h'.store[l.block], h');
  }

  /** Swapping two elements swaps two entries of the value sequence and keeps the traversal. */
  lemma SwapKeeps<T>(h: Hive<T>, t: seq<Loc>, i: nat, j: nat)
    requires Inv(h) && Traversal(h, t) && i < |t| && j < |t|
    ensures LiveAt(h, t[i]) && LiveAt(h, t[j])
    ensures t[i].block in h.store && t[i].index < |h.store[t[i].block].slots|
    ensures var h1 := SetValue(h, t[i], ValueAt(h, t[j]));
            && t[j].block in h1.store && t[j].index < |h1.store[t[j].block].slots|
            && var h2 := SetValue(h1, t[j], ValueAt(h, t[i]));
            && Inv(h2) && Traversal(h2, t) && Values(h2, t) == Swapped(Values(h, t), i, j)
            && h2 == h.(store := h2.store)
  {
    hide Inv, LiveAt, ValueAt, SetValue;
    assert t[i] in t && t[j] in t;
    SetValueKeeps(h, t[i], ValueAt(h, t[j]));
    var h1 := SetValue(h, t[i], ValueAt(h, t[j]));
    SetValueKeeps(h1, t[j], ValueAt(h, t[i]));
    var h2 := SetValue(h1, t[j], ValueAt(h, t[i]));
    assert Traversal(h2, t);
    forall k | 0 <= k < |t| ensures Values(h2, t)[k] == Swapped(Values(h, t), i, j)[k] {
      assert t[k] in t;
      if k != i { TraversalPositions(h, t, k, i); }
      if k != j { TraversalPositions(h, t, k, j); }
    }
  }

  // ----- The sort

  /** The container's elements, in traversal order `t`, have the values `vs`. */
  ghost predicate Holding<T>(h: Hive<T>, t: seq<Loc>, vs: seq<T>) {
    Inv(h) && Traversal(h, t) && Values(h, t) == vs
  }

  lemma HoldingLength<T>(h: Hive<T>, t: seq<Loc>, vs: seq<T>)
    requires Holding(h, t, vs)
    ensures |vs| == |t| && |t| == h.size
  {
    SizeIsLength(h, t);
  }

  lemma HoldingStart<T>(h: Hive<T>, t: seq<Loc>)
    requires Inv(h) && Traversal(h, t)
    ensures (forall l | l in t :: LiveAt(h, l)) && Holding(h, t, Values(h, t))
  {
  }

  /** One linear pass records every position. */
  method Positions<T>(c: Container<T>, ghost t: seq<Loc>) returns (positions: seq<Loc>)
    requires c.Valid() && Traversal(c.View(), t)
    ensures positions == t
  {
    hide Inv, LiveAt, ValueAt, Holds, Traversal, Container.Valid;
    ghost var h := c.View();
    var it := Start(c, t);
    positions := [];
    while it.At?
      invariant |positions| <= |t| && positions == t[..|positions|]
      invariant it == PositionIn(t, |positions|)
      invariant c.Valid() && c.View() == h && Holds(h, h, t)
      decreases |t| - |positions|
    {
      var l := it.loc;
      it := Advance(c, l, h, t, |positions|);
      positions := positions + [l];
    }
  }

  /**
    A call of the comparator.  Its precondition is what a throwing comparator would
    leave behind: the container is well formed and holds a permutation of `original`.
   */
  method LessAt<T>(c: Container<T>, t: seq<Loc>, i: nat, j: nat, less: (T, T) -> bool, ghost vs: seq<T>, ghost original: seq<T>)
    returns (b: bool)
    requires c.Valid() && Holding(c.View(), t, vs) && multiset(vs) == multiset(original)
    requires i < |t| && j < |t|
    ensures c.Valid() && |vs| == |t| && b == less(vs[i], vs[j])
  {
    hide Inv, LiveAt, ValueAt;
    assert t[i] in t && t[j] in t;
    var x := c.Get(t[i]);
    var y := c.Get(t[j]);
    b := less(x, y);
  }

  method SwapAt<T>(c: Container<T>, t: seq<Loc>, i: nat, j: nat, ghost vs: seq<T>)
    requires c.Valid() && Holding(c.View(), t, vs) && i < |t| && j < |t|
    modifies c`store
    ensures |vs| == |t| && c.Valid() && Holding(c.View(), t, Swapped(vs, i, j))
  {
    hide Inv, LiveAt, ValueAt, Traversal, Values;
    SwapKeeps(c.View(), t, i, j);
    var x := c.Get(t[i]);
    var y := c.Get(t[j]);
    var b := c.store[t[i].block];
    c.store := c.store[t[i].block := b.(slots := b.slots[t[i].index := Live(y)])];
    b := c.store[t[j].block];
    c.store := c.store[t[j].block := b.(slots := b.slots[t[j].index := Live(x)])];
  }

  /** Picks the larger child of `i`. */
  method LargerChild<T(!new)>(c: Container<T>, t: seq<Loc>, i: nat, count: nat, less: (T, T) -> bool, ghost vs: seq<T>, ghost original: seq<T>)
    returns (largest: nat)
    requires c.Valid() && Holding(c.View(), t, vs) && multiset(vs) == multiset(original)
    requires 2 * i + 1 < count <= |t|
    requires StrictWeakOrder(less)
    ensures |vs| == |t| && LargestChild(less, vs, count, i, largest)
    ensures c.Valid() && i < largest < count
  {
    hide Inv, LiveAt, ValueAt, Holding;
    HoldingLength(c.View(), t, vs);
    var left := 2 * i + 1;
    largest := left;
    if left + 1 < count {
      var b := LessAt(c, t, left, left + 1, less, vs, original);
      if b {
        LessIsLe(less, vs[left], vs[left + 1]);
        largest := left + 1;
      }
    }
    assert forall k: nat | 0 < k < count && Parent(k) == i :: k == left || k == left + 1;
  }

  /**
    Restores the heap on `[first, count)` after its top changed.  Nothing at or above
    `count` moves and every state on the way is a permutation.
   */
  method SiftDown<T(!new)>(c: Container<T>, t: seq<Loc>, first: nat, count: nat, less: (T, T) -> bool,
                           ghost vs: seq<T>, ghost original: seq<T>)
    returns (ghost vs': seq<T>)
    requires c.Valid() && Holding(c.View(), t, vs) && multiset(vs) == multiset(original)
    requires StrictWeakOrder(less) && first < count <= |t|
    requires |vs| == |t| && Heap(less, vs, first + 1, count) && SortedFrom(less, vs, count)
    modifies c`store
    ensures c.Valid() && Holding(c.View(), t, vs') && multiset(vs') == multiset(original)
    ensures |vs'| == |t| && Heap(less, vs', first, count) && SortedFrom(less, vs', count)
  {
    hide Inv, LiveAt, ValueAt, Holding, Heap, HeapBut, SortedFrom, StrictWeakOrder, LargestChild, Container.Valid;
    vs' := vs;
    SiftStart(less, vs, first, count);
    var i := first;
    while true
      invariant c.Valid() && Holding(c.View(), t, vs') && multiset(vs') == multiset(original)
      invariant first <= i < count && |vs'| == |t|
      invariant HeapBut(less, vs', first, count, i) && SortedFrom(less, vs', count)
      decreases count - i
    {
      var left := 2 * i + 1;
      if left >= count {
        SiftLeaf(less, vs', first, count, i);
        break;
      }
      var largest := LargerChild(c, t, i, count, less, vs', original);
      var b := LessAt(c, t, i, largest, less, vs', original);
      if !b {
        SiftStop(less, vs', first, count, i, largest);
        break;
      }
      SiftSwap(less, vs', first, count, i, largest);
      SwapKeepsSorted(less, vs', count, i, largest);
      SwapPermutes(vs', i, largest);
      SwapAt(c, t, i, largest, vs');
      vs' := Swapped(vs', i, largest);
      i := largest;
    }
  }

  /** sort: the traversal is unchanged, and its values are a sorted permutation of what they were. */
  method Sort<T(!new)>(c: Container<T>, less: (T, T) -> bool, ghost t: seq<Loc>) returns (ghost sorted: seq<T>)
    requires c.Valid() && Traversal(c.View(), t) && StrictWeakOrder(less)
    modifies c`store
    ensures c.Valid() && Traversal(c.View(), t) && Values(c.View(), t) == sorted
    ensures Sorted(less, sorted) && multiset(sorted) == multiset(Values(old(c.View()), t))
  {
    hide Inv, LiveAt, ValueAt, Traversal, Heap, SortedFrom, StrictWeakOrder, Values;
    HoldingStart(c.View(), t);
    ghost var original := Values(c.View(), t);
    sorted := original;
    HoldingLength(c.View(), t, sorted);
    if c.size < 2 {
      return;
    }
    var positions := Positions(c, t);
    var n := c.size;
    sorted := BuildHeap(c, positions, n, less, sorted);
    sorted := ExtractAll(c, positions, n, less, sorted, original);
  }

  method BuildHeap<T(!new)>(c: Container<T>, t: seq<Loc>, n: nat, less: (T, T) -> bool, ghost original: seq<T>)
    returns (ghost vs: seq<T>)
    requires c.Valid() && Holding(c.View(), t, original) && StrictWeakOrder(less) && n == |t| == |original| && n >= 2
    modifies c`store
    ensures c.Valid() && Holding(c.View(), t, vs) && multiset(vs) == multiset(original)
    ensures |vs| == n && Heap(less, vs, 0, n) && SortedFrom(less, vs, n)
  {
    hide Inv, LiveAt, ValueAt, Holding, Heap, SortedFrom, StrictWeakOrder, Container.Valid;
    vs := original;
    LeavesAreHeap(less, vs, n);
    var i: nat := n / 2;
    while i > 0
      invariant i <= n / 2 && c.Valid() && Holding(c.View(), t, vs) && multiset(vs) == multiset(original)
      invariant |vs| == n && Heap(less, vs, i, n) && SortedFrom(less, vs, n)
    {
      vs := SiftDown(c, t, i - 1, n, less, vs, original);
      i := i - 1;
    }
  }

  lemma LeavesAreHeap<T>(less: (T, T) -> bool, vs: seq<T>, n: nat)
    requires |vs| == n
    ensures Heap(less, vs, n / 2, n) && SortedFrom(less, vs, n)
  {
  }

  method ExtractAll<T(!new)>(c: Container<T>, t: seq<Loc>, n: nat, less: (T, T) -> bool, ghost heap: seq<T>, ghost original: seq<T>)
    returns (ghost vs: seq<T>)
    requires c.Valid() && Holding(c.View(), t, heap) && StrictWeakOrder(less) && n == |t| == |heap| && n >= 2
    requires multiset(heap) == multiset(original) && Heap(less, heap, 0, n) && SortedFrom(less, heap, n)
    modifies c`store
    ensures c.Valid() && Holding(c.View(), t, vs) && multiset(vs) == multiset(original)
    ensures Sorted(less, vs)
  {
    hide Inv, LiveAt, ValueAt, Holding, Heap, SortedFrom, StrictWeakOrder, Container.Valid;
    vs := heap;
    var e := n;
    while e > 1
      invariant 1 <= e <= n && c.Valid() && Holding(c.View(), t, vs) && multiset(vs) == multiset(original)
      invariant |vs| == n && Heap(less, vs, 0, e) && SortedFrom(less, vs, e)
    {
      ExtractKeepsSorted(less, vs, e);
      SwapPermutes(vs, 0, e - 1);
      SwapAt(c, t, 0, e - 1, vs);
      vs := Swapped(vs, 0, e - 1);
      vs := SiftDown(c, t, 0, e - 1, less, vs, original);
      e := e - 1;
    }
    SortedAll(less, vs);
  }

  lemma SortedAll<T>(less: (T, T) -> bool, vs: seq<T>)
    requires SortedFrom(less, vs, 1)
    ensures Sorted(less, vs)
  {
  }
}
