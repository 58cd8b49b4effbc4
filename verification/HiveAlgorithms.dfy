/**
  Erasing loops over the container: range erase, erase_if and unique, each equal
  to its effect on the element sequence although erasing may empty blocks.
 */
module HiveAlgorithms {
  import opened HiveBlock
  import opened HiveModel
  import opened HiveModelProofs
  import opened HiveTraversal
  import opened HiveElements
  import opened HiveContainer

  /** Iterator standing at position `p` of traversal `t`. */
  ghost function PositionIn(t: seq<Loc>, p: nat): Iterator
    requires p <= |t|
  {
    if p < |t| then At(t[p]) else End
  }

  /** `u` is the traversal and its elements have the values they have in `h`. */
  ghost predicate Holds<T>(h: Hive<T>, h': Hive<T>, u: seq<Loc>) {
    && Traversal(h', u)
    && forall l | l in u :: LiveAt(h, l) && LiveAt(h', l) && ValueAt(h', l) == ValueAt(h, l)
  }

  lemma HoldsStart<T>(h: Hive<T>, t: seq<Loc>)
    requires Traversal(h, t)
    ensures Holds(h, h, t)
  {
  }

  /** One erase in the middle of a loop. */
  lemma HoldsErase<T>(h: Hive<T>, g: Hive<T>, g': Hive<T>, u: seq<Loc>, p: nat)
    requires Inv(g) && Holds(h, g, u) && p < |u| && RemovedAt(g, g', u[p])
    ensures Holds(h, g', Without(u, p))
    ensures u[p].block in g.active
    ensures forall id | id in g.active :: id in g.store && 0 < g.store[id].highWater <= |g.store[id].skip|
    ensures Next(g, u[p]) == PositionIn(Without(u, p), p)
  {
    hide Inv, LiveAt, ValueAt, Next;
    EraseTraversal(g, g', u, p);
    NextIsSuccessor(g, u, p);
    var w := Without(u, p);
    forall l | l in w ensures LiveAt(h, l) && LiveAt(g', l) && ValueAt(g', l) == ValueAt(h, l) {
      var q: nat :| q < |w| && w[q] == l;
      WithoutAt(u, p, q);
      assert l in u;
    }
  }

  /** Erases the element at position `p` of the current traversal. */
  method EraseStep<T>(c: Container<T>, l: Loc, ghost h: Hive<T>, ghost u: seq<Loc>, ghost p: nat) returns (it: Iterator)
    requires c.Valid() && Holds(h, c.View(), u) && p < |u| && l == u[p]
    modifies c.Frame()
    ensures c.Valid() && Holds(h, c.View(), Without(u, p))
    ensures it == PositionIn(Without(u, p), p)
    ensures c.size + 1 == old(c.size) && c.capacity == old(c.capacity)
  {
    hide Inv, LiveAt, ValueAt, Next, RemovedAt, Traversal;
    ghost var g := c.View();
    assert u[p] in u;
    it := c.Erase(l);
    HoldsErase(h, g, c.View(), u, p);
  }

  /** Moves past the element at position `p` of the current traversal. */
  method Advance<T>(c: Container<T>, l: Loc, ghost h: Hive<T>, ghost u: seq<Loc>, ghost p: nat) returns (it: Iterator)
    requires c.Valid() && Holds(h, c.View(), u) && p < |u| && l == u[p]
    ensures c.Valid() && it == PositionIn(u, p + 1)
  {
    hide Inv, LiveAt, ValueAt, Next;
    assert u[p] in u;
    it := c.Increment(l);
    NextIsSuccessor(c.View(), u, p);
  }

  /** Value of the element at position `p`. */
  method Read<T>(c: Container<T>, l: Loc, ghost h: Hive<T>, ghost u: seq<Loc>, ghost p: nat) returns (v: T)
    requires c.Valid() && Holds(h, c.View(), u) && p < |u| && l == u[p]
    ensures c.Valid() && LiveAt(h, l) && v == ValueAt(h, l)
  {
    hide Inv, LiveAt, ValueAt;
    assert u[p] in u;
    v := c.Get(l);
  }

  /** Iterator to the first element. */
  method Start<T>(c: Container<T>, ghost t: seq<Loc>) returns (it: Iterator)
    requires c.Valid() && Traversal(c.View(), t)
    ensures c.Valid() && Holds(c.View(), c.View(), t) && it == PositionIn(t, 0)
    ensures |t| == c.size && forall l | l in t :: LiveAt(c.View(), l)
  {
    hide Inv;
    SizeIsLength(c.View(), t);
    HoldsStart(c.View(), t);
    BeginIsFirst(c.View(), t);
    it := c.First();
  }

  /** What remains of the sequence `t` when `kept` replaces its first `n` elements. */
  ghost function Rest<X>(kept: seq<X>, t: seq<X>, n: nat): (u: seq<X>)
    requires n <= |t|
    ensures |u| == |kept| + |t| - n
  {
    kept + t[n..]
  }

  lemma RestEnds<X>(kept: seq<X>, t: seq<X>)
    ensures Rest([], t, 0) == t && Rest(kept, t, |t|) == kept
    ensures forall i: nat | i <= |t| :: Rest(t[..i], t, i) == t
  {
  }

  /** Keeping or dropping the next element. */
  lemma RestStep<X>(kept: seq<X>, t: seq<X>, n: nat)
    requires n < |t|
    ensures Rest(kept, t, n)[|kept|] == t[n]
    ensures kept != [] ==> Rest(kept, t, n)[|kept| - 1] == kept[|kept| - 1]
    ensures Rest(kept, t, n) == Rest(kept + [t[n]], t, n + 1)
    ensures Without(Rest(kept, t, n), |kept|) == Rest(kept, t, n + 1)
  {
  }

  // ----- Range erase

  /**
    Removes `[first, last)`, given as positions `i <= j` of the traversal.  The loop
    compares with the end by looking at the block, since erasing the last element
    changes the end epoch.
   */
  method EraseRange<T>(c: Container<T>, first: Iterator, last: Iterator, ghost t: seq<Loc>, ghost i: nat, ghost j: nat)
    returns (r: Iterator)
    requires c.Valid() && Traversal(c.View(), t) && i <= j <= |t|
    requires first == PositionIn(t, i) && last == PositionIn(t, j)
    modifies c.Frame()
    ensures c.Valid() && Holds(old(c.View()), c.View(), Rest(t[..i], t, j))
    ensures r == last
  {
    hide Inv, LiveAt, ValueAt, Traversal, Holds, Container.Valid, Rest, Without;
    ghost var h := c.View();
    ValidInv(c);
    StillDistinct(h, t, i, j);
    HoldsStart(h, t);
    RestEnds(t[..i], t);
    var cur := first;
    ghost var n := i;
    while cur != last
      invariant c.Valid() && i <= n <= j
      invariant Holds(h, c.View(), Rest(t[..i], t, n))
      invariant cur == PositionIn(Rest(t[..i], t, n), i)
      invariant cur == last <==> n == j
      decreases j - n
    {
      RestStep(t[..i], t, n);
      cur := EraseStep(c, cur.loc, h, Rest(t[..i], t, n), i);
      n := n + 1;
      RestAt(t[..i], t, n, j);
      StillDistinct(h, t, n, j);
    }
    r := last;
  }

  lemma ValidInv<T>(c: Container<T>)
    requires c.Valid()
    ensures Inv(c.View())
  {
  }

  lemma RestAt<X>(kept: seq<X>, t: seq<X>, n: nat, j: nat)
    requires n <= j <= |t|
    ensures n < |t| ==> Rest(kept, t, n)[|kept|] == t[n]
  {
  }

  lemma StillDistinct<T>(h: Hive<T>, t: seq<Loc>, n: nat, j: nat)
    requires Inv(h) && Traversal(h, t) && n <= j <= |t|
    ensures PositionIn(t, n) == PositionIn(t, j) <==> n == j
  {
    hide Inv;
    if n < j && j < |t| { TraversalPositions(h, t, n, j); }
  }

  // ----- erase_if

  /** The locations whose value fails the predicate, in order. */
  ghost function Kept<T>(h: Hive<T>, t: seq<Loc>, pred: T -> bool): seq<Loc>
    requires forall l | l in t :: LiveAt(h, l)
  {
    if t == [] then []
    else
      var n := |t| - 1;
      assert forall l | l in t[..n] :: l in t;
      assert t[n] in t;
      Kept(h, t[..n], pred) + if pred(ValueAt(h, t[n])) then [] else [t[n]]
  }

  lemma ValuesSnoc<T>(h: Hive<T>, t: seq<Loc>, l: Loc)
    requires LiveAt(h, l) && forall m | m in t :: LiveAt(h, m)
    ensures forall m | m in t + [l] :: LiveAt(h, m)
    ensures Values(h, t + [l]) == Values(h, t) + [ValueAt(h, l)]
  {
    hide LiveAt, ValueAt;
    assert forall i | 0 <= i < |t| :: t[i] in t;
  }

  /** The kept values are exactly the values that fail the predicate, in order. */
  function Filter<T>(s: seq<T>, pred: T -> bool): seq<T> {
    if s == [] then []
    else Filter(s[..|s| - 1], pred) + if pred(s[|s| - 1]) then [] else [s[|s| - 1]]
  }

  lemma {:induction false} KeptIsFilter<T>(h: Hive<T>, t: seq<Loc>, pred: T -> bool)
    requires forall l | l in t :: LiveAt(h, l)
    ensures forall l | l in Kept(h, t, pred) :: LiveAt(h, l)
    ensures Values(h, Kept(h, t, pred)) == Filter(Values(h, t), pred)
  {
    hide LiveAt, ValueAt;
    if t != [] {
      var n := |t| - 1;
      assert t[n] in t && forall l | l in t[..n] :: l in t;
      KeptIsFilter(h, t[..n], pred);
      assert Values(h, t)[..n] == Values(h, t[..n]);
    }
  }

  lemma KeptNone<T>(h: Hive<T>, t: seq<Loc>, pred: T -> bool)
    ensures t[..0] == [] && Kept(h, t[..0], pred) == []
  {
  }

  lemma KeptStep<T>(h: Hive<T>, t: seq<Loc>, n: nat, pred: T -> bool)
    requires n < |t| && forall l | l in t :: LiveAt(h, l)
    ensures t[n] in t && (forall l | l in t[..n] :: l in t) && (forall l | l in t[..n + 1] :: l in t)
    ensures Kept(h, t[..n + 1], pred) ==
            if pred(ValueAt(h, t[n])) then Kept(h, t[..n], pred) else Kept(h, t[..n], pred) + [t[n]]
  {
    hide LiveAt, ValueAt;
    assert t[..n + 1][..n] == t[..n] && t[n] in t;
  }

  /** Container-wide erase_if is filtering the element sequence. */
  method EraseIf<T>(c: Container<T>, pred: T -> bool, ghost t: seq<Loc>) returns (removed: nat)
    requires c.Valid() && Traversal(c.View(), t)
    modifies c.Frame()
    ensures c.Valid()
    ensures Holds(old(c.View()), c.View(), Kept(old(c.View()), t, pred))
    ensures removed == old(c.size) - c.size
  {
    hide Inv, LiveAt, ValueAt, Holds, Traversal, Container.Valid, Kept, Rest, Without;
    ghost var h := c.View();
    var originalSize := c.size;
    var cur := Start(c, t);
    ghost var n, kept := 0, [];
    KeptNone(h, t, pred);
    RestEnds(kept, t);
    while cur.At?
      invariant c.Valid() && n <= |t| && c.size <= originalSize
      invariant forall l | l in t[..n] :: LiveAt(h, l)
      invariant kept == Kept(h, t[..n], pred)
      invariant Holds(h, c.View(), Rest(kept, t, n))
      invariant cur == PositionIn(Rest(kept, t, n), |kept|)
      decreases |t| - n
    {
      RestStep(kept, t, n);
      KeptStep(h, t, n, pred);
      var v := Read(c, cur.loc, h, Rest(kept, t, n), |kept|);
      if pred(v) {
        cur := EraseStep(c, cur.loc, h, Rest(kept, t, n), |kept|);
      } else {
        cur := Advance(c, cur.loc, h, Rest(kept, t, n), |kept|);
        kept := kept + [t[n]];
      }
      n := n + 1;
    }
    RestEnds(kept, t);
    assert t[..|t|] == t;
    removed := originalSize - c.size;
  }

  // ----- unique

  /** Drops every element related to the last element kept before it. */
  function Uniqued<T>(s: seq<T>, same: (T, T) -> bool): seq<T>
    ensures s != [] ==> Uniqued(s, same) != []
  {
    if |s| <= 1 then s
    else
      var kept := Uniqued(s[..|s| - 1], same);
      if same(s[|s| - 1], kept[|kept| - 1]) then kept else kept + [s[|s| - 1]]
  }

  /** The locations unique keeps; the first is always kept. */
  ghost function Representatives<T>(h: Hive<T>, t: seq<Loc>, same: (T, T) -> bool): (r: seq<Loc>)
    requires forall l | l in t :: LiveAt(h, l)
    ensures forall l | l in r :: l in t
    ensures t != [] ==> r != []
  {
    if |t| <= 1 then t
    else
      var n := |t| - 1;
      assert forall l | l in t[..n] :: l in t;
      var r := Representatives(h, t[..n], same);
      assert t[n] in t && r[|r| - 1] in t[..n];
      if same(ValueAt(h, t[n]), ValueAt(h, r[|r| - 1])) then r else r + [t[n]]
  }

  lemma {:induction false} RepresentativesAreUniqued<T>(h: Hive<T>, t: seq<Loc>, same: (T, T) -> bool)
    requires forall l | l in t :: LiveAt(h, l)
    ensures forall l | l in Representatives(h, t, same) :: LiveAt(h, l)
    ensures Values(h, Representatives(h, t, same)) == Uniqued(Values(h, t), same)
  {
    hide LiveAt, ValueAt;
    if |t| > 1 {
      var n := |t| - 1;
      assert t[n] in t && forall l | l in t[..n] :: l in t;
      RepresentativesAreUniqued(h, t[..n], same);
      assert t[..n] + [t[n]] == t;
      ValuesSnoc(h, t[..n], t[n]);
      var r, vs := Representatives(h, t[..n], same), Values(h, t);
      assert vs[..n] == Values(h, t[..n]) && vs[n] == ValueAt(h, t[n]);
      LastValue(h, r);
      ValuesSnoc(h, r, t[n]);
      assert t[..n + 1] == t;
      RepresentativesStep(h, t, n, same);
      assert Uniqued(vs, same) == if same(vs[n], Values(h, r)[|r| - 1]) then Values(h, r) else Values(h, r) + [vs[n]];
      hide Values, Representatives, Uniqued;
    }
  }

  lemma LastValue<T>(h: Hive<T>, r: seq<Loc>)
    requires r != [] && forall l | l in r :: LiveAt(h, l)
    ensures r[|r| - 1] in r && Values(h, r)[|r| - 1] == ValueAt(h, r[|r| - 1])
  {
  }

  lemma RepresentativesShort<T>(h: Hive<T>, t: seq<Loc>, same: (T, T) -> bool)
    requires forall l | l in t :: LiveAt(h, l)
    ensures |t| < 2 ==> Representatives(h, t, same) == t
    ensures |t| >= 1 ==> (forall l | l in t[..1] :: l in t) && Representatives(h, t[..1], same) == t[..1]
  {
  }

  lemma RepresentativesStep<T>(h: Hive<T>, t: seq<Loc>, n: nat, same: (T, T) -> bool)
    requires 0 < n < |t| && forall l | l in t :: LiveAt(h, l)
    ensures t[n] in t && (forall l | l in t[..n] :: l in t) && (forall l | l in t[..n + 1] :: l in t)
    ensures var r := Representatives(h, t[..n], same);
            && r != [] && r[|r| - 1] in t
            && Representatives(h, t[..n + 1], same) ==
               if same(ValueAt(h, t[n]), ValueAt(h, r[|r| - 1])) then r else r + [t[n]]
  {
    hide LiveAt, ValueAt;
    assert t[..n + 1][..n] == t[..n] && t[n] in t;
    var r := Representatives(h, t[..n], same);
    assert r[|r| - 1] in t[..n];
  }

  /** unique removes each element related to the last one kept, and counts them. */
  method Unique<T>(c: Container<T>, same: (T, T) -> bool, ghost t: seq<Loc>) returns (removed: nat)
    requires c.Valid() && Traversal(c.View(), t)
    modifies c.Frame()
    ensures c.Valid()
    ensures forall l | l in t :: LiveAt(old(c.View()), l)
    ensures Holds(old(c.View()), c.View(), Representatives(old(c.View()), t, same))
    ensures removed == old(c.size) - c.size
  {
    hide Inv, LiveAt, ValueAt, Holds, Traversal, Container.Valid, Representatives, Rest, Without;
    ghost var h := c.View();
    removed := 0;
    var previous := Start(c, t);
    RepresentativesShort(h, t, same);
    if c.size < 2 {
      return;
    }
    var cur := Advance(c, previous.loc, h, t, 0);
    ghost var n, kept := 1, t[..1];
    RestEnds(kept, t);
    while cur.At?
      invariant c.Valid() && 1 <= n <= |t| && removed + c.size == old(c.size)
      invariant forall l | l in t[..n] :: LiveAt(h, l)
      invariant kept == Representatives(h, t[..n], same) && kept != []
      invariant Holds(h, c.View(), Rest(kept, t, n))
      invariant cur == PositionIn(Rest(kept, t, n), |kept|) && previous == At(kept[|kept| - 1])
      decreases |t| - n
    {
      RestStep(kept, t, n);
      RepresentativesStep(h, t, n, same);
      var v := Read(c, cur.loc, h, Rest(kept, t, n), |kept|);
      var w := Read(c, previous.loc, h, Rest(kept, t, n), |kept| - 1);
      if same(v, w) {
        cur := EraseStep(c, cur.loc, h, Rest(kept, t, n), |kept|);
        removed := removed + 1;
      } else {
        previous := cur;
        cur := Advance(c, cur.loc, h, Rest(kept, t, n), |kept|);
        kept := kept + [t[n]];
      }
      n := n + 1;
    }
    RestEnds(kept, t);
    assert t[..|t|] == t;
  }
}
