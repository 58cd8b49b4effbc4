/**
  The element sequence of the container: the naive scan, the size, and how one
  emplace or erase changes the sequence.
 */
module HiveElements {
  import opened HiveBlock
  import opened HiveModel
  import opened HiveModelProofs
  import opened HiveTraversal

  // ----- The naive scan

  /** Live slots of one block below `n`, in ascending order, looking at every slot. */
  function ScanBlock<T>(b: Block<T>, id: nat, n: nat): seq<Loc> {
    if n == 0 then []
    else ScanBlock(b, id, n - 1) + if IsLive(b, n - 1) then [Loc(id, n - 1)] else []
  }

  /** Live slots of the first `k` active blocks. */
  function Scan<T>(h: Hive<T>, k: nat): seq<Loc>
    requires k <= |h.active| && forall id | id in h.active :: id in h.store
  {
    if k == 0 then []
    else
      var id := h.active[k - 1];
      Scan(h, k - 1) + ScanBlock(h.store[id], id, h.store[id].highWater)
  }

  lemma ScanBlockMembers<T>(b: Block<T>, id: nat, n: nat, l: Loc)
    ensures l in ScanBlock(b, id, n) <==> l.block == id && l.index < n && IsLive(b, l.index)
  {
  }

  lemma {:induction false} ScanBlockAscending<T>(b: Block<T>, id: nat, n: nat, p: nat, q: nat)
    requires p < q < |ScanBlock(b, id, n)|
    ensures var s := ScanBlock(b, id, n);
            s[p].block == s[q].block == id && s[p].index < s[q].index
  {
    var s := ScanBlock(b, id, n);
    ScanBlockMembers(b, id, n, s[p]);
    ScanBlockMembers(b, id, n, s[q]);
    if q < |ScanBlock(b, id, n - 1)| {
      ScanBlockAscending(b, id, n - 1, p, q);
    } else {
      ScanBlockMembers(b, id, n - 1, ScanBlock(b, id, n - 1)[p]);
    }
  }

  lemma {:induction false} ScanMembers<T>(h: Hive<T>, k: nat, l: Loc)
    requires k <= |h.active| && forall id | id in h.active :: id in h.store
    ensures l in Scan(h, k) <==> l.block in h.active[..k] && IsLive(h.store[l.block], l.index)
  {
    if k > 0 {
      var id := h.active[k - 1];
      assert h.active[..k] == h.active[..k - 1] + [id];
      ScanMembers(h, k - 1, l);
      ScanBlockMembers(h.store[id], id, h.store[id].highWater, l);
    }
  }

  lemma {:induction false} ScanAscending<T>(h: Hive<T>, k: nat, p: nat, q: nat)
    requires ListsOk(h) && OrderOk(h) && k <= |h.active| && p < q < |Scan(h, k)|
    ensures var s := Scan(h, k);
            s[p].block in h.order && s[q].block in h.order && Before(h.order, s[p], s[q])
  {
    var s, id := Scan(h, k), h.active[k - 1];
    var n := |Scan(h, k - 1)|;
    var tail := ScanBlock(h.store[id], id, h.store[id].highWater);
    assert s == Scan(h, k - 1) + tail;
    hide Scan, ScanBlock, Distinct;
    if q < n {
      ScanAscending(h, k - 1, p, q);
    } else {
      ScanBlockMembers(h.store[id], id, h.store[id].highWater, tail[q - n]);
      if p < n {
        assert Scan(h, k - 1)[p] == s[p];
        ScanMembers(h, k - 1, s[p]);
        EarlierBlock(h, k - 1, s[p], s[q]);
      } else {
        assert s[p] == tail[p - n] && tail[p - n] in tail;
        ScanBlockMembers(h.store[id], id, h.store[id].highWater, tail[p - n]);
        assert id in h.active;
        hide OrderOk, ListsOk;
        ScanBlockAscending(h.store[id], id, h.store[id].highWater, p - n, q - n);
      }
    }
  }

  lemma EarlierBlock<T>(h: Hive<T>, k: nat, l: Loc, m: Loc)
    requires ListsOk(h) && OrderOk(h) && k < |h.active| && l.block in h.active[..k] && m.block == h.active[k]
    ensures l.block in h.order && m.block in h.order && Before(h.order, l, m)
  {
    hide Distinct;
    var j :| 0 <= j < k && h.active[j] == l.block;
    assert h.active[j] in h.active && h.active[k] in h.active;
  }

  /** Looking at every slot of every active block yields the traversal. */
  lemma ScanIsTraversal<T>(h: Hive<T>)
    requires Inv(h)
    ensures forall id | id in h.active :: id in h.store
    ensures Traversal(h, Scan(h, |h.active|))
  {
    hide Valid, BlocksOk, AvailableOk, SumsOk, Contents;
    var t := Scan(h, |h.active|);
    assert h.active[..|h.active|] == h.active;
    forall l | l in t ensures LiveAt(h, l) && l.block in h.order {
      ScanMembers(h, |h.active|, l);
      LiveInBlock(h, l);
    }
    forall l | LiveAt(h, l) ensures l in t {
      LiveFacts(h, l);
      ScanMembers(h, |h.active|, l);
    }
    forall p, q | 0 <= p < q < |t| ensures Before(h.order, t[p], t[q]) {
      ScanAscending(h, |h.active|, p, q);
    }
  }

  // ----- Comparison

  /** What increment needs to find in memory. */
  ghost predicate CanStep<T>(h: Hive<T>, l: Loc) {
    && l.block in h.active
    && forall id | id in h.active :: id in h.store && 0 < h.store[id].highWater <= |h.store[id].skip|
  }

  /** The iterator at `l` after `n` increments; it stays at end, as end is not incremented. */
  ghost function Steps<T>(h: Hive<T>, l: Loc, n: nat): Iterator {
    if n == 0 then At(l)
    else
      var it := Steps(h, l, n - 1);
      if it.At? && CanStep(h, it.loc) then Next(h, it.loc) else End
  }

  lemma {:induction false} StepsThrough<T>(h: Hive<T>, t: seq<Loc>, p: nat, n: nat)
    requires Inv(h) && Traversal(h, t) && p < |t|
    ensures Steps(h, t[p], n) == if p + n < |t| then At(t[p + n]) else End
  {
    hide Inv, Traversal, Next;
    if n > 0 {
      StepsThrough(h, t, p, n - 1);
      if p + n - 1 < |t| { NextIsSuccessor(h, t, p + n - 1); }
    }
  }

  lemma ReachedLater<T>(h: Hive<T>, t: seq<Loc>, p: nat, q: nat)
    requires Inv(h) && Traversal(h, t) && p < |t| && q < |t|
    ensures p < q <==> exists n: nat :: n > 0 && Steps(h, t[p], n) == At(t[q])
  {
    hide Inv, Traversal, Steps;
    if p < q { StepsThrough(h, t, p, q - p); }
    forall n: nat | n > 0 && Steps(h, t[p], n) == At(t[q]) ensures p < q {
      StepsThrough(h, t, p, n);
      TraversalPositions(h, t, p + n, q);
    }
  }

  lemma VisitedAt<T>(h: Hive<T>, t: seq<Loc>, l: Loc) returns (p: nat)
    requires Traversal(h, t) && LiveAt(h, l)
    ensures p < |t| && t[p] == l
  {
    hide LiveAt;
    p :| p < |t| && t[p] == l;
  }

  /** Live location `b` is reached from live location `a` by incrementing if and only if `a` compares less. */
  lemma ComparisonIsVisitOrder<T>(h: Hive<T>, a: Loc, b: Loc)
    requires Inv(h) && LiveAt(h, a) && LiveAt(h, b)
    ensures a.block in h.order && b.block in h.order && CanStep(h, a)
    ensures Before(h.order, a, b) <==> exists n: nat :: n > 0 && Steps(h, a, n) == At(b)
  {
    hide Inv, LiveAt, Traversal, Steps, Scan;
    ScanIsTraversal(h);
    var t := Scan(h, |h.active|);
    var p := VisitedAt(h, t, a);
    var q := VisitedAt(h, t, b);
    NextIsSuccessor(h, t, p);
    TraversalPositions(h, t, p, q);
    ReachedLater(h, t, p, q);
  }

  // ----- Size

  /** Live slots below `n`. */
  ghost function LiveBelow<T>(b: Block<T>, n: nat): (s: set<nat>)
    ensures forall i: nat :: i in s <==> i < n && IsLive(b, i)
  {
    if n == 0 then {} else LiveBelow(b, n - 1) + if IsLive(b, n - 1) then {n - 1} else {}
  }

  lemma {:induction false} ScanBlockLength<T>(b: Block<T>, id: nat, n: nat)
    ensures |ScanBlock(b, id, n)| == |LiveBelow(b, n)|
  {
    hide IsLive;
    if n > 0 {
      ScanBlockLength(b, id, n - 1);
      var before := LiveBelow(b, n - 1);
      assert n - 1 !in before;
      assert |before + {n - 1}| == |before| + 1;
    }
  }

  lemma {:induction false} ScanLength<T>(h: Hive<T>, k: nat)
    requires ListsOk(h) && BlocksOk(h) && k <= |h.active|
    ensures forall id | id in h.active[..k] :: id in h.store
    ensures |Scan(h, k)| == Total(h.store, h.active[..k], true)
  {
    if k > 0 {
      var id := h.active[k - 1];
      var b := h.store[id];
      ScanLength(h, k - 1);
      assert h.active[..k] == h.active[..k - 1] + [id];
      TotalConcat(h.store, h.active[..k - 1], [id], true);
      assert BlockOk(h, id);
      WholeBlockLength(b, id);
      hide BlocksOk, ScanBlock, Distinct;
    }
  }

  lemma WholeBlockLength<T>(b: Block<T>, id: nat)
    requires Valid(b)
    ensures |ScanBlock(b, id, b.highWater)| == b.liveCount
  {
    hide Valid;
    BlockFacts(b);
    ScanBlockLength(b, id, b.highWater);
    assert Contents(b).Keys == LiveBelow(b, b.highWater);
  }

  /** The size counter is the number of elements visited. */
  lemma SizeIsLength<T>(h: Hive<T>, t: seq<Loc>)
    requires Inv(h) && Traversal(h, t)
    ensures |t| == h.size
  {
    ScanIsTraversal(h);
    TraversalUnique(h, t, Scan(h, |h.active|));
    ScanLength(h, |h.active|);
    assert h.active[..|h.active|] == h.active;
  }

  // ----- One emplace or erase, seen in the sequence

  function Inserted<X>(s: seq<X>, p: nat, x: X): seq<X>
    requires p <= |s|
  {
    s[..p] + [x] + s[p..]
  }

  lemma EraseTraversal<T>(h: Hive<T>, h': Hive<T>, t: seq<Loc>, p: nat)
    requires Inv(h) && Traversal(h, t) && p < |t| && RemovedAt(h, h', t[p])
    ensures Traversal(h', Without(t, p))
    ensures Values(h', Without(t, p)) == Without(Values(h, t), p)
  {
    hide Inv, LiveAt, ValueAt, Without;
    var w := Without(t, p);
    forall q: nat | q < |t| - 1 ensures |w| == |t| - 1 && w[q] == t[if q < p then q else q + 1] { WithoutAt(t, p, q); }
    assert |w| == |t| - 1 by { WithoutLength(t, p); }
    forall l | l in w ensures l in t && l != t[p] && LiveAt(h', l) && l.block in h'.order {
      var q: nat :| q < |w| && w[q] == l;
      TraversalPositions(h, t, if q < p then q else q + 1, p);
      assert l in t;
    }
    forall l | LiveAt(h', l) ensures l in w {
      assert l in t;
      var r: nat :| r < |t| && t[r] == l;
      assert w[if r < p then r else r - 1] == l;
    }
    assert Traversal(h', w);
    EraseValues(h, h', t, p);
  }

  lemma WithoutLength<X>(s: seq<X>, p: nat)
    requires p < |s|
    ensures |Without(s, p)| == |s| - 1
  {
  }

  lemma EraseValues<T>(h: Hive<T>, h': Hive<T>, t: seq<Loc>, p: nat)
    requires p < |t| && (forall l | l in t :: LiveAt(h, l)) && SameElsewhere(h, h', t[p])
    requires forall l | l in Without(t, p) :: LiveAt(h', l) && l != t[p]
    ensures Values(h', Without(t, p)) == Without(Values(h, t), p)
  {
    hide LiveAt, ValueAt;
    var w := Without(t, p);
    WithoutLength(t, p);
    WithoutLength(Values(h, t), p);
    forall q: nat | q < |w| ensures Values(h', w)[q] == Without(Values(h, t), p)[q] {
      WithoutAt(t, p, q);
      WithoutAt(Values(h, t), p, q);
      assert w[q] in w;
    }
  }

  /** Comparison is a strict total order on live locations. */
  lemma BeforeTotal<T>(h: Hive<T>, a: Loc, c: Loc)
    requires Inv(h) && LiveAt(h, a) && LiveAt(h, c) && a != c
    ensures a.block in h.order && c.block in h.order
    ensures Before(h.order, a, c) <==> !Before(h.order, c, a)
  {
    hide BlocksOk, AvailableOk, SumsOk, LiveAt;
    LiveFacts(h, a);
    LiveFacts(h, c);
    OrderIsPosition(h, a.block, c.block);
  }

  lemma BeforeTransitive(order: map<nat, nat>, a: Loc, c: Loc, d: Loc)
    requires a.block in order && c.block in order && d.block in order
    requires Before(order, a, c) && Before(order, c, d)
    requires order[a.block] == order[d.block] ==> a.block == d.block
    requires order[a.block] == order[c.block] ==> a.block == c.block
    ensures Before(order, a, d)
  {
  }

  /** Where a new location goes: everything before it is smaller, everything after is larger. */
  lemma InsertionPoint<T>(h: Hive<T>, t: seq<Loc>, l: Loc) returns (p: nat)
    requires Inv(h) && LiveAt(h, l) && l !in t && forall m | m in t :: LiveAt(h, m)
    requires forall m | m in t :: m.block in h.order
    requires forall i, j | 0 <= i < j < |t| :: Before(h.order, t[i], t[j])
    ensures p <= |t| && l.block in h.order
    ensures forall q | 0 <= q < p :: Before(h.order, t[q], l)
    ensures forall q | p <= q < |t| :: Before(h.order, l, t[q])
  {
    hide LiveAt, BlocksOk, AvailableOk, SumsOk;
    LiveFacts(h, l);
    p := 0;
    while p < |t| && Before(h.order, t[p], l)
      invariant p <= |t| && forall q | 0 <= q < p :: Before(h.order, t[q], l)
    {
      p := p + 1;
    }
    forall q | p <= q < |t| ensures Before(h.order, l, t[q]) {
      assert t[p] in t && t[q] in t;
      LiveFacts(h, t[p]);
      LiveFacts(h, t[q]);
      BeforeTotal(h, l, t[p]);
      OrderIsPosition(h, l.block, t[p].block);
      OrderIsPosition(h, l.block, t[q].block);
      if p < q { BeforeTransitive(h.order, l, t[p], t[q]); }
    }
  }

  lemma InsertedAt<X>(s: seq<X>, p: nat, x: X, q: nat)
    requires p <= |s| && q <= |s|
    ensures |Inserted(s, p, x)| == |s| + 1
    ensures Inserted(s, p, x)[q] == if q < p then s[q] else if q == p then x else s[q - 1]
  {
  }

  lemma InsertedMembers<X>(s: seq<X>, p: nat, x: X, y: X)
    requires p <= |s|
    ensures y in Inserted(s, p, x) <==> y == x || y in s
  {
    if y == x { InsertedAt(s, p, x, p); }
    if y in s {
      var q: nat :| q < |s| && s[q] == y;
      InsertedAt(s, p, x, if q < p then q else q + 1);
    }
  }

  /** A successful emplace inserts its element at one place and moves no other. */
  lemma EmplaceTraversal<T>(h: Hive<T>, h': Hive<T>, t: seq<Loc>, l: Loc, v: T) returns (p: nat)
    requires Inv(h) && Inv(h') && Traversal(h, t) && AddedAt(h, h', l, v)
    ensures p <= |t| && Traversal(h', Inserted(t, p, l))
    ensures Values(h', Inserted(t, p, l)) == Inserted(Values(h, t), p, v)
  {
    hide LiveAt, BlocksOk, AvailableOk, SumsOk, ValueAt, OrderOk, Inserted;
    forall m | m in t ensures LiveAt(h', m) && m.block in h'.order && h'.order[m.block] == h.order[m.block] {
      LiveFacts(h, m);
    }
    forall i, j | 0 <= i < j < |t| ensures Before(h'.order, t[i], t[j]) {
      assert t[i] in t && t[j] in t;
    }
    p := InsertionPoint(h', t, l);
    var u := Inserted(t, p, l);
    forall m | m in u ensures LiveAt(h', m) && m.block in h'.order { InsertedMembers(t, p, l, m); }
    forall m | LiveAt(h', m) ensures m in u { InsertedMembers(t, p, l, m); }
    forall i, j | 0 <= i < j < |u| ensures Before(h'.order, u[i], u[j]) {
      InsertedAt(t, p, l, 0);
      InsertedAt(t, p, l, i);
      InsertedAt(t, p, l, j);
    }
    InsertedValues(h, h', t, p, l, v);
  }

  lemma InsertedValues<T>(h: Hive<T>, h': Hive<T>, t: seq<Loc>, p: nat, l: Loc, v: T)
    requires p <= |t| && AddedAt(h, h', l, v) && forall m | m in t :: LiveAt(h, m)
    requires forall m | m in Inserted(t, p, l) :: LiveAt(h', m)
    ensures Values(h', Inserted(t, p, l)) == Inserted(Values(h, t), p, v)
  {
    hide LiveAt, ValueAt, Inserted;
    var u := Inserted(t, p, l);
    InsertedAt(t, p, l, 0);
    InsertedAt(Values(h, t), p, v, 0);
    forall q | 0 <= q < |u| ensures Values(h', u)[q] == Inserted(Values(h, t), p, v)[q] {
      InsertedAt(t, p, l, q);
      InsertedAt(Values(h, t), p, v, q);
      assert u[q] in u;
      if q != p { assert t[if q < p then q else q - 1] in t; }
    }
  }
}
