/**
  Bidirectional iteration over the container: the jump-based `++` and `--` visit
  exactly the live locations, in the order iterator comparison defines.
 */
module HiveTraversal {
  import opened HiveBlock
  import opened HiveModel
  import opened HiveModelProofs

  datatype Iterator = At(loc: Loc) | End

  // ----- The iterator operations

  function Begin<T>(h: Hive<T>): Iterator
    requires forall id | id in h.active :: id in h.store && 0 < h.store[id].highWater <= |h.store[id].skip|
  {
    if h.active == [] then End
    else At(Loc(h.active[0], SkipAt(h.store[h.active[0]], 0)))
  }

  function Next<T>(h: Hive<T>, l: Loc): Iterator
    requires l.block in h.active
    requires forall id | id in h.active :: id in h.store && 0 < h.store[id].highWater <= |h.store[id].skip|
  {
    var b := h.store[l.block];
    var next := l.index + 1;
    if next < b.highWater then
      At(Loc(l.block, next + SkipAt(b, next)))
    else
      var k := Position(h.active, l.block);
      if k + 1 < |h.active| then
        At(Loc(h.active[k + 1], SkipAt(h.store[h.active[k + 1]], 0)))
      else End
  }

  /** Last slot of block `id`, which is live. */
  function Back<T>(h: Hive<T>, id: nat): Loc
    requires id in h.store && 0 < h.store[id].highWater
  {
    Loc(id, h.store[id].highWater - 1)
  }

  /** Decrement; like the source it leaves an iterator without predecessor where it is. */
  function Prev<T>(h: Hive<T>, it: Iterator): Iterator
    requires forall id | id in h.active :: id in h.store && 0 < h.store[id].highWater <= |h.store[id].skip|
    requires it.At? ==> it.loc.block in h.active && it.loc.index < h.store[it.loc.block].highWater
  {
    if it.End? then
      if h.active == [] then End else At(Back(h, h.active[|h.active| - 1]))
    else
      var b, i := h.store[it.loc.block], it.loc.index;
      if i != 0 && SkipAt(b, i - 1) <= i - 1 then
        At(Loc(it.loc.block, i - 1 - SkipAt(b, i - 1)))
      else
        var k := Position(h.active, it.loc.block);
        if k == 0 then it else At(Back(h, h.active[k - 1]))
  }

  // ----- Jumps within a block

  ghost predicate NoneLive<T>(b: Block<T>, from: nat, to: nat) {
    forall j: nat | from <= j < to :: !IsLive(b, j)
  }

  /** From `n`, the slot after a live one or slot 0, the jump lands on the next live slot. */
  lemma JumpForward<T>(b: Block<T>, n: nat)
    requires Valid(b) && n < b.highWater && (n == 0 || IsLive(b, n - 1))
    ensures n < |b.skip| && n + b.skip[n] < b.highWater <= |b.skip|
    ensures IsLive(b, n + b.skip[n]) && NoneLive(b, n, n + b.skip[n])
  {
    var fl :| BlockInv(b, fl);
    assert HeadOk(b.skip, b.highWater, n);
  }

  /** Backwards from a live slot: the jump lands on the previous live slot, or shows there is none. */
  lemma JumpBack<T>(b: Block<T>, i: nat)
    requires Valid(b) && IsLive(b, i) && i > 0
    ensures b.skip[i - 1] <= i
    ensures b.skip[i - 1] <= i - 1 ==>
              IsLive(b, i - 1 - b.skip[i - 1]) && NoneLive(b, i - b.skip[i - 1], i)
    ensures b.skip[i - 1] == i ==> NoneLive(b, 0, i)
  {
    var fl :| BlockInv(b, fl);
    SidesOfLive(b.skip, b.highWater, i);
    assert HeadOk(b.skip, b.highWater, i - b.skip[i - 1]);
  }

  lemma ActiveReadable<T>(h: Hive<T>)
    requires Inv(h)
    ensures forall id | id in h.active ::
              && id in h.store && Valid(h.store[id])
              && 0 < h.store[id].highWater <= |h.store[id].skip|
              && IsLive(h.store[id], h.store[id].highWater - 1)
  {
    forall id | id in h.active
      ensures && id in h.store && Valid(h.store[id])
              && 0 < h.store[id].highWater <= |h.store[id].skip|
              && IsLive(h.store[id], h.store[id].highWater - 1)
    {
      assert BlockOk(h, id);
      BlockFacts(h.store[id]);
      var fl :| BlockInv(h.store[id], fl);
      var i :| i in Contents(h.store[id]);
    }
  }

  // ----- Order of locations

  /** A live location lies in an active block and is live in that block's skipfield. */
  lemma LiveFacts<T>(h: Hive<T>, l: Loc)
    requires Inv(h) && LiveAt(h, l)
    ensures l.block in h.active && l.block in h.store && l.block in h.order
    ensures Valid(h.store[l.block]) && IsLive(h.store[l.block], l.index)
  {
    assert BlockOk(h, l.block);
    BlockFacts(h.store[l.block]);
  }

  lemma LiveInBlock<T>(h: Hive<T>, l: Loc)
    requires Inv(h) && l.block in h.active && IsLive(h.store[l.block], l.index)
    ensures LiveAt(h, l)
  {
    assert BlockOk(h, l.block);
    BlockFacts(h.store[l.block]);
  }

  /** Comparison of blocks by their order number agrees with their place in the active list. */
  lemma OrderIsPosition<T>(h: Hive<T>, a: nat, c: nat)
    requires ListsOk(h) && OrderOk(h) && a in h.active && c in h.active
    ensures h.order[a] < h.order[c] <==> Position(h.active, a) < Position(h.active, c)
    ensures h.order[a] == h.order[c] <==> a == c
  {
    var p, q := Position(h.active, a), Position(h.active, c);
    assert h.active[p] == a && h.active[q] == c;
  }

  /** If `m` is the first live location after `t[p]`, then it is `t[p + 1]`. */
  lemma SuccessorUnique<T>(h: Hive<T>, t: seq<Loc>, p: nat, m: Loc)
    requires Traversal(h, t) && p < |t| && LiveAt(h, m) && m.block in h.order
    requires Before(h.order, t[p], m)
    requires forall q | 0 <= q < |t| :: !(Before(h.order, t[p], t[q]) && Before(h.order, t[q], m))
    ensures p + 1 < |t| && t[p + 1] == m
  {
    hide LiveAt;
    assert m in t;
    var q :| 0 <= q < |t| && t[q] == m;
    assert q > p;
  }

  lemma Ascending<T>(h: Hive<T>, t: seq<Loc>, p: nat, q: nat)
    requires Traversal(h, t) && p < q < |t|
    ensures t[p].block in h.order && t[q].block in h.order && Before(h.order, t[p], t[q])
  {
  }

  lemma LastUnique<T>(h: Hive<T>, t: seq<Loc>, p: nat)
    requires Traversal(h, t) && p < |t|
    requires forall q | 0 <= q < |t| :: !Before(h.order, t[p], t[q])
    ensures p + 1 == |t|
  {
    hide LiveAt;
    if p + 1 < |t| { Ascending(h, t, p, p + 1); }
  }

  // ----- Increment

  lemma NextInBlock<T>(h: Hive<T>, t: seq<Loc>, p: nat)
    requires Inv(h) && Traversal(h, t) && p < |t| && t[p].block in h.store
    requires t[p].index + 1 < h.store[t[p].block].highWater
    ensures var b, n := h.store[t[p].block], t[p].index + 1;
            && n < |b.skip| && p + 1 < |t| && t[p + 1] == Loc(t[p].block, n + b.skip[n])
  {
    hide Valid, Inv, BlocksOk, Contents;
    var l := t[p];
    assert l in t;
    LiveFacts(h, l);
    var b, n := h.store[l.block], l.index + 1;
    JumpForward(b, n);
    var m := Loc(l.block, n + b.skip[n]);
    LiveInBlock(h, m);
    forall q | 0 <= q < |t| ensures !(Before(h.order, l, t[q]) && Before(h.order, t[q], m)) {
      assert t[q] in t;
      LiveFacts(h, t[q]);
    }
    SuccessorUnique(h, t, p, m);
  }

  lemma NextOutOfBlock<T>(h: Hive<T>, t: seq<Loc>, p: nat, k: nat)
    requires Inv(h) && Traversal(h, t) && p < |t| && t[p].block in h.store
    requires t[p].index + 1 >= h.store[t[p].block].highWater
    requires k < |h.active| && h.active[k] == t[p].block
    ensures k + 1 == |h.active| ==> p + 1 == |t|
    ensures k + 1 < |h.active| ==>
              var c := h.active[k + 1];
              && c in h.store && 0 < |h.store[c].skip|
              && p + 1 < |t| && t[p + 1] == Loc(c, h.store[c].skip[0])
  {
    hide Valid, BlocksOk, Contents, AvailableOk, SumsOk;
    var l := t[p];
    assert forall m | m in h.active && h.order[l.block] < h.order[m] ::
        k + 1 < |h.active| && h.order[h.active[k + 1]] <= h.order[m] by {
      forall m | m in h.active && h.order[l.block] < h.order[m]
        ensures k + 1 < |h.active| && h.order[h.active[k + 1]] <= h.order[m]
      {
        var j :| 0 <= j < |h.active| && h.active[j] == m;
        assert j > k;
      }
    }
    if k + 1 == |h.active| {
      forall q | 0 <= q < |t| ensures !Before(h.order, l, t[q]) {
        assert t[q] in t;
        LiveFacts(h, t[q]);
      }
      LastUnique(h, t, p);
    } else {
      NextBlock(h, t, p, k);
    }
  }

  lemma NextBlock<T>(h: Hive<T>, t: seq<Loc>, p: nat, k: nat)
    requires Inv(h) && Traversal(h, t) && p < |t| && t[p].block in h.store
    requires t[p].index + 1 >= h.store[t[p].block].highWater
    requires k + 1 < |h.active| && h.active[k] == t[p].block
    requires forall m | m in h.active && h.order[t[p].block] < h.order[m] :: h.order[h.active[k + 1]] <= h.order[m]
    ensures var c := h.active[k + 1];
            && c in h.store && 0 < |h.store[c].skip|
            && p + 1 < |t| && t[p + 1] == Loc(c, h.store[c].skip[0])
  {
    hide Valid, BlocksOk, Contents, AvailableOk, SumsOk;
    var l, c := t[p], h.active[k + 1];
    ActiveReadable(h);
    assert c in h.active;
    JumpForward(h.store[c], 0);
    var m := Loc(c, h.store[c].skip[0]);
    LiveInBlock(h, m);
    forall q | 0 <= q < |t| ensures !(Before(h.order, l, t[q]) && Before(h.order, t[q], m)) {
      assert t[q] in t;
      LiveFacts(h, t[q]);
      OrderIsPosition(h, t[q].block, c);
    }
    SuccessorUnique(h, t, p, m);
  }

  /** Increment steps to the next element of the traversal, and to end after the last. */
  lemma NextIsSuccessor<T>(h: Hive<T>, t: seq<Loc>, p: nat)
    requires Inv(h) && Traversal(h, t) && p < |t|
    ensures t[p].block in h.active
    ensures forall id | id in h.active :: id in h.store && 0 < h.store[id].highWater <= |h.store[id].skip|
    ensures Next(h, t[p]) == if p + 1 < |t| then At(t[p + 1]) else End
  {
    hide Valid, BlocksOk, Contents, Inv;
    assert t[p] in t;
    LiveFacts(h, t[p]);
    ActiveReadable(h);
    if t[p].index + 1 < h.store[t[p].block].highWater {
      NextInBlock(h, t, p);
    } else {
      NextOutOfBlock(h, t, p, Position(h.active, t[p].block));
    }
  }

  lemma PredecessorUnique<T>(h: Hive<T>, t: seq<Loc>, p: nat, m: Loc)
    requires Traversal(h, t) && p < |t| && LiveAt(h, m) && m.block in h.order
    requires Before(h.order, m, t[p])
    requires forall q | 0 <= q < |t| :: !(Before(h.order, m, t[q]) && Before(h.order, t[q], t[p]))
    ensures 0 < p && t[p - 1] == m
  {
    hide LiveAt;
    assert m in t;
    var q :| 0 <= q < |t| && t[q] == m;
    assert q < p;
  }

  lemma FirstUnique<T>(h: Hive<T>, t: seq<Loc>, p: nat)
    requires Traversal(h, t) && p < |t|
    requires forall q | 0 <= q < |t| :: !Before(h.order, t[q], t[p])
    ensures p == 0
  {
    hide LiveAt;
    if p > 0 { Ascending(h, t, 0, p); }
  }

  // ----- Begin, end and decrement

  lemma BeginIsFirst<T>(h: Hive<T>, t: seq<Loc>)
    requires Inv(h) && Traversal(h, t)
    ensures forall id | id in h.active :: id in h.store && 0 < h.store[id].highWater <= |h.store[id].skip|
    ensures Begin(h) == if t == [] then End else At(t[0])
  {
    hide Valid, BlocksOk, Contents, AvailableOk, SumsOk;
    ActiveReadable(h);
    assert t != [] ==> t[0] in t;
    if h.active == [] {
      forall l | l in t ensures false { LiveFacts(h, l); }
    } else {
      var c := h.active[0];
      JumpForward(h.store[c], 0);
      var m := Loc(c, h.store[c].skip[0]);
      LiveInBlock(h, m);
      assert m in t;
      var p :| 0 <= p < |t| && t[p] == m;
      forall q | 0 <= q < |t| ensures !Before(h.order, t[q], m) {
        assert t[q] in t;
        LiveFacts(h, t[q]);
        OrderIsPosition(h, t[q].block, c);
      }
      FirstUnique(h, t, p);
    }
  }

  lemma PrevInBlock<T>(h: Hive<T>, t: seq<Loc>, p: nat)
    requires Inv(h) && Traversal(h, t) && p < |t| && t[p].block in h.store
    requires var b, i := h.store[t[p].block], t[p].index;
             0 < i <= |b.skip| && b.skip[i - 1] <= i - 1
    ensures var b, i := h.store[t[p].block], t[p].index;
            0 < p && t[p - 1] == Loc(t[p].block, i - 1 - b.skip[i - 1])
  {
    hide Valid, Inv, BlocksOk, Contents;
    var l := t[p];
    assert l in t;
    LiveFacts(h, l);
    var b, i := h.store[l.block], l.index;
    JumpBack(b, i);
    var m := Loc(l.block, i - 1 - b.skip[i - 1]);
    LiveInBlock(h, m);
    forall q | 0 <= q < |t| ensures !(Before(h.order, m, t[q]) && Before(h.order, t[q], l)) {
      assert t[q] in t;
      LiveFacts(h, t[q]);
    }
    PredecessorUnique(h, t, p, m);
  }

  /** The last slot of a block is the greatest live location below any later block. */
  lemma PrevBlock<T>(h: Hive<T>, t: seq<Loc>, p: nat, k: nat)
    requires Inv(h) && Traversal(h, t) && p < |t| && t[p].block in h.store
    requires k < |h.active| && h.active[k] == t[p].block
    requires NoneLive(h.store[t[p].block], 0, t[p].index)
    ensures k == 0 ==> p == 0
    ensures k > 0 ==>
              var c := h.active[k - 1];
              && c in h.store && 0 < h.store[c].highWater
              && 0 < p && t[p - 1] == Back(h, c)
  {
    hide Valid, BlocksOk, Contents, AvailableOk, SumsOk;
    ActiveReadable(h);
    var l := t[p];
    if k == 0 {
      forall q | 0 <= q < |t| ensures !Before(h.order, t[q], l) {
        assert t[q] in t;
        LiveFacts(h, t[q]);
        OrderIsPosition(h, t[q].block, l.block);
      }
      FirstUnique(h, t, p);
    } else {
      var c := h.active[k - 1];
      assert c in h.active;
      var m := Back(h, c);
      LiveInBlock(h, m);
      forall q | 0 <= q < |t| ensures !(Before(h.order, m, t[q]) && Before(h.order, t[q], l)) {
        assert t[q] in t;
        LiveFacts(h, t[q]);
        NothingBetween(h, k, t[q].block);
      }
      PredecessorUnique(h, t, p, m);
    }
  }

  lemma NothingBetween<T>(h: Hive<T>, k: nat, id: nat)
    requires ListsOk(h) && OrderOk(h) && 0 < k < |h.active| && id in h.active
    ensures !(h.order[h.active[k - 1]] < h.order[id] < h.order[h.active[k]])
  {
    var j :| 0 <= j < |h.active| && h.active[j] == id;
  }

  lemma EndPredecessor<T>(h: Hive<T>, t: seq<Loc>)
    requires Inv(h) && Traversal(h, t) && h.active != []
    ensures var c := h.active[|h.active| - 1];
            && c in h.store && 0 < h.store[c].highWater
            && t != [] && t[|t| - 1] == Back(h, c)
  {
    hide Valid, BlocksOk, Contents, AvailableOk, SumsOk;
    ActiveReadable(h);
    var c := h.active[|h.active| - 1];
    assert c in h.active;
    LiveInBlock(h, Back(h, c));
    assert Back(h, c) in t;
    var p :| 0 <= p < |t| && t[p] == Back(h, c);
    forall q | 0 <= q < |t| ensures !Before(h.order, t[p], t[q]) {
      assert t[q] in t;
      LiveFacts(h, t[q]);
      OrderIsPosition(h, c, t[q].block);
    }
    LastUnique(h, t, p);
  }

  /** Decrement steps to the previous element, from end to the last one. */
  lemma PrevIsPredecessor<T>(h: Hive<T>, t: seq<Loc>, p: nat)
    requires Inv(h) && Traversal(h, t) && 0 < p <= |t|
    ensures forall id | id in h.active :: id in h.store && 0 < h.store[id].highWater <= |h.store[id].skip|
    ensures p < |t| ==> t[p].block in h.active && t[p].index < h.store[t[p].block].highWater
    ensures Prev(h, if p < |t| then At(t[p]) else End) == At(t[p - 1])
  {
    hide Valid, BlocksOk, Contents, AvailableOk, SumsOk;
    ActiveReadable(h);
    if p == |t| {
      assert t[0] in t;
      LiveFacts(h, t[0]);
      EndPredecessor(h, t);
    } else {
      assert t[p] in t;
      LiveFacts(h, t[p]);
      var b, i := h.store[t[p].block], t[p].index;
      if i > 0 { JumpBack(b, i); }
      if i != 0 && b.skip[i - 1] <= i - 1 {
        PrevInBlock(h, t, p);
      } else {
        PrevBlock(h, t, p, Position(h.active, t[p].block));
      }
    }
  }

  /** Decrement undoes increment everywhere, across block boundaries and at end. */
  lemma PrevUndoesNext<T>(h: Hive<T>, t: seq<Loc>, l: Loc)
    requires Inv(h) && Traversal(h, t) && LiveAt(h, l)
    ensures l.block in h.active
    ensures forall id | id in h.active :: id in h.store && 0 < h.store[id].highWater <= |h.store[id].skip|
    ensures var n := Next(h, l);
            && (n.At? ==> n.loc.block in h.active && n.loc.index < h.store[n.loc.block].highWater)
            && Prev(h, n) == At(l)
  {
    hide Inv, Next, Prev;
    assert l in t;
    var p :| 0 <= p < |t| && t[p] == l;
    NextIsSuccessor(h, t, p);
    PrevIsPredecessor(h, t, p + 1);
  }

  /** Positions in a traversal compare like their elements. */
  lemma TraversalPositions<T>(h: Hive<T>, t: seq<Loc>, p: nat, q: nat)
    requires Inv(h) && Traversal(h, t) && p < |t| && q < |t|
    ensures t[p].block in h.order && t[q].block in h.order
    ensures Before(h.order, t[p], t[q]) <==> p < q
    ensures t[p] == t[q] <==> p == q
  {
    hide LiveAt, BlocksOk;
    assert t[p] in t && t[q] in t;
    if q < p { assert Before(h.order, t[q], t[p]); }
    if p < q { assert Before(h.order, t[p], t[q]); }
  }

  /** There is only one traversal: the order and the live set determine it. */
  lemma TraversalUnique<T>(h: Hive<T>, t: seq<Loc>, u: seq<Loc>)
    requires Inv(h) && Traversal(h, t) && Traversal(h, u)
    ensures t == u
  {
    hide Inv;
    if t != [] && u != [] { BeginIsFirst(h, t); BeginIsFirst(h, u); }
    var n := 0;
    while n < |t| && n < |u|
      invariant n <= |t| && n <= |u| && t[..n] == u[..n]
    {
      if n > 0 {
        NextIsSuccessor(h, t, n - 1);
        NextIsSuccessor(h, u, n - 1);
        assert t[n - 1] == t[..n][n - 1] == u[n - 1];
      }
      n := n + 1;
    }
    if n > 0 {
      NextIsSuccessor(h, t, n - 1);
      NextIsSuccessor(h, u, n - 1);
      assert t[n - 1] == t[..n][n - 1] == u[n - 1];
    } else {
      BeginIsFirst(h, t);
      BeginIsFirst(h, u);
    }
    assert t == t[..n] && u == u[..n];
  }
}
