/**
  Where a block puts a new element, and what erase_if and unique leave, told without the
  functions that compute it.
 */
module HiveOutcomes {
  import opened HiveBlock
  import opened HiveBlockProofs
  import opened HiveModel
  import opened HiveModelProofs
  import opened HiveAlgorithms
  import opened HiveCapacity
  import opened HiveRebuild
  import Planner = HivePlanner

  // ----- The slot an element gets

  /** Some slot below the high-water mark is dead. */
  ghost predicate HasHole<T>(b: Block<T>)
    requires Sized(b)
  {
    exists i: nat :: i < b.highWater && !b.slots[i].Live?
  }

  lemma HoleIffNode<T>(b: Block<T>)
    requires Valid(b)
    ensures Sized(b) && (HasHole(b) <==> b.freeHead != NPOS)
    ensures b.freeHead != NPOS ==> b.freeHead < b.highWater && !b.slots[b.freeHead].Live?
  {
    var fl :| BlockInv(b, fl);
    if b.freeHead != NPOS {
      assert fl[0] == b.freeHead && Head(b.skip, b.highWater, fl[0]);
    } else {
      forall i: nat | i < b.highWater ensures b.slots[i].Live? {
        NoNodeNoDead(b.skip, b.highWater, i);
      }
    }
  }

  /** Holes are filled before fresh slots are used: the high-water mark rises only over a gapless prefix. */
  lemma FillsHolesFirst<T>(b: Block<T>, v: T)
    requires Valid(b) && HasSpace(b)
    ensures Sized(b) && EmplaceReadable(b)
    ensures var b' := EmplaceCommit(b, v);
      if HasHole(b) then EmplaceIndex(b) < b.highWater && b'.highWater == b.highWater
      else EmplaceIndex(b) == b.highWater && b'.highWater == b.highWater + 1
  {
    HoleIffNode(b);
    var fl :| BlockInv(b, fl);
    ReadableEmplace(b, fl);
    HighWaterKept(b, v);
  }

  lemma HighWaterKept<T>(b: Block<T>, v: T)
    requires Sized(b) && HasSpace(b) && EmplaceReadable(b)
    ensures EmplaceCommit(b, v).highWater == if b.freeHead != NPOS then b.highWater else b.highWater + 1
  {
  }

  /** The slot of an element erased between two live ones is the next to be filled. */
  lemma FreedSlotIsNext<T>(b: Block<T>, x: nat)
    requires Valid(b) && IsLive(b, x) && x + 1 < b.highWater && b.skip[x + 1] == 0 && (x > 0 ==> b.skip[x - 1] == 0)
    ensures EraseReadable(b, x) && EmplaceIndex(Erase(b, x)) == x
  {
    var fl :| BlockInv(b, fl);
    ReadableErase(b, fl, x);
  }

  /** The first element of a block that has just become active comes last in the traversal. */
  lemma NewBlockIsLast<T>(h: Hive<T>, h': Hive<T>, t: seq<Loc>, l: Loc, v: T)
    requires Inv(h) && Inv(h') && Traversal(h, t) && AddedAt(h, h', l, v) && h'.active == h.active + [l.block]
    ensures Traversal(h', t + [l])
  {
    hide LiveAt, ValueAt, BlocksOk, AvailableOk, SumsOk, OrderOk;
    var u := t + [l];
    forall m | m in u ensures LiveAt(h', m) && m.block in h'.order {
      LiveBlock(h', if m in t then m else l);
    }
    forall p, q | 0 <= p < q < |u| ensures Before(h'.order, u[p], u[q]) {
      assert u[p] == t[p] && t[p] in t;
      LiveBlock(h, t[p]);
      if q == |t| {
        OlderBlock(h, h', t[p].block, l.block);
      } else {
        assert t[q] in t;
        LiveBlock(h, t[q]);
      }
    }
  }

  lemma OlderBlock<T>(h: Hive<T>, h': Hive<T>, id: nat, newest: nat)
    requires Inv(h') && h'.active == h.active + [newest] && id in h.active
    ensures id in h'.order && newest in h'.order && id != newest && h'.order[id] < h'.order[newest]
  {
    var k :| 0 <= k < |h.active| && h.active[k] == id;
    assert h'.active[k] == id && h'.active[|h.active|] == newest;
  }

  // ----- erase_if

  ghost predicate Increasing(at: seq<nat>) {
    forall i, j | 0 <= i < j < |at| :: at[i] < at[j]
  }

  /** `r` is `s` at the positions `at`, in order. */
  ghost predicate Picks<T>(s: seq<T>, at: seq<nat>, r: seq<T>) {
    && |at| == |r| && Increasing(at)
    && forall i | 0 <= i < |at| :: at[i] < |s| && r[i] == s[at[i]]
  }

  lemma PicksLonger<T>(s: seq<T>, at: seq<nat>, r: seq<T>)
    requires s != [] && Picks(s[..|s| - 1], at, r)
    ensures Picks(s, at, r) && Picks(s, at + [|s| - 1], r + [s[|s| - 1]])
  {
  }

  /** `at` holds exactly the positions of the elements that fail the predicate. */
  ghost predicate Failing<T>(s: seq<T>, pred: T -> bool, at: seq<nat>) {
    forall k: nat :: k in at <==> k < |s| && !pred(s[k])
  }

  lemma FailingLonger<T>(s: seq<T>, pred: T -> bool, at: seq<nat>)
    requires s != [] && Failing(s[..|s| - 1], pred, at)
    ensures Failing(s, pred, at + if pred(s[|s| - 1]) then [] else [|s| - 1])
  {
    var n := |s| - 1;
    forall k: nat ensures k in at + (if pred(s[n]) then [] else [n]) <==> k < |s| && !pred(s[k]) {
      if k < n { assert s[..n][k] == s[k]; }
      assert k in at <==> k < n && !pred(s[k]);
    }
  }

  lemma FilterStep<T>(s: seq<T>, pred: T -> bool)
    requires s != []
    ensures Filter(s, pred) == Filter(s[..|s| - 1], pred) + if pred(s[|s| - 1]) then [] else [s[|s| - 1]]
  {
  }

  /** Exactly the elements that fail the predicate are left, in their order. */
  lemma {:induction false} FilterMeaning<T>(s: seq<T>, pred: T -> bool) returns (at: seq<nat>)
    ensures Picks(s, at, Filter(s, pred)) && Failing(s, pred, at)
    decreases |s|
  {
    if s == [] {
      at := [];
    } else {
      var n := |s| - 1;
      var before := FilterMeaning(s[..n], pred);
      FilterStep(s, pred);
      FailingLonger(s, pred, before);
      hide Filter, Picks, Failing;
      PicksLonger(s, before, Filter(s[..n], pred));
      at := before + if pred(s[n]) then [] else [n];
      if pred(s[n]) {
        assert at == before && Filter(s, pred) == Filter(s[..n], pred);
      }
    }
  }

  // ----- unique

  /** The kept position `i` represents everything up to the next kept one. */
  ghost predicate Represents<T>(s: seq<T>, same: (T, T) -> bool, at: seq<nat>, i: nat)
    requires i < |at| && forall j | 0 <= j < |at| :: at[j] < |s|
  {
    && (i > 0 ==> !same(s[at[i]], s[at[i - 1]]))
    && forall k | at[i] < k < (if i + 1 < |at| then at[i + 1] else |s|) :: same(s[k], s[at[i]])
  }

  lemma UniquedStep<T>(s: seq<T>, same: (T, T) -> bool)
    requires |s| > 1
    ensures var kept, v := Uniqued(s[..|s| - 1], same), s[|s| - 1];
      kept != [] && Uniqued(s, same) == if same(v, kept[|kept| - 1]) then kept else kept + [v]
  {
  }

  /** The first element stays, and every kept position represents what follows it. */
  ghost predicate Representing<T>(s: seq<T>, same: (T, T) -> bool, at: seq<nat>) {
    && (s != [] ==> at != [] && at[0] == 0)
    && (forall j | 0 <= j < |at| :: at[j] < |s|)
    && (forall i: nat | i < |at| :: Represents(s, same, at, i))
  }

  /** The first element stays; each later one stays exactly if it differs from the last that stayed before it. */
  lemma {:induction false} UniquedMeaning<T>(s: seq<T>, same: (T, T) -> bool) returns (at: seq<nat>)
    ensures Picks(s, at, Uniqued(s, same)) && Representing(s, same, at)
    decreases |s|
  {
    if |s| <= 1 {
      at := if s == [] then [] else [0];
    } else {
      var n := |s| - 1;
      var before := UniquedMeaning(s[..n], same);
      UniquedStep(s, same);
      var kept := Uniqued(s[..n], same);
      hide Uniqued, Representing;
      LastKept(s, before, kept, same);
      PicksLonger(s, before, kept);
      hide Picks;
      at := if same(s[n], kept[|kept| - 1]) then before else before + [n];
      RepresentingLonger(s, same, before, at);
    }
  }

  lemma LastKept<T>(s: seq<T>, before: seq<nat>, kept: seq<T>, same: (T, T) -> bool)
    requires |s| > 1 && Picks(s[..|s| - 1], before, kept) && Representing(s[..|s| - 1], same, before)
    ensures before != [] && kept != [] && before[|before| - 1] < |s| && kept[|kept| - 1] == s[before[|before| - 1]]
  {
    hide Represents, Increasing;
  }

  lemma RepresentingLonger<T>(s: seq<T>, same: (T, T) -> bool, before: seq<nat>, at: seq<nat>)
    requires |s| > 1 && Representing(s[..|s| - 1], same, before)
    requires before != [] && before[|before| - 1] < |s|
    requires at == if same(s[|s| - 1], s[before[|before| - 1]]) then before else before + [|s| - 1]
    ensures Representing(s, same, at)
  {
    hide Represents;
    forall i: nat | i < |at| ensures Represents(s, same, at, i) {
      if i < |before| { StillRepresents(s, same, before, at, i); } else { LastRepresents(s, same, before); }
    }
  }

  lemma LastRepresents<T>(s: seq<T>, same: (T, T) -> bool, before: seq<nat>)
    requires s != [] && before != [] && forall j | 0 <= j < |before| :: before[j] < |s| - 1
    requires !same(s[|s| - 1], s[before[|before| - 1]])
    ensures Represents(s, same, before + [|s| - 1], |before|)
  {
  }

  lemma StillRepresents<T>(s: seq<T>, same: (T, T) -> bool, before: seq<nat>, at: seq<nat>, i: nat)
    requires |s| > 1 && i < |before| && forall j | 0 <= j < |before| :: before[j] < |s| - 1
    requires Represents(s[..|s| - 1], same, before, i)
    requires at == before + [|s| - 1] || (at == before && same(s[|s| - 1], s[before[|before| - 1]]))
    ensures Represents(s, same, at, i)
  {
    var n := |s| - 1;
    assert forall k | 0 <= k < n :: s[..n][k] == s[k];
  }

  // ----- shrink_to_fit

  lemma ActiveHasElements<T>(h: Hive<T>)
    requires Inv(h) && h.active != []
    ensures h.size > 0
  {
    hide Valid, HasSpace;
    assert h.active[0] in h.active;
    assert BlockOk(h, h.active[0]);
  }

  /** Without elements there are no active blocks, so nothing is left of the capacity. */
  lemma EmptyHasNoActive<T>(h: Hive<T>)
    requires Inv(h) && h.size == 0
    ensures ActiveCapacity(h) == 0
  {
    if h.active != [] { ActiveHasElements(h); }
  }

  /**
    A shrink that succeeds leaves the least capacity possible: no list of blocks within the
    limits that holds the elements has less than the plan or, where there is none, than the
    active blocks that stay.
   */
  lemma ShrinkIsLeast<T>(h: Hive<T>, maxSize: nat, allocatorMax: nat, caps: seq<nat>)
    requires Inv(h) && Planner.Legal(caps, h.min, BlockLimit(h.max, allocatorMax))
    requires h.size <= Planner.Sum(caps) <= maxSize
    ensures var plan := ShrinkPlan(h, maxSize, allocatorMax);
      (if plan.Some? then plan.value.added else ActiveCapacity(h)) <= Planner.Sum(caps)
  {
    hide ListsOk, BlocksOk, AvailableOk, OrderOk, SumsOk, ActiveCapacity, BlockLimit;
    var top := BlockLimit(h.max, allocatorMax);
    if h.size == 0 {
      EmptyHasNoActive(h);
    } else {
      Planner.PlanComplete(0, h.size, maxSize, h.min, top, caps);
      Planner.PlanOptimal(0, h.size, maxSize, h.min, top, caps);
    }
  }
}
