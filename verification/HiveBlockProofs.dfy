/**
  What every block operation keeps: each emplace and erase case preserves the
  block invariant and changes the abstract contents at exactly one slot.
 */
module HiveBlockProofs {
  import opened HiveBlock

  // ----- The free list as a sequence

  /** Slots whose bytes a relinking step leaves alone, and what it keeps of the rest. */
  ghost predicate SameButLinks<T>(b: Block<T>, b': Block<T>, fl: seq<nat>) {
    && b' == b.(slots := b'.slots, freeHead := b'.freeHead)
    && |b'.slots| == |b.slots|
    && (forall i: nat | i < |b.slots| && i !in fl :: b'.slots[i] == b.slots[i])
    && (forall i: nat | i < |b.slots| && i in fl && b.slots[i] != b'.slots[i] :: b.slots[i].Links? && b'.slots[i].Links?)
  }

  /** What UnlinkFreeRun writes, slot by slot. */
  lemma UnlinkWrites<T>(b: Block<T>, links: Slot<T>)
    requires |b.slots| <= SLOT_NPOS && links.Links?
    requires links.previous == links.next ==> links.next == SLOT_NPOS
    requires Target(b.slots, links.previous) && Target(b.slots, links.next)
    ensures var b' := UnlinkFreeRun(b, links);
            && b' == b.(slots := b'.slots,
                        freeHead := if links.previous == SLOT_NPOS then ToWideIndex(links.next) else b.freeHead)
            && |b'.slots| == |b.slots|
            && forall i: nat | i < |b.slots| :: b'.slots[i] ==
                 if i == links.previous then Links(b.slots[i].previous, links.next)
                 else if i == links.next then Links(links.previous, b.slots[i].next)
                 else b.slots[i]
  {
  }

  lemma UnlinkRemoves<T>(b: Block<T>, fl: seq<nat>, p: nat)
    requires p < |fl| && LinkedExcept(b.slots, b.freeHead, fl, p)
    ensures Target(b.slots, PrevOf(fl, p)) && Target(b.slots, NextOf(fl, p))
    ensures var b' := UnlinkFreeRun(b, Links(PrevOf(fl, p), NextOf(fl, p)));
            && Linked(b'.slots, b'.freeHead, Without(fl, p))
            && SameButLinks(b, b', Without(fl, p))
  {
    assert NodeOk(b.slots, fl, p - 1) && NodeOk(b.slots, fl, p + 1);
    UnlinkWrites(b, Links(PrevOf(fl, p), NextOf(fl, p)));
    UnlinkRemovesIn(b, fl, p, UnlinkFreeRun(b, Links(PrevOf(fl, p), NextOf(fl, p))));
  }

  lemma UnlinkRemovesIn<T>(b: Block<T>, fl: seq<nat>, p: nat, b': Block<T>)
    requires p < |fl| && LinkedExcept(b.slots, b.freeHead, fl, p)
    requires Target(b.slots, PrevOf(fl, p)) && Target(b.slots, NextOf(fl, p))
    requires b' == b.(slots := b'.slots, freeHead := if p == 0 then ToWideIndex(NextOf(fl, p)) else b.freeHead)
    requires |b'.slots| == |b.slots|
    requires forall i: nat | i < |b.slots| :: b'.slots[i] ==
               if i == PrevOf(fl, p) then Links(b.slots[i].previous, NextOf(fl, p))
               else if i == NextOf(fl, p) then Links(PrevOf(fl, p), b.slots[i].next)
               else b.slots[i]
    ensures Linked(b'.slots, b'.freeHead, Without(fl, p))
    ensures SameButLinks(b, b', Without(fl, p))
  {
    var fl' := Without(fl, p);
    forall q ensures NodeOk(b'.slots, fl', q) {
      var r := if q < p then q else q + 1;
      assert NodeOk(b.slots, fl, r);
      assert 0 <= q < |fl'| ==> fl'[q] == fl[r];
    }
    assert p > 0 ==> fl'[p - 1] == fl[p - 1];
    assert p + 1 < |fl| ==> fl'[p] == fl[p + 1];
  }

  /** What MoveFreeRun writes, slot by slot. */
  lemma MoveWrites<T>(b: Block<T>, index: nat, links: Slot<T>)
    requires index < |b.slots| <= SLOT_NPOS && links.Links? && links.previous != index && links.next != index
    requires links.previous == links.next ==> links.next == SLOT_NPOS
    requires Target(b.slots, links.previous) && Target(b.slots, links.next)
    ensures var b' := MoveFreeRun(b, index, links);
            && b' == b.(slots := b'.slots, freeHead := if links.previous == SLOT_NPOS then index else b.freeHead)
            && |b'.slots| == |b.slots|
            && forall i: nat | i < |b.slots| :: b'.slots[i] ==
                 if i == index then links
                 else if i == links.previous then Links(b.slots[i].previous, index)
                 else if i == links.next then Links(index, b.slots[i].next)
                 else b.slots[i]
  {
  }

  lemma MoveReplaces<T>(b: Block<T>, fl: seq<nat>, p: nat, index: nat)
    requires p < |fl| && LinkedExcept(b.slots, b.freeHead, fl, p)
    requires index < |b.slots| && (forall q | 0 <= q < |fl| :: q != p ==> fl[q] != index)
    ensures Target(b.slots, PrevOf(fl, p)) && Target(b.slots, NextOf(fl, p))
    ensures var b' := MoveFreeRun(b, index, Links(PrevOf(fl, p), NextOf(fl, p)));
            && Linked(b'.slots, b'.freeHead, fl[p := index])
            && SameButLinks(b.(slots := b.slots[index := b'.slots[index]]), b', fl[p := index])
  {
    assert NodeOk(b.slots, fl, p - 1) && NodeOk(b.slots, fl, p + 1);
    MoveWrites(b, index, Links(PrevOf(fl, p), NextOf(fl, p)));
    MoveReplacesIn(b, fl, p, index, MoveFreeRun(b, index, Links(PrevOf(fl, p), NextOf(fl, p))));
  }

  lemma MoveReplacesIn<T>(b: Block<T>, fl: seq<nat>, p: nat, index: nat, b': Block<T>)
    requires p < |fl| && LinkedExcept(b.slots, b.freeHead, fl, p)
    requires index < |b.slots| && (forall q | 0 <= q < |fl| :: q != p ==> fl[q] != index)
    requires b' == b.(slots := b'.slots, freeHead := if p == 0 then index else b.freeHead)
    requires Target(b.slots, PrevOf(fl, p)) && Target(b.slots, NextOf(fl, p))
    requires |b'.slots| == |b.slots|
    requires forall i: nat | i < |b.slots| :: b'.slots[i] ==
               if i == index then Links(PrevOf(fl, p), NextOf(fl, p))
               else if i == PrevOf(fl, p) then Links(b.slots[i].previous, index)
               else if i == NextOf(fl, p) then Links(index, b.slots[i].next)
               else b.slots[i]
    ensures Linked(b'.slots, b'.freeHead, fl[p := index])
    ensures SameButLinks(b.(slots := b.slots[index := b'.slots[index]]), b', fl[p := index])
  {
    var fl' := fl[p := index];
    forall q ensures NodeOk(b'.slots, fl', q) {
      assert q != p ==> NodeOk(b.slots, fl, q);
    }
    assert p > 0 ==> fl'[p - 1] == fl[p - 1];
    assert p + 1 < |fl| ==> fl'[p + 1] == fl[p + 1];
  }

  lemma PushPrepends<T>(b: Block<T>, fl: seq<nat>, index: nat)
    requires Linked(b.slots, b.freeHead, fl) && index < |b.slots| && index !in fl
    ensures Target(b.slots, ToSlotIndex(b.freeHead))
    ensures var b' := PushFreeRun(b, index);
            && Linked(b'.slots, b'.freeHead, [index] + fl)
            && SameButLinks(b.(slots := b.slots[index := b'.slots[index]]), b', [index] + fl)
  {
    assert NodeOk(b.slots, fl, 0);
    var b' := PushFreeRun(b, index);
    var fl' := [index] + fl;
    forall q ensures NodeOk(b'.slots, fl', q) {
      assert NodeOk(b.slots, fl, q - 1);
    }
  }

  // ----- The skipfield: how each case changes the set of runs

  lemma RunsIsolated(s: seq<nat>, hw: nat, x: nat, t: seq<nat>)
    requires x + 1 < hw <= |s| && RunsOk(s, hw) && s[x] == 0 && s[x + 1] == 0
    requires (x == 0 || s[x - 1] == 0) && t == s[x := 1]
    ensures RunsOk(t, hw)
    ensures forall i :: Head(t, hw, i) <==> i == x || Head(s, hw, i)
  {
    forall i ensures HeadOk(t, hw, i) { assert HeadOk(s, hw, i); }
    forall j ensures TailOk(t, hw, j) { assert TailOk(s, hw, j); }
  }

  lemma RunsMergeLeft(s: seq<nat>, hw: nat, x: nat, t: seq<nat>)
    requires 0 < x && x + 1 < hw <= |s| && RunsOk(s, hw) && s[x] == 0 && s[x + 1] == 0 && s[x - 1] != 0
    requires s[x - 1] <= x && t == s[x - s[x - 1] := s[x - 1] + 1][x := s[x - 1] + 1]
    ensures RunsOk(t, hw)
    ensures forall i :: Head(t, hw, i) <==> Head(s, hw, i)
  {
    SidesOfLive(s, hw, x);
    assert HeadOk(s, hw, x - s[x - 1]);
    forall i ensures HeadOk(t, hw, i) { assert HeadOk(s, hw, i); }
    forall j ensures TailOk(t, hw, j) { assert TailOk(s, hw, j); }
  }

  lemma RunsMergeRight(s: seq<nat>, hw: nat, x: nat, t: seq<nat>)
    requires x + 1 < hw <= |s| && RunsOk(s, hw) && s[x] == 0 && s[x + 1] != 0
    requires x == 0 || s[x - 1] == 0
    requires x + s[x + 1] < hw && t == s[x := s[x + 1] + 1][x + s[x + 1] := s[x + 1] + 1]
    ensures RunsOk(t, hw)
    ensures forall i :: Head(t, hw, i) <==> i == x || (Head(s, hw, i) && i != x + 1)
  {
    SidesOfLive(s, hw, x);
    assert HeadOk(s, hw, x + 1);
    forall i ensures HeadOk(t, hw, i) { assert HeadOk(s, hw, i); }
    forall j ensures TailOk(t, hw, j) { assert TailOk(s, hw, j); }
  }

  /** `t` is `s` after the live slot `x` joined the runs on both sides into one. */
  ghost predicate MergedBoth(s: seq<nat>, hw: nat, x: nat, t: seq<nat>) {
    && 0 < x && x + 1 < hw <= |s|
    && s[x] == 0 && s[x - 1] != 0 && s[x + 1] != 0
    && s[x - 1] <= x && x + s[x + 1] < hw
    && var n := s[x - 1] + s[x + 1] + 1; t == s[x - s[x - 1] := n][x + s[x + 1] := n][x := 1]
  }

  lemma RunsMergeBothHead(s: seq<nat>, hw: nat, x: nat, t: seq<nat>, i: int)
    requires MergedBoth(s, hw, x, t) && RunsOk(s, hw)
    ensures HeadOk(t, hw, i) && (Head(t, hw, i) <==> Head(s, hw, i) && i != x + 1)
  {
    SidesOfLive(s, hw, x);
    assert HeadOk(s, hw, x - s[x - 1]) && HeadOk(s, hw, x + 1) && HeadOk(s, hw, i);
  }

  lemma RunsMergeBothTail(s: seq<nat>, hw: nat, x: nat, t: seq<nat>, j: int)
    requires MergedBoth(s, hw, x, t) && RunsOk(s, hw)
    ensures TailOk(t, hw, j)
  {
    SidesOfLive(s, hw, x);
    assert HeadOk(s, hw, x - s[x - 1]) && HeadOk(s, hw, x + 1) && TailOk(s, hw, j);
  }

  lemma RunsMergeBoth(s: seq<nat>, hw: nat, x: nat, t: seq<nat>)
    requires MergedBoth(s, hw, x, t) && RunsOk(s, hw)
    ensures RunsOk(t, hw) && |t| == |s|
    ensures t[x] != 0 && forall i: nat | i < |s| && i != x :: s[i] == 0 <==> t[i] == 0
    ensures forall i :: Head(t, hw, i) <==> Head(s, hw, i) && i != x + 1
  {
    forall i ensures HeadOk(t, hw, i) && (Head(t, hw, i) <==> Head(s, hw, i) && i != x + 1) {
      RunsMergeBothHead(s, hw, x, t, i);
    }
    forall j ensures TailOk(t, hw, j) { RunsMergeBothTail(s, hw, x, t, j); }
    SidesOfLive(s, hw, x);
  }

  /** Dropping a suffix that starts right after a live slot (or at slot 0). */
  lemma RunsTrim(s: seq<nat>, hw: nat, cut: nat)
    requires cut < hw <= |s| && RunsOk(s, hw) && (cut == 0 || s[cut - 1] == 0)
    ensures RunsOk(s, cut)
    ensures forall i :: Head(s, cut, i) <==> Head(s, hw, i) && i < cut
  {
    forall i ensures HeadOk(s, cut, i) { assert HeadOk(s, hw, i); }
    forall j ensures TailOk(s, cut, j) { assert TailOk(s, hw, j); }
  }

  lemma RunsAppend(s: seq<nat>, hw: nat, t: seq<nat>, hw': nat)
    requires hw < |s| && RunsOk(s, hw) && (hw == 0 || s[hw - 1] == 0)
    requires t == s[hw := 0] && hw' == hw + 1
    ensures RunsOk(t, hw')
    ensures forall i :: Head(t, hw', i) <==> Head(s, hw, i)
  {
    forall i ensures HeadOk(t, hw', i) { assert HeadOk(s, hw, i); }
    forall j ensures TailOk(t, hw', j) { assert TailOk(s, hw, j); }
  }

  lemma RunsReuseOne(s: seq<nat>, hw: nat, x: nat, t: seq<nat>)
    requires hw <= |s| && RunsOk(s, hw) && Head(s, hw, x) && s[x] == 1 && t == s[x := 0]
    ensures RunsOk(t, hw)
    ensures forall i :: Head(t, hw, i) <==> Head(s, hw, i) && i != x
  {
    assert HeadOk(s, hw, x);
    forall i ensures HeadOk(t, hw, i) { assert HeadOk(s, hw, i); }
    forall j ensures TailOk(t, hw, j) { assert TailOk(s, hw, j); }
  }

  lemma RunsReuseMany(s: seq<nat>, hw: nat, x: nat, t: seq<nat>)
    requires hw <= |s| && RunsOk(s, hw) && Head(s, hw, x) && s[x] > 1 && x + s[x] <= hw
    requires t == s[x := 0][x + 1 := s[x] - 1][x + s[x] - 1 := s[x] - 1]
    ensures RunsOk(t, hw)
    ensures forall i :: Head(t, hw, i) <==> i == x + 1 || (Head(s, hw, i) && i != x)
  {
    assert HeadOk(s, hw, x);
    forall i ensures HeadOk(t, hw, i) { assert HeadOk(s, hw, i); }
    forall j ensures TailOk(t, hw, j) { assert TailOk(s, hw, j); }
  }

  // ----- The free list still lists exactly the run heads

  lemma HeadsWithout(s: seq<nat>, hw: nat, t: seq<nat>, hw': nat, fl: seq<nat>, p: nat)
    requires hw <= |s| && hw' <= |t| && p < |fl| && Distinct(fl) && NodesAreHeads(s, hw, fl)
    requires forall i :: Head(t, hw', i) <==> Head(s, hw, i) && i != fl[p]
    ensures NodesAreHeads(t, hw', Without(fl, p))
  {
    forall i | Head(t, hw', i) ensures i in Without(fl, p) {
      assert i in fl;
      var q :| 0 <= q < |fl| && fl[q] == i;
      assert Without(fl, p)[if q < p then q else q - 1] == i;
    }
    forall q | 0 <= q < |Without(fl, p)| ensures Head(t, hw', Without(fl, p)[q]) {
      var r := if q < p then q else q + 1;
      assert Without(fl, p)[q] == fl[r] && Head(s, hw, fl[r]) && fl[r] != fl[p];
    }
  }

  lemma HeadsReplaced(s: seq<nat>, hw: nat, t: seq<nat>, fl: seq<nat>, p: nat, y: nat)
    requires hw <= |s| && hw <= |t| && p < |fl| && Distinct(fl) && NodesAreHeads(s, hw, fl)
    requires forall i :: Head(t, hw, i) <==> i == y || (Head(s, hw, i) && i != fl[p])
    ensures NodesAreHeads(t, hw, fl[p := y])
  {
    var fl' := fl[p := y];
    forall i | Head(t, hw, i) ensures i in fl' {
      if i == y {
        assert fl'[p] == i;
      } else {
        assert i in fl;
        var q :| 0 <= q < |fl| && fl[q] == i;
        assert fl'[q] == i;
      }
    }
    forall q | 0 <= q < |fl'| ensures Head(t, hw, fl'[q]) {
      if q != p { assert Head(s, hw, fl[q]) && fl[q] != fl[p]; }
    }
  }

  lemma HeadsPushed(s: seq<nat>, hw: nat, t: seq<nat>, fl: seq<nat>, y: nat)
    requires hw <= |s| && hw <= |t| && NodesAreHeads(s, hw, fl)
    requires forall i :: Head(t, hw, i) <==> i == y || Head(s, hw, i)
    ensures NodesAreHeads(t, hw, [y] + fl)
  {
    forall i | Head(t, hw, i) ensures i in [y] + fl {
      if i != y { assert i in fl; }
    }
  }

  lemma HeadsSame(s: seq<nat>, hw: nat, t: seq<nat>, hw': nat, fl: seq<nat>)
    requires hw <= |s| && hw' <= |t| && NodesAreHeads(s, hw, fl)
    requires forall i :: Head(t, hw', i) <==> Head(s, hw, i)
    ensures NodesAreHeads(t, hw', fl)
  {
    forall i | Head(t, hw', i) ensures i in fl { assert Head(s, hw, i); }
  }

  /** The end-point formulation says the same as the one over maximal runs. */
  lemma RunsOkMeansMaximalRuns(s: seq<nat>, hw: nat)
    requires hw <= |s|
    ensures RunsOk(s, hw) <==> LengthAtBothEnds(s, hw)
  {
    if RunsOk(s, hw) {
      forall a, c | MaximalRun(s, hw, a, c) ensures s[a] == c - a && s[c - 1] == c - a {
        assert HeadOk(s, hw, a) && TailOk(s, hw, c - 1);
      }
    }
    if LengthAtBothEnds(s, hw) {
      forall i ensures HeadOk(s, hw, i) {
        if Head(s, hw, i) { var c := RunEnd(s, hw, i); }
      }
      forall j ensures TailOk(s, hw, j) {
        if Tail(s, hw, j) { var a := RunStart(s, hw, j); }
      }
    }
  }

  lemma RunEnd(s: seq<nat>, hw: nat, i: nat) returns (c: nat)
    requires hw <= |s| && Head(s, hw, i)
    ensures MaximalRun(s, hw, i, c)
  {
    c := i + 1;
    while c < hw && s[c] != 0
      invariant i < c <= hw && forall k | i <= k < c :: s[k] != 0
    {
      c := c + 1;
    }
  }

  lemma RunStart(s: seq<nat>, hw: nat, j: nat) returns (a: nat)
    requires hw <= |s| && Tail(s, hw, j)
    ensures MaximalRun(s, hw, a, j + 1)
  {
    a := j;
    while a > 0 && s[a - 1] != 0
      invariant 0 <= a <= j && forall k | a <= k <= j :: s[k] != 0
    {
      a := a - 1;
    }
  }

  // ----- Contents

  /** The two slot arrays hold the same live elements, slot `x` aside. */
  ghost predicate SameLives<T>(a: seq<Slot<T>>, c: seq<Slot<T>>, x: nat) {
    && |a| == |c|
    && forall i: nat | i < |a| && i != x :: a[i] == c[i] || (!a[i].Live? && !c[i].Live?)
  }

  /** Liveness in the skipfield still agrees with the slots, given that only `x` changed. */
  lemma LivesKept<T>(b: Block<T>, b': Block<T>, x: nat)
    requires Sized(b) && Sized(b') && LivesMatch(b) && SameLives(b.slots, b'.slots, x)
    requires forall i: nat | i < |b.slots| && i != x :: IsLive(b, i) <==> IsLive(b', i)
    requires x < |b.slots| && (b'.slots[x].Live? <==> IsLive(b', x))
    ensures LivesMatch(b')
  {
    forall i: nat | i < b'.capacity
      ensures b'.slots[i].Live? <==> (i < b'.highWater && b'.skip[i] == 0)
    {
      assert IsLive(b, i) <==> (i < b.highWater && b.skip[i] == 0);
    }
  }

  lemma ContentsAdd<T>(b: Block<T>, b': Block<T>, x: nat, v: T)
    requires SameLives(b.slots, b'.slots, x) && x < |b.slots|
    requires !b.slots[x].Live? && b'.slots[x] == Live(v)
    ensures x !in Contents(b)
    ensures Contents(b') == Contents(b)[x := v] && |Contents(b')| == |Contents(b)| + 1
  {
  }

  lemma ContentsRemove<T>(b: Block<T>, b': Block<T>, x: nat)
    requires SameLives(b.slots, b'.slots, x) && x < |b.slots|
    requires b.slots[x].Live? && !b'.slots[x].Live?
    ensures x in Contents(b)
    ensures Contents(b') == Contents(b) - {x} && |Contents(b')| == |Contents(b)| - 1
  {
    assert Contents(b) == Contents(b')[x := b.slots[x].value];
  }

  /**
    `b'` differs from `b` in its live elements only at slot `x`; its skipfield is `t`
    below `hw` and its free list is `fl`.
   */
  ghost predicate Reshaped<T>(b: Block<T>, b': Block<T>, x: nat, t: seq<nat>, hw: nat, fl: seq<nat>) {
    && b' == Block(b.capacity, t, b'.slots, b'.liveCount, hw, b'.freeHead)
    && SameLives(b.slots, b'.slots, x)
    && Linked(b'.slots, b'.freeHead, fl)
  }

  // ----- Emplace

  ghost predicate Added<T>(b: Block<T>, b': Block<T>, x: nat, v: T) {
    && x < b.capacity == b'.capacity
    && x !in Contents(b)
    && Contents(b') == Contents(b)[x := v]
  }

  lemma AppendShape<T>(b: Block<T>, fl: seq<nat>, v: T)
    requires BlockInv(b, fl) && b.freeHead == NPOS && b.highWater < b.capacity
    ensures var b' := EmplaceCommit(b, v);
            && Reshaped(b, b', b.highWater, b.skip[b.highWater := 0], b.highWater + 1, fl)
            && b'.slots[b.highWater] == Live(v) && b'.liveCount == b.liveCount + 1
  {
    var b' := EmplaceCommit(b, v);
    forall p ensures NodeOk(b'.slots, fl, p) { assert NodeOk(b.slots, fl, p); }
  }

  /** What the relinking half of a reusing emplace relies on. */
  ghost predicate ReuseLinks<T>(b: Block<T>, fl: seq<nat>) {
    Sized(b) && b.freeHead != NPOS && EmplaceReadable(b) && Linked(b.slots, b.freeHead, fl)
  }

  lemma OverwriteFirst<T>(slots: seq<Slot<T>>, head: nat, fl: seq<nat>, bytes: Slot<T>)
    requires Linked(slots, head, fl) && fl != []
    ensures LinkedExcept(slots[fl[0] := bytes], head, fl, 0)
  {
    var slots' := slots[fl[0] := bytes];
    forall p ensures p != 0 ==> NodeOk(slots', fl, p) { assert NodeOk(slots, fl, p); }
  }

  lemma ReuseOneShape<T>(b: Block<T>, fl: seq<nat>, v: T)
    requires ReuseLinks(b, fl) && b.skip[b.freeHead] == 1
    ensures var b' := EmplaceCommit(b, v);
            && Reshaped(b, b', b.freeHead, b.skip[b.freeHead := 0], b.highWater, Without(fl, 0))
            && b'.slots[b.freeHead] == Live(v) && b'.liveCount == b.liveCount + 1
  {
    var x := b.freeHead;
    var b1 := b.(slots := b.slots[x := Live(v)], skip := b.skip[x := 0]);
    NodeTargets(b.slots, b.freeHead, fl, 0);
    OverwriteFirst(b.slots, b.freeHead, fl, Live(v));
    UnlinkRemoves(b1, fl, 0);
    assert x !in Without(fl, 0);
  }

  function ShrunkRun(s: seq<nat>, x: nat): seq<nat>
    requires x < |s| && 1 < s[x] && x + s[x] <= |s|
  {
    s[x := 0][x + 1 := s[x] - 1][x + s[x] - 1 := s[x] - 1]
  }

  lemma ReuseManyShape<T>(b: Block<T>, fl: seq<nat>, v: T)
    requires ReuseLinks(b, fl) && b.skip[b.freeHead] > 1 && b.freeHead + 1 !in fl && !b.slots[b.freeHead + 1].Live?
    ensures var b' := EmplaceCommit(b, v);
            && Reshaped(b, b', b.freeHead, ShrunkRun(b.skip, b.freeHead), b.highWater, fl[0 := b.freeHead + 1])
            && b'.slots[b.freeHead] == Live(v) && b'.liveCount == b.liveCount + 1
  {
    var x := b.freeHead;
    var b1 := b.(slots := b.slots[x := Live(v)], skip := ShrunkRun(b.skip, x));
    NodeTargets(b.slots, b.freeHead, fl, 0);
    OverwriteFirst(b.slots, b.freeHead, fl, Live(v));
    MoveReplaces(b1, fl, 0, x + 1);
    assert x !in fl[0 := x + 1];
  }

  /** From the new skipfield, free list and slots to the invariant. */
  lemma AddKeeps<T>(b: Block<T>, b': Block<T>, x: nat, t: seq<nat>, hw: nat, fl: seq<nat>, fl': seq<nat>, v: T)
    requires BlockInv(b, fl) && Reshaped(b, b', x, t, hw, fl') && x < b.capacity
    requires b'.slots[x] == Live(v) && b'.liveCount == b.liveCount + 1 && !IsLive(b, x)
    requires |t| == |b.skip| && 0 < hw <= |t| && t[hw - 1] == 0 && x < hw && t[x] == 0
    requires forall i: nat | i < |t| && i != x :: IsLive(b, i) <==> (i < hw && t[i] == 0)
    requires RunsOk(t, hw) && NodesAreHeads(t, hw, fl')
    ensures BlockInv(b', fl') && Added(b, b', x, v)
  {
    ContentsAdd(b, b', x, v);
    LivesKept(b, b', x);
  }

  lemma AppendKeeps<T>(b: Block<T>, fl: seq<nat>, v: T, b': Block<T>)
    requires BlockInv(b, fl) && b.freeHead == NPOS && b.highWater < b.capacity
    requires Reshaped(b, b', b.highWater, b.skip[b.highWater := 0], b.highWater + 1, fl)
    requires b'.slots[b.highWater] == Live(v) && b'.liveCount == b.liveCount + 1
    ensures BlockInv(b', fl) && Added(b, b', b.highWater, v)
  {
    RunsAppend(b.skip, b.highWater, b'.skip, b'.highWater);
    HeadsSame(b.skip, b.highWater, b'.skip, b'.highWater, fl);
    AddKeeps(b, b', b.highWater, b'.skip, b'.highWater, fl, fl, v);
  }

  lemma ReuseOneKeeps<T>(b: Block<T>, fl: seq<nat>, v: T, b': Block<T>)
    requires BlockInv(b, fl) && b.freeHead != NPOS && EmplaceReadable(b) && b.skip[b.freeHead] == 1
    requires Reshaped(b, b', b.freeHead, b.skip[b.freeHead := 0], b.highWater, Without(fl, 0))
    requires b'.slots[b.freeHead] == Live(v) && b'.liveCount == b.liveCount + 1
    ensures BlockInv(b', Without(fl, 0)) && Added(b, b', b.freeHead, v)
  {
    RunsReuseOne(b.skip, b.highWater, b.freeHead, b'.skip);
    HeadsWithout(b.skip, b.highWater, b'.skip, b.highWater, fl, 0);
    AddKeeps(b, b', b.freeHead, b'.skip, b'.highWater, fl, Without(fl, 0), v);
  }

  lemma ReuseManyKeeps<T>(b: Block<T>, fl: seq<nat>, v: T, b': Block<T>)
    requires BlockInv(b, fl) && b.freeHead != NPOS && EmplaceReadable(b) && b.skip[b.freeHead] > 1
    requires Reshaped(b, b', b.freeHead, ShrunkRun(b.skip, b.freeHead), b.highWater, fl[0 := b.freeHead + 1])
    requires b'.slots[b.freeHead] == Live(v) && b'.liveCount == b.liveCount + 1
    ensures BlockInv(b', fl[0 := b.freeHead + 1]) && Added(b, b', b.freeHead, v)
  {
    assert HeadOk(b.skip, b.highWater, b.freeHead);
    RunsReuseMany(b.skip, b.highWater, b.freeHead, b'.skip);
    HeadsReplaced(b.skip, b.highWater, b'.skip, fl, 0, b.freeHead + 1);
    AddKeeps(b, b', b.freeHead, b'.skip, b'.highWater, fl, fl[0 := b.freeHead + 1], v);
  }

  /** Every emplace case keeps the invariant and fills exactly one dead slot. */
  lemma EmplaceKeeps<T>(b: Block<T>, v: T)
    requires Valid(b) && HasSpace(b)
    ensures EmplaceReadable(b)
    ensures Valid(EmplaceCommit(b, v)) && Added(b, EmplaceCommit(b, v), EmplaceIndex(b), v)
  {
    var fl :| BlockInv(b, fl);
    ReadableEmplace(b, fl);
    if b.freeHead == NPOS {
      AppendShape(b, fl, v);
      AppendKeeps(b, fl, v, EmplaceCommit(b, v));
    } else if b.skip[b.freeHead] == 1 {
      ReuseOneShape(b, fl, v);
      ReuseOneKeeps(b, fl, v, EmplaceCommit(b, v));
    } else {
      assert HeadOk(b.skip, b.highWater, b.freeHead);
      ReuseManyShape(b, fl, v);
      ReuseManyKeeps(b, fl, v, EmplaceCommit(b, v));
    }
  }

  /** A throwing construction leaves the contents alone, and on reuse the very same bytes. */
  lemma EmplaceThrowKeeps<T>(b: Block<T>)
    requires Valid(b) && HasSpace(b)
    ensures EmplaceReadable(b)
    ensures Valid(EmplaceThrow(b)) && Contents(EmplaceThrow(b)) == Contents(b)
    ensures b.freeHead != NPOS ==> EmplaceThrow(b) == b
  {
    var fl :| BlockInv(b, fl);
    ReadableEmplace(b, fl);
    var b' := EmplaceThrow(b);
    if b.freeHead == NPOS {
      forall p ensures NodeOk(b'.slots, fl, p) { assert NodeOk(b.slots, fl, p); }
      assert Contents(b') == Contents(b);
      assert BlockInv(b', fl);
    } else {
      assert b'.slots == b.slots;
    }
  }

  // ----- Erase

  ghost predicate Removed<T>(b: Block<T>, b': Block<T>, x: nat) {
    && b'.capacity == b.capacity
    && x in Contents(b)
    && Contents(b') == Contents(b) - {x}
  }

  /** Whole effect of an erase of slot `x` that leaves skipfield `t`, mark `hw` and free list `fl`. */
  ghost predicate Dropped<T>(b: Block<T>, b': Block<T>, x: nat, t: seq<nat>, hw: nat, fl: seq<nat>) {
    && Reshaped(b, b', x, t, hw, fl)
    && x < |b'.slots| && !b'.slots[x].Live?
    && b.liveCount == b'.liveCount + 1
  }

  lemma RemoveKeeps<T>(b: Block<T>, b': Block<T>, x: nat, t: seq<nat>, hw: nat, fl: seq<nat>, fl': seq<nat>)
    requires BlockInv(b, fl) && Dropped(b, b', x, t, hw, fl') && IsLive(b, x)
    requires |t| == |b.skip| && hw <= |t| && (hw > 0 ==> t[hw - 1] == 0) && !(x < hw && t[x] == 0)
    requires forall i: nat | i < |t| && i != x :: IsLive(b, i) <==> (i < hw && t[i] == 0)
    requires RunsOk(t, hw) && NodesAreHeads(t, hw, fl')
    ensures BlockInv(b', fl') && Removed(b, b', x)
  {
    ContentsRemove(b, b', x);
    LivesKept(b, b', x);
  }

  /** The block right after the element is destroyed. */
  function Destroyed<T>(b: Block<T>, x: nat): Block<T>
    requires x < |b.slots| && b.liveCount > 0
  {
    b.(slots := b.slots[x := Raw], liveCount := b.liveCount - 1)
  }

  lemma DestroyedLinked<T>(b: Block<T>, fl: seq<nat>, x: nat)
    requires Linked(b.slots, b.freeHead, fl) && x < |b.slots| && x !in fl
    ensures Linked(b.slots[x := Raw], b.freeHead, fl)
  {
    var slots := b.slots[x := Raw];
    forall p ensures NodeOk(slots, fl, p) { assert NodeOk(b.slots, fl, p); }
  }

  lemma LiveNotNode<T>(b: Block<T>, fl: seq<nat>, x: nat)
    requires BlockInv(b, fl) && IsLive(b, x)
    ensures x !in fl && x in Contents(b) && b.liveCount > 0
  {
    assert x in Contents(b);
  }

  lemma TrimKeeps<T>(b: Block<T>, fl: seq<nat>, x: nat)
    requires BlockInv(b, fl) && IsLive(b, x) && EraseReadable(b, x)
    requires x == b.highWater - 1 && (x == 0 || b.skip[x - 1] == 0)
    ensures BlockInv(Erase(b, x), fl) && Removed(b, Erase(b, x), x)
  {
    LiveNotNode(b, fl, x);
    DestroyedLinked(b, fl, x);
    RunsTrim(b.skip, b.highWater, x);
    HeadsSame(b.skip, b.highWater, b.skip, x, fl);
    RemoveKeeps(b, Erase(b, x), x, b.skip, x, fl, fl);
  }

  /** What the relinking half of erase relies on. */
  ghost predicate EraseLinks<T>(b: Block<T>, fl: seq<nat>, x: nat) {
    && Sized(b) && IsLive(b, x) && EraseReadable(b, x)
    && Linked(b.slots, b.freeHead, fl) && x !in fl
  }

  lemma DestroyThenUnlink<T>(b: Block<T>, fl: seq<nat>, x: nat, p: nat, b1: Block<T>)
    requires Linked(b.slots, b.freeHead, fl) && x < |b.slots| && x !in fl && p < |fl|
    requires b1.slots == b.slots[x := Raw] && b1.freeHead == b.freeHead
    ensures fl[p] < |b1.slots| && b1.slots[fl[p]].Links?
    ensures Target(b1.slots, b1.slots[fl[p]].previous) && Target(b1.slots, b1.slots[fl[p]].next)
    ensures var u := UnlinkFreeRun(b1, b1.slots[fl[p]]);
            && u == b1.(slots := u.slots, freeHead := u.freeHead)
            && SameLives(b.slots, u.slots, x) && !u.slots[x].Live?
            && Linked(u.slots, u.freeHead, Without(fl, p))
  {
    DestroyedLinked(b, fl, x);
    NodeTargets(b1.slots, b1.freeHead, fl, p);
    UnlinkRemoves(b1, fl, p);
  }

  lemma DestroyThenMove<T>(b: Block<T>, fl: seq<nat>, x: nat, p: nat, b1: Block<T>)
    requires Linked(b.slots, b.freeHead, fl) && x < |b.slots| && x !in fl && p < |fl|
    requires b1.slots == b.slots[x := Raw] && b1.freeHead == b.freeHead
    ensures fl[p] < |b1.slots| && b1.slots[fl[p]].Links?
    ensures Target(b1.slots, b1.slots[fl[p]].previous) && Target(b1.slots, b1.slots[fl[p]].next)
    ensures var u := MoveFreeRun(b1, x, b1.slots[fl[p]]);
            && u == b1.(slots := u.slots, freeHead := u.freeHead)
            && SameLives(b.slots, u.slots, x) && !u.slots[x].Live?
            && Linked(u.slots, u.freeHead, fl[p := x])
  {
    DestroyedLinked(b, fl, x);
    NodeTargets(b1.slots, b1.freeHead, fl, p);
    MoveReplaces(b1, fl, p, x);
    assert fl[p := x][p] == x;
    var u := MoveFreeRun(b1, x, b1.slots[fl[p]]);
    assert NodeOk(u.slots, fl[p := x], p);
  }

  lemma TrimRunShape<T>(b: Block<T>, fl: seq<nat>, x: nat, p: nat)
    requires EraseLinks(b, fl, x)
    requires x == b.highWater - 1 && x != 0 && b.skip[x - 1] != 0
    requires p < |fl| && fl[p] == x - b.skip[x - 1]
    ensures Dropped(b, Erase(b, x), x, b.skip, x - b.skip[x - 1], Without(fl, p))
  {
    var b1 := Destroyed(b, x).(highWater := x);
    DestroyThenUnlink(b, fl, x, p, b1);
  }

  lemma TrimRunKeeps<T>(b: Block<T>, fl: seq<nat>, x: nat, p: nat, b': Block<T>)
    requires BlockInv(b, fl) && IsLive(b, x)
    requires x == b.highWater - 1 && x != 0 && 0 < b.skip[x - 1] <= x
    requires p < |fl| && fl[p] == x - b.skip[x - 1]
    requires Dropped(b, b', x, b.skip, x - b.skip[x - 1], Without(fl, p))
    ensures BlockInv(b', Without(fl, p)) && Removed(b, b', x)
  {
    var r := x - b.skip[x - 1];
    SidesOfLive(b.skip, b.highWater, x);
    assert HeadOk(b.skip, b.highWater, r);
    RunsTrim(b.skip, b.highWater, r);
    forall i ensures Head(b.skip, r, i) <==> Head(b.skip, b.highWater, i) && i != fl[p] {
      assert i > r && i < b.highWater ==> b.skip[i] == 0 || b.skip[i - 1] != 0;
    }
    HeadsWithout(b.skip, b.highWater, b.skip, r, fl, p);
    RemoveKeeps(b, b', x, b.skip, r, fl, Without(fl, p));
  }

  lemma IsolatedShape<T>(b: Block<T>, fl: seq<nat>, x: nat)
    requires EraseLinks(b, fl, x)
    requires x + 1 < b.highWater && (x == 0 || b.skip[x - 1] == 0) && b.skip[x + 1] == 0
    ensures Dropped(b, Erase(b, x), x, b.skip[x := 1], b.highWater, [x] + fl)
  {
    DestroyedLinked(b, fl, x);
    PushPrepends(Destroyed(b, x).(skip := b.skip[x := 1]), fl, x);
  }

  lemma IsolatedKeeps<T>(b: Block<T>, fl: seq<nat>, x: nat, b': Block<T>)
    requires BlockInv(b, fl) && IsLive(b, x)
    requires x + 1 < b.highWater && (x == 0 || b.skip[x - 1] == 0) && b.skip[x + 1] == 0
    requires Dropped(b, b', x, b.skip[x := 1], b.highWater, [x] + fl)
    ensures BlockInv(b', [x] + fl) && Removed(b, b', x)
  {
    RunsIsolated(b.skip, b.highWater, x, b'.skip);
    HeadsPushed(b.skip, b.highWater, b'.skip, fl, x);
    RemoveKeeps(b, b', x, b'.skip, b.highWater, fl, [x] + fl);
  }

  lemma MergeLeftShape<T>(b: Block<T>, fl: seq<nat>, x: nat)
    requires EraseLinks(b, fl, x)
    requires 0 < x && x + 1 < b.highWater && b.skip[x - 1] != 0 && b.skip[x + 1] == 0
    ensures var l := b.skip[x - 1];
            Dropped(b, Erase(b, x), x, b.skip[x - l := l + 1][x := l + 1], b.highWater, fl)
  {
    DestroyedLinked(b, fl, x);
  }

  lemma MergeLeftKeeps<T>(b: Block<T>, fl: seq<nat>, x: nat, b': Block<T>)
    requires BlockInv(b, fl) && IsLive(b, x)
    requires 0 < x && x + 1 < b.highWater && 0 < b.skip[x - 1] <= x && b.skip[x + 1] == 0
    requires var l := b.skip[x - 1];
             Dropped(b, b', x, b.skip[x - l := l + 1][x := l + 1], b.highWater, fl)
    ensures BlockInv(b', fl) && Removed(b, b', x)
  {
    SidesOfLive(b.skip, b.highWater, x);
    RunsMergeLeft(b.skip, b.highWater, x, b'.skip);
    HeadsSame(b.skip, b.highWater, b'.skip, b.highWater, fl);
    RemoveKeeps(b, b', x, b'.skip, b.highWater, fl, fl);
  }

  lemma MergeRightShape<T>(b: Block<T>, fl: seq<nat>, x: nat, p: nat)
    requires EraseLinks(b, fl, x)
    requires x + 1 < b.highWater && (x == 0 || b.skip[x - 1] == 0) && b.skip[x + 1] != 0
    requires p < |fl| && fl[p] == x + 1
    ensures var r := b.skip[x + 1];
            Dropped(b, Erase(b, x), x, b.skip[x := r + 1][x + r := r + 1], b.highWater, fl[p := x])
  {
    var r := b.skip[x + 1];
    var b1 := Destroyed(b, x).(skip := b.skip[x := r + 1][x + r := r + 1]);
    DestroyThenMove(b, fl, x, p, b1);
  }

  lemma MergeRightKeeps<T>(b: Block<T>, fl: seq<nat>, x: nat, p: nat, b': Block<T>)
    requires BlockInv(b, fl) && IsLive(b, x)
    requires x + 1 < b.highWater && (x == 0 || b.skip[x - 1] == 0) && b.skip[x + 1] != 0
    requires p < |fl| && fl[p] == x + 1 && x + b.skip[x + 1] < b.highWater
    requires var r := b.skip[x + 1];
             Dropped(b, b', x, b.skip[x := r + 1][x + r := r + 1], b.highWater, fl[p := x])
    ensures BlockInv(b', fl[p := x]) && Removed(b, b', x)
  {
    SidesOfLive(b.skip, b.highWater, x);
    RunsMergeRight(b.skip, b.highWater, x, b'.skip);
    HeadsReplaced(b.skip, b.highWater, b'.skip, fl, p, x);
    RemoveKeeps(b, b', x, b'.skip, b.highWater, fl, fl[p := x]);
  }

  lemma MergeBothShape<T>(b: Block<T>, fl: seq<nat>, x: nat, p: nat)
    requires EraseLinks(b, fl, x)
    requires 0 < x && x + 1 < b.highWater && b.skip[x - 1] != 0 && b.skip[x + 1] != 0
    requires p < |fl| && fl[p] == x + 1
    ensures MergedBoth(b.skip, b.highWater, x, Erase(b, x).skip)
    ensures Dropped(b, Erase(b, x), x, Erase(b, x).skip, b.highWater, Without(fl, p))
  {
    var l, r := b.skip[x - 1], b.skip[x + 1];
    var n := l + r + 1;
    var b1 := Destroyed(b, x).(skip := b.skip[x - l := n][x + r := n][x := 1]);
    DestroyThenUnlink(b, fl, x, p, b1);
  }

  lemma MergeBothKeeps<T>(b: Block<T>, fl: seq<nat>, x: nat, p: nat, b': Block<T>)
    requires BlockInv(b, fl) && IsLive(b, x)
    requires MergedBoth(b.skip, b.highWater, x, b'.skip)
    requires p < |fl| && fl[p] == x + 1
    requires Dropped(b, b', x, b'.skip, b.highWater, Without(fl, p))
    ensures BlockInv(b', Without(fl, p)) && Removed(b, b', x)
  {
    RunsMergeBoth(b.skip, b.highWater, x, b'.skip);
    HeadsWithout(b.skip, b.highWater, b'.skip, b.highWater, fl, p);
    RemoveKeeps(b, b', x, b'.skip, b.highWater, fl, Without(fl, p));
  }

  lemma NodeOf(s: seq<nat>, hw: nat, fl: seq<nat>, i: nat) returns (p: nat)
    requires hw <= |s| && NodesAreHeads(s, hw, fl) && Head(s, hw, i)
    ensures p < |fl| && fl[p] == i
  {
    assert i in fl;
    p :| p < |fl| && fl[p] == i;
  }

  /** Every erase case keeps the invariant and empties exactly the given slot. */
  lemma EraseKeeps<T>(b: Block<T>, x: nat)
    requires Valid(b) && IsLive(b, x)
    ensures Sized(b) && EraseReadable(b, x)
    ensures Valid(Erase(b, x)) && Removed(b, Erase(b, x), x)
  {
    var fl :| BlockInv(b, fl);
    ReadableErase(b, fl, x);
    LiveNotNode(b, fl, x);
    SidesOfLive(b.skip, b.highWater, x);
    var left := x != 0 && b.skip[x - 1] != 0;
    if x == b.highWater - 1 {
      if left {
        var p := NodeOf(b.skip, b.highWater, fl, x - b.skip[x - 1]);
        TrimRunShape(b, fl, x, p);
        TrimRunKeeps(b, fl, x, p, Erase(b, x));
      } else {
        TrimKeeps(b, fl, x);
      }
    } else if b.skip[x + 1] == 0 {
      if left {
        MergeLeftShape(b, fl, x);
        MergeLeftKeeps(b, fl, x, Erase(b, x));
      } else {
        IsolatedShape(b, fl, x);
        IsolatedKeeps(b, fl, x, Erase(b, x));
      }
    } else {
      var p := NodeOf(b.skip, b.highWater, fl, x + 1);
      if left {
        MergeBothShape(b, fl, x, p);
        MergeBothKeeps(b, fl, x, p, Erase(b, x));
      } else {
        MergeRightShape(b, fl, x, p);
        MergeRightKeeps(b, fl, x, p, Erase(b, x));
      }
    }
  }

  // ----- Vacant and full blocks

  lemma VacantValid<T>(capacity: nat, skip: seq<nat>, slots: seq<Slot<T>>)
    requires 1 <= capacity <= SLOT_NPOS && |skip| == |slots| == capacity
    requires forall i: nat | i < capacity :: !slots[i].Live?
    ensures Valid(Vacant(capacity, skip, slots)) && Contents(Vacant(capacity, skip, slots)) == map[]
  {
    var b := Vacant(capacity, skip, slots);
    assert Contents(b) == map[];
    assert BlockInv(b, []);
  }

  /** Without a free-list node there is no dead slot below the high-water mark. */
  lemma {:induction false} NoNodeNoDead(s: seq<nat>, hw: nat, i: nat)
    requires i < hw <= |s| && NodesAreHeads(s, hw, [])
    ensures s[i] == 0
  {
    hide HeadOk;
    if i > 0 { NoNodeNoDead(s, hw, i - 1); }
    assert Head(s, hw, i) ==> i in [];
  }

  lemma {:induction false} BoundedKeys(keys: set<nat>, n: nat)
    requires forall i | i in keys :: i < n
    ensures |keys| <= n
    ensures (forall i: nat | i < n :: i in keys) ==> |keys| == n
    decreases n
  {
    if n > 0 {
      BoundedKeys(keys - {n - 1}, n - 1);
    } else {
      assert keys == {};
    }
  }

  /** The constant-time availability test is exact: space iff fewer live elements than slots. */
  lemma SpaceIffNotFull<T>(b: Block<T>)
    requires Valid(b)
    ensures HasSpace(b) <==> b.liveCount < b.capacity
  {
    var fl :| BlockInv(b, fl);
    var keys := Contents(b).Keys;
    assert |keys| == |Contents(b)|;
    BoundedKeys(keys, b.capacity);
    if HasSpace(b) {
      var free := EmplaceIndex(b);
      assert b.freeHead != NPOS ==> free == fl[0] && Head(b.skip, b.highWater, free);
      assert free !in keys;
      BoundedKeys(keys + {free}, b.capacity);
    } else {
      forall i: nat | i < b.capacity ensures i in keys {
        NoNodeNoDead(b.skip, b.highWater, i);
      }
    }
  }

  /** A block with no live element left has been trimmed back to its pristine state. */
  lemma EmptyIsPristine<T>(b: Block<T>)
    requires Valid(b) && b.liveCount == 0
    ensures b.highWater == 0 && b.freeHead == NPOS
  {
    var fl :| BlockInv(b, fl);
    assert b.highWater > 0 ==> b.highWater - 1 in Contents(b);
  }
}
