/**
  Capacity planning: how many blocks a reservation takes and how large they are.
  A reservation is judged against every list of legal block capacities.
 */
module HivePlanner {

  datatype Plan = Plan(blocks: nat, added: nat, blockMax: nat)
  datatype Option<+X> = None | Some(value: X)

  function Max(a: nat, b: nat): nat { if a < b then b else a }
  function Min(a: nat, b: nat): nat { if a < b then a else b }

  function Sum(caps: seq<nat>): nat {
    if caps == [] then 0 else caps[0] + Sum(caps[1..])
  }

  /** Every capacity lies within the limits. */
  ghost predicate Legal(caps: seq<nat>, min: nat, blockMax: nat) {
    forall i | 0 <= i < |caps| :: min <= caps[i] <= blockMax
  }

  /** The constant-time plan for growing from `current` to `requested`. */
  function PlanCapacity(current: nat, requested: nat, maximum: nat, min: nat, blockMax: nat): Option<Plan>
    requires current < requested
  {
    if requested > maximum || current > maximum || min == 0 || blockMax < min then None
    else
      var missing := requested - current;
      var blocks := BlocksFor(missing, blockMax);
      if blocks > (maximum - current) / min then None
      else Some(Plan(blocks, Max(missing, blocks * min), blockMax))
  }

  // ----- Arithmetic of lists

  lemma MulMono(a: nat, b: nat, c: nat)
    requires a <= b
    ensures a * c <= b * c
  {
  }

  lemma MulStep(n: nat, c: nat)
    ensures (n + 1) * c == n * c + c
  {
  }

  lemma {:induction false} SumBounds(caps: seq<nat>, min: nat, blockMax: nat)
    requires Legal(caps, min, blockMax)
    ensures |caps| * min <= Sum(caps) <= |caps| * blockMax
  {
    if caps != [] {
      SumBounds(caps[1..], min, blockMax);
      assert min <= caps[0] <= blockMax;
      MulStep(|caps[1..]|, min);
      MulStep(|caps[1..]|, blockMax);
    }
  }

  lemma {:induction false} SumAppend(a: seq<nat>, x: nat)
    ensures Sum(a + [x]) == Sum(a) + x
  {
    if a == [] {
      assert a + [x] == [x];
    } else {
      assert (a + [x])[1..] == a[1..] + [x];
      SumAppend(a[1..], x);
    }
  }

  function BlocksFor(missing: nat, blockMax: nat): nat
    requires 0 < blockMax
  {
    missing / blockMax + if missing % blockMax != 0 then 1 else 0
  }

  /** That is the least number of blocks of at most `blockMax` slots that cover `missing`. */
  lemma CeilingFacts(missing: nat, blockMax: nat, n: nat)
    requires 0 < missing && 0 < blockMax
    ensures var k := BlocksFor(missing, blockMax);
            && 0 < k && missing <= k * blockMax
            && (missing <= n * blockMax ==> k <= n)
  {
    var q, k := missing / blockMax, BlocksFor(missing, blockMax);
    assert missing == q * blockMax + missing % blockMax;
    MulStep(q, blockMax);
    if n < k {
      MulMono(n, k - 1, blockMax);
      if q > 0 { MulStep(q - 1, blockMax); }
    }
  }

  lemma DivBound(blocks: nat, room: nat, min: nat)
    requires 0 < min
    ensures blocks <= room / min <==> blocks * min <= room
  {
    var q := room / min;
    assert room == q * min + room % min;
    if blocks <= q {
      MulMono(blocks, q, min);
    } else {
      MulMono(q + 1, blocks, min);
      assert (q + 1) * min == q * min + min;
    }
  }

  // ----- The planner is sound, complete and optimal

  /** A plan never exceeds the maximum, covers the request and can be split into legal blocks. */
  lemma PlanSound(current: nat, requested: nat, maximum: nat, min: nat, blockMax: nat)
    requires current < requested
    ensures var p := PlanCapacity(current, requested, maximum, min, blockMax);
            p.Some? ==>
              && requested <= current + p.value.added <= maximum
              && 0 < p.value.blocks && p.value.blockMax == blockMax
              && p.value.blocks * min <= p.value.added <= p.value.blocks * blockMax
  {
    var p := PlanCapacity(current, requested, maximum, min, blockMax);
    if p.Some? {
      CeilingFacts(requested - current, blockMax, 0);
      DivBound(p.value.blocks, maximum - current, min);
      assert p.value.blocks * min <= p.value.blocks * blockMax;
    }
  }

  /** Planning fails exactly when no list of legal blocks reaches the request within the maximum. */
  lemma PlanComplete(current: nat, requested: nat, maximum: nat, min: nat, blockMax: nat, caps: seq<nat>)
    requires current < requested && 0 < min
    requires Legal(caps, min, blockMax) && requested <= current + Sum(caps) <= maximum
    ensures PlanCapacity(current, requested, maximum, min, blockMax).Some?
  {
    SumBounds(caps, min, blockMax);
    assert caps != [];
    assert min <= caps[0] <= blockMax;
    var missing := requested - current;
    CeilingFacts(missing, blockMax, |caps|);
    var blocks := BlocksFor(missing, blockMax);
    hide Sum, BlocksFor;
    MulMono(blocks, |caps|, min);
    DivBound(blocks, maximum - current, min);
  }

  /** No legal list that covers the deficit uses fewer blocks or adds less capacity. */
  lemma PlanOptimal(current: nat, requested: nat, maximum: nat, min: nat, blockMax: nat, caps: seq<nat>)
    requires current < requested && Legal(caps, min, blockMax) && requested <= current + Sum(caps)
    requires PlanCapacity(current, requested, maximum, min, blockMax).Some?
    ensures var p := PlanCapacity(current, requested, maximum, min, blockMax).value;
            p.blocks <= |caps| && p.added <= Sum(caps)
  {
    var p := PlanCapacity(current, requested, maximum, min, blockMax).value;
    SumBounds(caps, min, blockMax);
    CeilingFacts(requested - current, blockMax, |caps|);
    MulMono(p.blocks, |caps|, min);
  }

  // ----- Splitting a plan into blocks

  /** Capacity of the next block: as large as possible while leaving every later block its minimum. */
  function NextCapacity(plan: Plan, min: nat): nat
    requires 0 < plan.blocks && (plan.blocks - 1) * min <= plan.added
  {
    Min(plan.blockMax, plan.added - (plan.blocks - 1) * min)
  }

  ghost predicate Feasible(plan: Plan, min: nat) {
    && min <= plan.blockMax
    && plan.blocks * min <= plan.added <= plan.blocks * plan.blockMax
  }

  lemma NextKeepsFeasible(plan: Plan, min: nat)
    requires Feasible(plan, min) && 0 < plan.blocks
    ensures (plan.blocks - 1) * min <= plan.added
    ensures var n := NextCapacity(plan, min);
            && min <= n <= plan.blockMax && n <= plan.added
            && Feasible(Plan(plan.blocks - 1, plan.added - n, plan.blockMax), min)
  {
    var k := plan.blocks - 1;
    assert plan.blocks * min == k * min + min;
    assert plan.blocks * plan.blockMax == k * plan.blockMax + plan.blockMax;
    assert k * min <= k * plan.blockMax by { MulMono(min, plan.blockMax, k); }
  }

  /** Largest first: a block before another is maximal, or the other is minimal. */
  ghost predicate LargestFirst(caps: seq<nat>, min: nat, blockMax: nat) {
    forall i, j | 0 <= i < j < |caps| :: caps[i] == blockMax || caps[j] == min
  }

  /** So far every block was maximal, or all that is left are minimal ones. */
  ghost predicate OnCourse(caps: seq<nat>, left: Plan, min: nat) {
    || (forall i | 0 <= i < |caps| :: caps[i] == left.blockMax)
    || left.added == left.blocks * min
  }

  lemma StaysOnCourse(caps: seq<nat>, left: Plan, min: nat)
    requires Feasible(left, min) && 0 < left.blocks && (left.blocks - 1) * min <= left.added
    requires LargestFirst(caps, min, left.blockMax) && OnCourse(caps, left, min)
    requires NextCapacity(left, min) <= left.added
    ensures var n := NextCapacity(left, min);
      && LargestFirst(caps + [n], min, left.blockMax)
      && OnCourse(caps + [n], Plan(left.blocks - 1, left.added - n, left.blockMax), min)
  {
    assert left.blocks * min == (left.blocks - 1) * min + min;
  }

  /** The block capacities that reserve_blocks allocates for a plan. */
  method SplitPlan(plan: Plan, min: nat) returns (caps: seq<nat>)
    requires Feasible(plan, min)
    ensures |caps| == plan.blocks && Legal(caps, min, plan.blockMax) && Sum(caps) == plan.added
    ensures LargestFirst(caps, min, plan.blockMax)
  {
    caps := [];
    var left := plan;
    while left.blocks != 0
      invariant left.blockMax == plan.blockMax && Feasible(left, min)
      invariant |caps| + left.blocks == plan.blocks && Legal(caps, min, plan.blockMax)
      invariant Sum(caps) + left.added == plan.added
      invariant LargestFirst(caps, min, plan.blockMax) && OnCourse(caps, left, min)
      decreases left.blocks
    {
      NextKeepsFeasible(left, min);
      StaysOnCourse(caps, left, min);
      var n := NextCapacity(left, min);
      SumAppend(caps, n);
      caps := caps + [n];
      left := Plan(left.blocks - 1, left.added - n, left.blockMax);
    }
  }
}
