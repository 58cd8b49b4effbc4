/**
  What a whole run says about the scope: when it refuses associations, which handles are
  engaged, and which of the seven states it is in, all read off the steps taken so far.
 */
module CountingScopeLaws {
  import opened CountingScope

  /** The scope becomes joined: a join finds nothing to wait for, or the last release finds a joiner. */
  predicate Joins(s: State, step: Step) {
    (step.DoStartJoin? && s.count == 0) || (step.DoDecrement? && s.count == 1 && s.joiners != [])
  }

  /** The steps after which no association is accepted. */
  predicate Shuts(s: State, step: Step) { step.DoClose? || Joins(s, step) }

  lemma ShutStep(s: State, step: Step)
    requires Inv(s) && Enabled(s, step) && (s.releasing > 0 ==> s.count > 0)
    ensures RejectsAssociation(Apply(s, step).scope) <==> RejectsAssociation(s.scope) || Shuts(s, step)
  {
    hide Joiners;
  }

  /** A scope rejects associations if and only if it was closed or joined at some earlier step. */
  lemma {:induction false} RejectsExactly(run: seq<State>, steps: seq<Step>, k: nat)
    requires IsRun(run, steps) && k < |run|
    ensures RejectsAssociation(run[k].scope) <==> exists j :: 0 <= j < k && Shuts(run[j], steps[j])
  {
    hide Inv, Apply, Enabled, Shuts;
    if k > 0 {
      RejectsExactly(run, steps, k - 1);
      RunInv(run, steps, k - 1);
      ShutStep(run[k - 1], steps[k - 1]);
    }
  }

  lemma JoinStep(s: State, step: Step)
    requires Inv(s) && Enabled(s, step) && (s.releasing > 0 ==> s.count > 0)
    ensures Apply(s, step).scope.Joined? <==> s.scope.Joined? || Joins(s, step)
  {
    hide Joiners;
  }

  /** A scope is joined if and only if a join met count zero, or a last release met a joiner. */
  lemma {:induction false} JoinedExactly(run: seq<State>, steps: seq<Step>, k: nat)
    requires IsRun(run, steps) && k < |run|
    ensures run[k].scope.Joined? <==> exists j :: 0 <= j < k && Joins(run[j], steps[j])
  {
    hide Inv, Apply, Enabled, Joins;
    if k > 0 {
      JoinedExactly(run, steps, k - 1);
      RunInv(run, steps, k - 1);
      JoinStep(run[k - 1], steps[k - 1]);
    }
  }

  lemma UseStep(s: State, step: Step)
    requires Inv(s) && Enabled(s, step) && (s.releasing > 0 ==> s.count > 0) && !Joins(s, step)
    ensures Apply(s, step).scope in {Unused, UnusedAndClosed}
      <==> s.scope in {Unused, UnusedAndClosed} && Apply(s, step).count <= s.count
    ensures s.scope in {Unused, UnusedAndClosed} ==> s.count == 0
  {
    hide Joiners;
  }

  /** An unjoined scope is unused, closed or not, if and only if nothing was ever counted in it. */
  lemma {:induction false} UnusedExactly(run: seq<State>, steps: seq<Step>, k: nat)
    requires IsRun(run, steps) && k < |run| && !run[k].scope.Joined?
    ensures run[k].scope in {Unused, UnusedAndClosed} <==> forall j | 0 <= j <= k :: run[j].count == 0
  {
    hide Inv, Apply, Enabled, Joins;
    if k > 0 {
      RunInv(run, steps, k - 1);
      JoinStep(run[k - 1], steps[k - 1]);
      UnusedExactly(run, steps, k - 1);
      UseStep(run[k - 1], steps[k - 1]);
      CountIsExact(run, steps, k);
    }
  }

  lemma AssociateStep(s: State, step: Step)
    requires Inv(s) && Enabled(s, step) && (step.DoAssociate? || step.DoAssociateFrom?)
    requires s.releasing > 0 ==> s.count > 0
    ensures var s' := Apply(s, step);
      if s.count < s.limit && !RejectsAssociation(s.scope) && (step.DoAssociateFrom? ==> step.from in s.engaged)
      then s'.engaged == s.engaged + {step.h} && s'.count == s.count + 1 && step.h !in s.engaged
      else s'.engaged == s.engaged && s'.count == s.count
  {
    hide Joiners;
  }

  /**
    An association engages its new handle exactly when the count is below the limit, nothing
    before it closed or joined the scope and, for a copy, the association it is made from is engaged.
   */
  lemma AssociatesExactly(run: seq<State>, steps: seq<Step>, k: nat)
    requires IsRun(run, steps) && k < |steps| && (steps[k].DoAssociate? || steps[k].DoAssociateFrom?)
    ensures steps[k].h !in run[k].engaged && run[k + 1].engaged - {steps[k].h} == run[k].engaged
    ensures run[k + 1].handles == run[k].handles + {steps[k].h}
    ensures steps[k].h in run[k + 1].engaged <==>
      && run[k].count < run[k].limit
      && (forall j | 0 <= j < k :: !Shuts(run[j], steps[j]))
      && (steps[k].DoAssociateFrom? ==> steps[k].from in run[k].engaged)
  {
    hide Inv, Apply, Shuts, RejectsAssociation;
    RunInv(run, steps, k);
    RejectsExactly(run, steps, k);
    AssociateStep(run[k], steps[k]);
    NewHandle(run[k], steps[k]);
  }

  lemma NewHandle(s: State, step: Step)
    requires Inv(s) && Enabled(s, step) && (step.DoAssociate? || step.DoAssociateFrom?)
    requires s.releasing > 0 ==> s.count > 0
    ensures step.h !in s.engaged && Apply(s, step).handles == s.handles + {step.h}
  {
  }

  /** After a close no association, fresh or copied, adds an engaged handle. */
  lemma NoAssociationAfterClose(run: seq<State>, steps: seq<Step>, k: nat, l: nat)
    requires IsRun(run, steps) && k < l < |steps| && steps[k].DoClose?
    requires steps[l].DoAssociate? || steps[l].DoAssociateFrom?
    ensures run[l + 1].engaged == run[l].engaged && run[l + 1].count == run[l].count
  {
    hide Inv, Apply, Enabled, RejectsAssociation;
    RunInv(run, steps, l);
    assert Shuts(run[k], steps[k]);
    RejectsExactly(run, steps, l);
    AssociateStep(run[l], steps[l]);
  }

  lemma CountFalls(s: State, step: Step)
    requires Inv(s) && Enabled(s, step) && (s.releasing > 0 ==> s.count > 0) && RejectsAssociation(s.scope)
    ensures Apply(s, step).count <= s.count
  {
    hide Joiners;
  }

  /** From a close on, the count never rises again. */
  lemma {:induction false} CountFallsAfterClose(run: seq<State>, steps: seq<Step>, k: nat, i: nat, l: nat)
    requires IsRun(run, steps) && k < i <= l < |run| && steps[k].DoClose?
    ensures run[l].count <= run[i].count
    decreases l
  {
    hide Inv, Apply, Enabled, RejectsAssociation;
    if i < l {
      CountFallsAfterClose(run, steps, k, i, l - 1);
      RunInv(run, steps, l - 1);
      assert Shuts(run[k], steps[k]);
      RejectsExactly(run, steps, l - 1);
      CountFalls(run[l - 1], steps[l - 1]);
    }
  }

  /**
    The seven states spelled out by the history: joined, else used or not, closed or not, and
    joining exactly while somebody waits.
   */
  lemma StateIsHistory(run: seq<State>, steps: seq<Step>, k: nat)
    requires IsRun(run, steps) && k < |run|
    ensures var joined := exists j :: 0 <= j < k && Joins(run[j], steps[j]);
            var closed := exists j :: 0 <= j < k && steps[j].DoClose?;
            var used := exists j :: 0 <= j <= k && run[j].count > 0;
            var waiting := run[k].joiners != [];
      run[k].scope ==
        if joined then Joined
        else if !used then if closed then UnusedAndClosed else Unused
        else if closed then if waiting then ClosedAndJoining else Closed
        else if waiting then OpenAndJoining else Open
  {
    hide Inv, Apply, Enabled, Joins;
    JoinedExactly(run, steps, k);
    RejectsExactly(run, steps, k);
    CountIsExact(run, steps, k);
    if !run[k].scope.Joined? { UnusedExactly(run, steps, k); }
  }

  // ----- Handles

  /** Where `x`'s engagement comes from at a step that is not an association. */
  predicate EngagedAfter(s: State, step: Step, x: nat) {
    match step
    case DoMoveInto(from, h) => if x == h then from in s.engaged else x != from && x in s.engaged
    case DoTakeOver(from, to) => if x == to then from in s.engaged else x != from && x in s.engaged
    case DoDisengage(h) => x != h && x in s.engaged
    case _ => x in s.engaged
  }

  /** Moves pass an engagement on, destruction ends it, and nothing else touches it. */
  lemma HandleStep(s: State, step: Step, x: nat)
    requires Inv(s) && Enabled(s, step) && (s.releasing > 0 ==> s.count > 0)
    requires !step.DoAssociate? && !step.DoAssociateFrom?
    ensures x in Apply(s, step).engaged <==> EngagedAfter(s, step, x)
  {
    hide Joiners;
    if step.DoMoveInto? { assert step.h !in s.engaged; }
  }

  lemma EngagementMoves(run: seq<State>, steps: seq<Step>, k: nat, x: nat)
    requires IsRun(run, steps) && k < |steps| && !steps[k].DoAssociate? && !steps[k].DoAssociateFrom?
    ensures x in run[k + 1].engaged <==> EngagedAfter(run[k], steps[k], x)
  {
    hide Inv, Apply, Enabled, EngagedAfter;
    RunInv(run, steps, k);
    HandleStep(run[k], steps[k], x);
  }

  // ----- Joiners

  /** A join completes at once exactly when the count is zero; otherwise it waits ahead of the earlier ones. */
  lemma JoinOutcome(run: seq<State>, steps: seq<Step>, k: nat)
    requires IsRun(run, steps) && k < |steps| && steps[k].DoStartJoin?
    ensures var j := steps[k].j;
      if run[k].count == 0
      then run[k + 1].completions == run[k].completions + [j] && run[k + 1].scope.Joined?
      else run[k + 1].joiners == [j] + run[k].joiners && run[k + 1].completions == run[k].completions
  {
    NeverTerminates(run, steps, k);
  }

  /** `x` stands ahead of `y` in `q`. */
  ghost predicate Ahead(q: seq<nat>, x: nat, y: nat) {
    exists i, j :: 0 <= i < j < |q| && q[i] == x && q[j] == y
  }

  /** `x` completes before `y`: it waits ahead of it, or has completed and `y` has not, or has completed earlier. */
  ghost predicate Before(s: State, x: nat, y: nat) {
    && x in s.places && y in s.places
    && (|| Ahead(s.joiners, x, y)
        || (exists t :: t in s.tasks && Ahead(s.tasks[t], x, y))
        || (x in s.completions && y !in s.completions)
        || Ahead(s.completions, x, y))
  }

  lemma AheadKept(q: seq<nat>, p: seq<nat>, r: seq<nat>, x: nat, y: nat)
    requires Ahead(q, x, y)
    ensures Ahead(p + q + r, x, y)
  {
    var i, j :| 0 <= i < j < |q| && q[i] == x && q[j] == y;
    var whole := p + q + r;
    assert whole[|p| + i] == x && whole[|p| + j] == y;
  }

  lemma AheadLast(q: seq<nat>, x: nat, y: nat)
    requires x in q
    ensures Ahead(q + [y], x, y)
  {
    var i :| 0 <= i < |q| && q[i] == x;
    assert (q + [y])[i] == x && (q + [y])[|q|] == y;
  }

  lemma AheadRest(q: seq<nat>, x: nat, y: nat)
    requires Ahead(q, x, y) && x != q[0]
    ensures Ahead(q[1..], x, y)
  {
    var i, j :| 0 <= i < j < |q| && q[i] == x && q[j] == y;
    assert q[1..][i - 1] == x && q[1..][j - 1] == y;
  }

  /** Completing one more joiner keeps the order in which the others are done. */
  lemma BeforeCompletes(s: State, t: nat, x: nat, y: nat)
    requires Inv(s) && Enabled(s, DoCompleteNext(t)) && Before(s, x, y)
    ensures Before(CompleteNext(s, t), x, y)
  {
    var s' := CompleteNext(s, t);
    var j := s.tasks[t][0];
    hide Counted;
    assert TaskOk(s, t);
    if Ahead(s.completions, x, y) {
      AheadKept(s.completions, [], [j], x, y);
      assert [] + s.completions + [j] == s'.completions;
    } else if x in s.completions && y !in s.completions {
      if y == j { AheadLast(s.completions, x, y); }
    } else if Ahead(s.joiners, x, y) {
    } else {
      var u :| u in s.tasks && Ahead(s.tasks[u], x, y);
      BeforeInTask(s, t, u, x, y);
    }
  }

  lemma BeforeInTask(s: State, t: nat, u: nat, x: nat, y: nat)
    requires Inv(s) && Enabled(s, DoCompleteNext(t)) && u in s.tasks && Ahead(s.tasks[u], x, y)
    requires x in s.places && y in s.places
    ensures Before(CompleteNext(s, t), x, y)
  {
    var s' := CompleteNext(s, t);
    hide Counted;
    assert TaskOk(s, u);
    var a, b :| 0 <= a < b < |s.tasks[u]| && s.tasks[u][a] == x && s.tasks[u][b] == y;
    assert x != y && y in s.tasks[u];
    if u == t && x == s.tasks[t][0] {
      assert x in s'.completions && y !in s'.completions;
    } else {
      if u == t { AheadRest(s.tasks[t], x, y); }
      assert u in s'.tasks && Ahead(s'.tasks[u], x, y);
    }
  }

  lemma BeforeJoins(s: State, j: nat, x: nat, y: nat)
    requires Inv(s) && Enabled(s, DoStartJoin(j)) && Before(s, x, y)
    ensures Before(StartJoin(s, j), x, y)
  {
    hide Ahead, Joiners;
    if Ahead(s.joiners, x, y) {
      AheadKept(s.joiners, [j], [], x, y);
      assert [j] + s.joiners + [] == [j] + s.joiners;
    }
    if Ahead(s.completions, x, y) {
      AheadKept(s.completions, [], [j], x, y);
      assert [] + s.completions + [j] == s.completions + [j];
    }
  }

  lemma BeforeStep(s: State, step: Step, x: nat, y: nat)
    requires Inv(s) && Enabled(s, step) && (s.releasing > 0 ==> s.count > 0) && Before(s, x, y)
    ensures Before(Apply(s, step), x, y)
  {
    match step {
      case DoCompleteNext(t) => BeforeCompletes(s, t, x, y);
      case DoStartJoin(j) => BeforeJoins(s, j, x, y);
      case DoDecrement(n) => BeforeDetaches(s, n, x, y);
      case _ =>
        hide Ahead, Joiners;
    }
  }

  lemma BeforeDetaches(s: State, n: nat, x: nat, y: nat)
    requires Inv(s) && Enabled(s, DoDecrement(n)) && s.count > 0 && Before(s, x, y)
    ensures Before(Decrement(s, n), x, y)
  {
    hide Ahead, Joiners;
    var s' := Decrement(s, n);
    assert forall t | t in s.tasks :: t in s'.tasks && s'.tasks[t] == s.tasks[t];
    if s.joiners != s'.joiners { assert n in s'.tasks && s'.tasks[n] == s.joiners; }
  }

  /** Joiners that had to wait complete last in, first out. */
  lemma {:induction false} LastInFirstOut(run: seq<State>, steps: seq<Step>, a: nat, b: nat, k: nat)
    requires IsRun(run, steps) && a < b < k < |run|
    requires steps[a].DoStartJoin? && run[a].count > 0 && steps[b].DoStartJoin? && run[b].count > 0
    ensures Before(run[k], steps[b].j, steps[a].j)
    decreases k
  {
    hide Inv, Apply, Enabled, Before;
    if k == b + 1 {
      StillWaiting(run, steps, a, b);
      RunInv(run, steps, b);
      BeforeStarts(run[b], steps[b].j, steps[a].j);
    } else {
      LastInFirstOut(run, steps, a, b, k - 1);
      RunInv(run, steps, k - 1);
      BeforeStep(run[k - 1], steps[k - 1], steps[b].j, steps[a].j);
    }
  }

  lemma BeforeStarts(s: State, j: nat, y: nat)
    requires Inv(s) && Enabled(s, DoStartJoin(j)) && s.count > 0 && y in s.joiners
    ensures Before(Apply(s, DoStartJoin(j)), j, y)
  {
    var s' := Apply(s, DoStartJoin(j));
    var i :| 0 <= i < |s.joiners| && s.joiners[i] == y;
    assert s'.joiners[0] == j && s'.joiners[i + 1] == y;
  }

  lemma PlacesStay(s: State, step: Step, j: nat)
    requires Enabled(s, step) && (s.releasing > 0 ==> s.count > 0) && !Apply(s, step).terminated
    ensures j in s.places || step == DoStartJoin(j) ==> j in Apply(s, step).places
  {
  }

  lemma {:induction false} Placed(run: seq<State>, steps: seq<Step>, a: nat, k: nat)
    requires IsRun(run, steps) && a < k < |run| && steps[a].DoStartJoin?
    ensures steps[a].j in run[k].places
    decreases k
  {
    hide Inv, Apply, Enabled;
    if k > a + 1 { Placed(run, steps, a, k - 1); }
    NeverTerminates(run, steps, k);
    PlacesStay(run[k - 1], steps[k - 1], steps[a].j);
  }

  /** While the count is not zero, every joiner that started is still in the list. */
  lemma StillWaiting(run: seq<State>, steps: seq<Step>, a: nat, k: nat)
    requires IsRun(run, steps) && a < k < |run| && steps[a].DoStartJoin? && run[k].count > 0
    ensures steps[a].j in run[k].joiners
  {
    hide Apply, Enabled;
    Placed(run, steps, a, k);
    RunInv(run, steps, k);
    assert PlaceOk(run[k], steps[a].j);
  }
}
