/**
  Counting scopes: seven states, a count of associations, and a list of joiners that are
  completed when the count returns to zero.  Critical sections are atomic steps by arbitrary
  threads.  Releasing an association is two steps, because the handle is emptied before the
  scope is told.
 */
module CountingScope {

  datatype Option<+X> = None | Some(value: X)

  datatype ScopeState = Unused | UnusedAndClosed | Open | OpenAndJoining | Closed | ClosedAndJoining | Joined

  // ----- Transition functions

  function AfterClose(state: ScopeState): ScopeState {
    match state
    case Unused => UnusedAndClosed
    case Open => Closed
    case OpenAndJoining => ClosedAndJoining
    case _ => state
  }

  function AfterAssociation(state: ScopeState): ScopeState {
    if state.Unused? then Open else state
  }

  /** None where the source terminates the program. */
  function AfterJoinStart(state: ScopeState): Option<ScopeState> {
    match state
    case Open => Some(OpenAndJoining)
    case OpenAndJoining => Some(OpenAndJoining)
    case Closed => Some(ClosedAndJoining)
    case ClosedAndJoining => Some(ClosedAndJoining)
    case _ => None
  }

  predicate IsJoining(state: ScopeState) { state.OpenAndJoining? || state.ClosedAndJoining? }

  predicate RejectsAssociation(state: ScopeState) {
    !state.Unused? && !state.Open? && !state.OpenAndJoining?
  }

  datatype Association = Association(state: ScopeState, count: nat, engaged: bool)

  function TryAssociate(state: ScopeState, count: nat, limit: nat): Association {
    if count >= limit || RejectsAssociation(state) then Association(state, count, false)
    else Association(AfterAssociation(state), count + 1, true)
  }

  // ----- The machine

  datatype Place = Waiting | Ready(task: nat) | Completed

  /**
    `handles` are the association objects, `engaged` those that refer to the scope;
    `releasing` counts handles emptied whose decrement is still to come.  A task is a detached
    chain of joiners being completed.  `terminated` is set where the source ends the program.
   */
  datatype State = State(
    limit: nat,
    scope: ScopeState,
    count: nat,
    handles: set<nat>,
    engaged: set<nat>,
    releasing: nat,
    joiners: seq<nat>,
    tasks: map<nat, seq<nat>>,
    places: map<nat, Place>,
    completions: seq<nat>,
    terminated: bool)

  function Init(limit: nat): State {
    State(limit, Unused, 0, {}, {}, 0, [], map[], map[], [], false)
  }

  /** try_associate of a token, into the new handle `h`. */
  function Associate(s: State, h: nat): State {
    var a := TryAssociate(s.scope, s.count, s.limit);
    s.(scope := a.state, count := a.count, handles := s.handles + {h},
       engaged := if a.engaged then s.engaged + {h} else s.engaged)
  }

  /** try_associate of an association, into the new handle `h`. */
  function AssociateFrom(s: State, from: nat, h: nat): State {
    if from in s.engaged then Associate(s, h) else s.(handles := s.handles + {h})
  }

  /** Move construction of the new handle `h`. */
  function MoveInto(s: State, from: nat, h: nat): State {
    s.(handles := s.handles + {h},
       engaged := if from in s.engaged then s.engaged - {from} + {h} else s.engaged)
  }

  /** __release empties the handle first. */
  function Disengage(s: State, h: nat): State {
    if h in s.engaged then s.(engaged := s.engaged - {h}, releasing := s.releasing + 1) else s
  }

  /** Second half of a move assignment, after the old association of `to` was released. */
  function TakeOver(s: State, from: nat, to: nat): State {
    if from in s.engaged then s.(engaged := s.engaged - {from} + {to}) else s.(engaged := s.engaged - {to})
  }

  /** __decrement: the last one out detaches the joiners, to be completed as task `n`. */
  function Decrement(s: State, n: nat): State
    requires s.count > 0 && s.releasing > 0
  {
    var s0 := s.(count := s.count - 1, releasing := s.releasing - 1);
    if s.count == 1 && IsJoining(s.scope) then
      s0.(scope := Joined, joiners := [], tasks := s.tasks[n := s.joiners],
          places := map j | j in s.places :: if j in s.joiners then Ready(n) else s.places[j])
    else s0
  }

  function Close(s: State): State { s.(scope := AfterClose(s.scope)) }

  /** __start_join by the new joiner `j`. */
  function StartJoin(s: State, j: nat): State {
    if s.count == 0 then
      s.(scope := Joined, places := s.places[j := Completed], completions := s.completions + [j])
    else
      match AfterJoinStart(s.scope)
      case None => s.(terminated := true)
      case Some(next) => s.(scope := next, joiners := [j] + s.joiners, places := s.places[j := Waiting])
  }

  /** __complete_joiners, one joiner at a time. */
  function CompleteNext(s: State, t: nat): State
    requires t in s.tasks && s.tasks[t] != []
  {
    var j := s.tasks[t][0];
    s.(tasks := s.tasks[t := s.tasks[t][1..]], places := s.places[j := Completed],
       completions := s.completions + [j])
  }

  datatype Step =
    | DoAssociate(h: nat)
    | DoAssociateFrom(from: nat, h: nat)
    | DoMoveInto(from: nat, h: nat)
    | DoDisengage(h: nat)
    | DoTakeOver(from: nat, to: nat)
    | DoDecrement(n: nat)
    | DoClose
    | DoStartJoin(j: nat)
    | DoCompleteNext(t: nat)

  predicate Enabled(s: State, step: Step) {
    !s.terminated &&
    match step
    case DoAssociate(h) => h !in s.handles
    case DoAssociateFrom(from, h) => from in s.handles && h !in s.handles
    case DoMoveInto(from, h) => from in s.handles && h !in s.handles
    case DoDisengage(h) => h in s.handles
    case DoTakeOver(from, to) => from in s.handles && to in s.handles && from != to && to !in s.engaged
    case DoDecrement(n) => s.releasing > 0 && n !in s.tasks
    case DoClose => true
    case DoStartJoin(j) => j !in s.places
    case DoCompleteNext(t) => t in s.tasks && s.tasks[t] != []
  }

  function Apply(s: State, step: Step): State
    requires Enabled(s, step) && (s.releasing > 0 ==> s.count > 0)
  {
    match step
    case DoAssociate(h) => Associate(s, h)
    case DoAssociateFrom(from, h) => AssociateFrom(s, from, h)
    case DoMoveInto(from, h) => MoveInto(s, from, h)
    case DoDisengage(h) => Disengage(s, h)
    case DoTakeOver(from, to) => TakeOver(s, from, to)
    case DoDecrement(n) => Decrement(s, n)
    case DoClose => Close(s)
    case DoStartJoin(j) => StartJoin(s, j)
    case DoCompleteNext(t) => CompleteNext(s, t)
  }

  ghost predicate IsRun(run: seq<State>, steps: seq<Step>) {
    && |run| == |steps| + 1
    && run[0] == Init(run[0].limit)
    && forall k | 0 <= k < |steps| ::
         && Enabled(run[k], steps[k]) && (run[k].releasing > 0 ==> run[k].count > 0)
         && run[k + 1] == Apply(run[k], steps[k])
  }

  // ----- The invariant

  predicate Distinct(ids: seq<nat>) {
    forall i, j | 0 <= i < j < |ids| :: ids[i] != ids[j]
  }

  /** The count is exact, and zero in the states that say so. */
  ghost predicate Counted(s: State) {
    && s.engaged <= s.handles
    && s.count == |s.engaged| + s.releasing
    && s.count <= s.limit
    && (s.scope.Unused? || s.scope.UnusedAndClosed? || s.scope.Joined? ==> s.count == 0)
    && (IsJoining(s.scope) <==> s.joiners != [])
    && (IsJoining(s.scope) ==> s.count > 0)
    && !s.terminated
  }

  ghost predicate TaskOk(s: State, t: nat)
    requires t in s.tasks
  {
    Distinct(s.tasks[t]) && forall j | j in s.tasks[t] :: j in s.places && s.places[j] == Ready(t)
  }

  ghost predicate PlaceOk(s: State, j: nat)
    requires j in s.places
  {
    match s.places[j]
    case Waiting => j in s.joiners
    case Ready(t) => t in s.tasks && j in s.tasks[t] && s.scope.Joined?
    case Completed => j in s.completions && s.scope.Joined?
  }

  /** Every joiner that started is waiting, detached or completed, and only in one place. */
  ghost predicate Joiners(s: State) {
    && Distinct(s.joiners) && Distinct(s.completions)
    && (forall j | j in s.joiners :: j in s.places && s.places[j].Waiting?)
    && (forall j | j in s.completions :: j in s.places && s.places[j].Completed?)
    && (forall t | t in s.tasks :: TaskOk(s, t))
    && (forall j | j in s.places :: PlaceOk(s, j))
  }

  ghost predicate Inv(s: State) { Counted(s) && Joiners(s) }

  // ----- Every step keeps it

  /** New associations. */
  lemma AssociateCounted(s: State, h: nat)
    requires Counted(s) && h !in s.handles
    ensures Counted(Associate(s, h)) && (s.scope.Joined? ==> Associate(s, h).scope.Joined?)
  {
    var s' := Associate(s, h);
    if s'.engaged != s.engaged { assert |s.engaged + {h}| == |s.engaged| + 1; }
  }

  /** Handles trade places: `from` for `to`. */
  lemma MoveCounted(s: State, from: nat, to: nat)
    requires Counted(s) && from in s.handles && to !in s.engaged && from != to
    ensures Counted(MoveInto(s, from, to)) && (to in s.handles ==> Counted(TakeOver(s, from, to)))
  {
    assert |s.engaged - {from}| == |s.engaged| - if from in s.engaged then 1 else 0;
    assert |s.engaged - {from} + {to}| == |s.engaged - {from}| + 1;
    assert s.engaged - {to} == s.engaged;
  }

  lemma DisengageCounted(s: State, h: nat)
    requires Counted(s) && h in s.handles
    ensures Counted(Disengage(s, h))
  {
    assert |s.engaged - {h}| == |s.engaged| - if h in s.engaged then 1 else 0;
  }

  lemma CountedStep(s: State, step: Step)
    requires Counted(s) && Enabled(s, step)
    ensures s.releasing > 0 ==> s.count > 0
    ensures Counted(Apply(s, step))
  {
    match step
    case DoAssociate(h) => AssociateCounted(s, h);
    case DoAssociateFrom(from, h) => AssociateCounted(s, h);
    case DoMoveInto(from, h) => MoveCounted(s, from, h);
    case DoDisengage(h) => DisengageCounted(s, h);
    case DoTakeOver(from, to) => MoveCounted(s, from, to);
    case _ =>
  }

  lemma DecrementJoiners(s: State, n: nat)
    requires Joiners(s) && Counted(s) && Enabled(s, DoDecrement(n)) && s.count > 0
    ensures Joiners(Decrement(s, n))
  {
    var s' := Decrement(s, n);
    forall t | t in s'.tasks ensures TaskOk(s', t) {
      if t in s.tasks { assert TaskOk(s, t); }
    }
    forall j | j in s'.places ensures PlaceOk(s', j) {
      assert PlaceOk(s, j);
    }
  }

  lemma StartJoinJoiners(s: State, j: nat)
    requires Joiners(s) && Counted(s) && Enabled(s, DoStartJoin(j))
    ensures Joiners(StartJoin(s, j))
  {
    var s' := StartJoin(s, j);
    forall t | t in s'.tasks ensures TaskOk(s', t) {
      assert TaskOk(s, t);
    }
    forall k | k in s'.places ensures PlaceOk(s', k) {
      if k in s.places { assert PlaceOk(s, k); }
    }
  }

  lemma CompleteNextJoiners(s: State, t: nat)
    requires Joiners(s) && Enabled(s, DoCompleteNext(t))
    ensures Joiners(CompleteNext(s, t))
  {
    var s' := CompleteNext(s, t);
    var j := s.tasks[t][0];
    assert TaskOk(s, t) && j in s.tasks[t] && PlaceOk(s, j);
    forall u | u in s'.tasks ensures TaskOk(s', u) {
      assert TaskOk(s, u);
    }
    forall k | k in s'.places ensures PlaceOk(s', k) {
      assert PlaceOk(s, k);
    }
  }

  /** Steps that leave joiners alone, in states they do not depend on. */
  lemma OtherJoiners(s: State, s': State)
    requires Joiners(s) && (s.scope.Joined? ==> s'.scope.Joined?)
    requires s'.joiners == s.joiners && s'.tasks == s.tasks && s'.places == s.places && s'.completions == s.completions
    ensures Joiners(s')
  {
    forall t | t in s'.tasks ensures TaskOk(s', t) {
      assert TaskOk(s, t);
    }
    forall j | j in s'.places ensures PlaceOk(s', j) {
      assert PlaceOk(s, j);
    }
  }

  lemma StepInv(s: State, step: Step)
    requires Inv(s) && Enabled(s, step)
    ensures s.releasing > 0 ==> s.count > 0
    ensures Inv(Apply(s, step))
  {
    CountedStep(s, step);
    if step.DoDecrement? || step.DoStartJoin? || step.DoCompleteNext? {
      JoinersStep(s, step);
    } else {
      JoinedKept(s, step);
      hide Joiners, Counted;
      OtherJoiners(s, Apply(s, step));
    }
  }

  lemma JoinedKept(s: State, step: Step)
    requires Enabled(s, step) && !step.DoDecrement? && !step.DoStartJoin? && !step.DoCompleteNext?
    requires s.releasing > 0 ==> s.count > 0
    ensures s.scope.Joined? ==> Apply(s, step).scope.Joined?
    ensures var s' := Apply(s, step);
      s'.joiners == s.joiners && s'.tasks == s.tasks && s'.places == s.places && s'.completions == s.completions
  {
  }

  lemma JoinersStep(s: State, step: Step)
    requires Inv(s) && Enabled(s, step) && (step.DoDecrement? || step.DoStartJoin? || step.DoCompleteNext?)
    requires s.releasing > 0 ==> s.count > 0
    ensures Joiners(Apply(s, step))
  {
    hide Joiners, Counted;
    match step
    case DoDecrement(n) => DecrementJoiners(s, n);
    case DoStartJoin(j) => StartJoinJoiners(s, j);
    case DoCompleteNext(t) => CompleteNextJoiners(s, t);
  }

  lemma {:induction false} RunInv(run: seq<State>, steps: seq<Step>, k: nat)
    requires IsRun(run, steps) && k < |run|
    ensures Inv(run[k])
  {
    hide Inv, Apply, Enabled;
    if k == 0 {
      InitInv(run[0].limit);
    } else {
      RunInv(run, steps, k - 1);
      StepInv(run[k - 1], steps[k - 1]);
    }
  }

  lemma InitInv(limit: nat)
    ensures Inv(Init(limit))
  {
  }

  // ----- What that means

  /** The branch that would end the program is never taken. */
  lemma NeverTerminates(run: seq<State>, steps: seq<Step>, k: nat)
    requires IsRun(run, steps) && k < |run|
    ensures !run[k].terminated
    ensures run[k].count > 0 ==> AfterJoinStart(run[k].scope).Some?
  {
    RunInv(run, steps, k);
  }

  /** The count is the number of engaged associations and of releases under way; it is zero where it must be. */
  lemma CountIsExact(run: seq<State>, steps: seq<Step>, k: nat)
    requires IsRun(run, steps) && k < |run|
    ensures run[k].count == |run[k].engaged| + run[k].releasing
    ensures run[k].scope in {Unused, UnusedAndClosed, Joined} ==> run[k].count == 0
    ensures IsJoining(run[k].scope) <==> run[k].joiners != []
    ensures run[k].joiners != [] ==> run[k].count > 0
  {
    RunInv(run, steps, k);
  }

  /** Once joined, always joined: nothing associates and the count stays zero. */
  lemma {:induction false} JoinedForever(run: seq<State>, steps: seq<Step>, k: nat, l: nat)
    requires IsRun(run, steps) && k <= l < |run| && run[k].scope.Joined?
    ensures run[l].scope.Joined? && run[l].count == 0 && run[l].engaged == {}
    decreases l
  {
    hide Inv, Apply, Enabled;
    if k < l {
      JoinedForever(run, steps, k, l - 1);
      RunInv(run, steps, l - 1);
      JoinedStays(run[l - 1], steps[l - 1]);
    }
    RunInv(run, steps, l);
    JoinedIsEmpty(run[l]);
  }

  lemma JoinedIsEmpty(s: State)
    requires Inv(s) && s.scope.Joined?
    ensures s.count == 0 && s.engaged == {}
  {
  }

  lemma JoinedStays(s: State, step: Step)
    requires Inv(s) && Enabled(s, step) && s.scope.Joined? && (s.releasing > 0 ==> s.count > 0)
    ensures Apply(s, step).scope.Joined?
  {
  }

  /** No step makes a rejecting scope accept again. */
  lemma RejectingStays(s: State, step: Step)
    requires Enabled(s, step) && (s.releasing > 0 ==> s.count > 0) && RejectsAssociation(s.scope)
    ensures RejectsAssociation(Apply(s, step).scope)
  {
  }

  /** Once associations are rejected they are rejected in every later state. */
  lemma {:induction false} RejectsForever(run: seq<State>, steps: seq<Step>, k: nat, l: nat)
    requires IsRun(run, steps) && k <= l < |run| && RejectsAssociation(run[k].scope)
    ensures RejectsAssociation(run[l].scope)
    decreases l
  {
    hide Apply, Enabled, RejectsAssociation;
    if k < l {
      RejectsForever(run, steps, k, l - 1);
      RejectingStays(run[l - 1], steps[l - 1]);
    }
  }

  /** A joiner completes at most once, and only with the count at zero, which it then stays. */
  lemma CompletesOnceAtZero(run: seq<State>, steps: seq<Step>, k: nat, l: nat, i: nat)
    requires IsRun(run, steps) && k <= l < |run| && i < |run[k].completions|
    ensures run[k].scope.Joined? && run[l].count == 0
    ensures forall j | 0 <= j < |run[k].completions| && j != i :: run[k].completions[j] != run[k].completions[i]
  {
    RunInv(run, steps, k);
    var s := run[k];
    assert s.completions[i] in s.completions;
    assert PlaceOk(s, s.completions[i]);
    JoinedForever(run, steps, k, l);
  }

  /** With no release under way and no chain left to complete, every joiner completed or waits for a held association. */
  lemma NoJoinerStranded(run: seq<State>, steps: seq<Step>, k: nat, j: nat)
    requires IsRun(run, steps) && k < |run| && j in run[k].places
    requires run[k].releasing == 0 && forall t | t in run[k].tasks :: run[k].tasks[t] == []
    ensures j in run[k].completions || (j in run[k].joiners && run[k].engaged != {})
  {
    RunInv(run, steps, k);
    assert PlaceOk(run[k], j);
  }

  /** The release that brings the count to zero hands every waiting joiner to one task. */
  lemma LastReleaseFreesAll(s: State, n: nat)
    requires Inv(s) && Enabled(s, DoDecrement(n)) && s.count == 1
    ensures var s' := Decrement(s, n);
      && s'.joiners == [] && s'.count == 0
      && (s.joiners != [] ==> s'.scope.Joined? && n in s'.tasks && s'.tasks[n] == s.joiners)
      && (s.joiners == [] ==> s'.scope == s.scope)
  {
  }
}
