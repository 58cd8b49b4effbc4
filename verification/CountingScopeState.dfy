/**
  The scope object: state, count and the intrusive list of joiners, updated in place.  Each
  operation does to the object what the corresponding step does to the scope's state, which
  is ghost here.
 */
module CountingScopeState {
  import opened CountingScope

  class JoinState {
    const id: nat
    var next: JoinState?
    var registered: bool

    constructor (id: nat)
      ensures this.id == id && next == null && !registered
    {
      this.id := id;
      next := null;
      registered := false;
    }
  }

  ghost predicate LinkOk(nodes: seq<JoinState>, k: nat)
    requires k < |nodes|
    reads nodes[k]
  {
    nodes[k].registered && nodes[k].next == if k + 1 < |nodes| then nodes[k + 1] else null
  }

  ghost predicate Chain(nodes: seq<JoinState>)
    reads nodes
  {
    && (forall i, j | 0 <= i < j < |nodes| :: nodes[i] != nodes[j])
    && (forall k | 0 <= k < |nodes| :: LinkOk(nodes, k))
  }

  ghost function IdsOf(nodes: seq<JoinState>): (ids: seq<nat>)
    ensures |ids| == |nodes|
  {
    seq(|nodes|, k requires 0 <= k < |nodes| => nodes[k].id)
  }

  function First(nodes: seq<JoinState>): JoinState? { if nodes == [] then null else nodes[0] }

  /** Walks a detached chain, unlinking each joiner before completing it. */
  method CompleteJoiners(head: JoinState?, ghost nodes: seq<JoinState>) returns (order: seq<nat>)
    requires Chain(nodes) && head == First(nodes)
    modifies nodes
    ensures order == IdsOf(nodes)
    ensures forall j | j in nodes :: j.next == null && !j.registered
  {
    order := [];
    var current := head;
    ghost var k := 0;
    while current != null
      invariant 0 <= k <= |nodes| && current == (if k < |nodes| then nodes[k] else null)
      invariant order == IdsOf(nodes)[..k]
      invariant forall j | 0 <= j < k :: nodes[j].next == null && !nodes[j].registered
      invariant forall j | k <= j < |nodes| :: LinkOk(nodes, j)
      decreases |nodes| - k
    {
      assert LinkOk(nodes, k);
      var next := current.next;
      current.next := null;
      current.registered := false;
      order := order + [current.id];
      current := next;
      k := k + 1;
    }
  }

  class Scope {
    const limit: nat
    var count: nat
    var state: ScopeState
    var joiners: JoinState?
    ghost var nodes: seq<JoinState>

    ghost predicate Valid()
      reads this, nodes
    {
      Chain(nodes) && joiners == First(nodes)
    }

    ghost predicate Shows(s: State)
      reads this, nodes
    {
      Valid() && limit == s.limit && count == s.count && state == s.scope && IdsOf(nodes) == s.joiners
    }

    constructor (limit: nat)
      ensures Shows(Init(limit)) && nodes == []
    {
      this.limit := limit;
      count, state, joiners, nodes := 0, Unused, null, [];
    }

    method Associate(ghost s: State, ghost h: nat) returns (engaged: bool)
      requires Shows(s) && h !in s.handles && s.engaged <= s.handles
      modifies this
      ensures Shows(CountingScope.Associate(s, h)) && (engaged <==> h in CountingScope.Associate(s, h).engaged)
      ensures nodes == old(nodes)
    {
      var next := TryAssociate(state, count, limit);
      if !next.engaged {
        return false;
      }
      state := next.state;
      count := count + 1;
      engaged := true;
    }

    method Close(ghost s: State)
      requires Shows(s)
      modifies this
      ensures Shows(CountingScope.Close(s)) && nodes == old(nodes)
    {
      state := AfterClose(state);
    }

    /** True when the joiner may complete at once; the branch that ends the program is unreachable. */
    method StartJoin(joiner: JoinState, ghost s: State) returns (now: bool)
      requires Shows(s) && Counted(s) && joiner !in nodes
      modifies this, joiner
      ensures Shows(CountingScope.StartJoin(s, joiner.id))
      ensures now <==> s.count == 0
      ensures nodes == if now then old(nodes) else [joiner] + old(nodes)
    {
      if count == 0 {
        state := Joined;
        return true;
      }
      var next := AfterJoinStart(state);
      match next {
        case None => assert false;
        case Some(joining) =>
          state := joining;
          joiner.next := joiners;
          joiner.registered := true;
          joiners := joiner;
          ghost var was := nodes;
          nodes := [joiner] + nodes;
          forall k | 0 <= k < |nodes| ensures LinkOk(nodes, k) {
            if k > 0 { assert old(LinkOk(was, k - 1)); }
          }
          assert IdsOf(nodes) == [joiner.id] + s.joiners;
      }
      now := false;
    }

    /** The last release detaches the joiners and completes them, most recent first. */
    method Decrement(ghost s: State, ghost n: nat) returns (order: seq<nat>)
      requires Shows(s) && Counted(s) && s.releasing > 0 && n !in s.tasks
      modifies this, nodes
      ensures Shows(CountingScope.Decrement(s, n))
      ensures var s' := CountingScope.Decrement(s, n); order == if n in s'.tasks then s'.tasks[n] else []
      ensures order != [] ==> forall j | j in old(nodes) :: j.next == null && !j.registered
    {
      order := [];
      var was := count;
      count := count - 1;
      if was == 1 && IsJoining(state) {
        state := Joined;
        ghost var ready := nodes;
        var head := joiners;
        joiners, nodes := null, [];
        order := CompleteJoiners(head, ready);
      }
    }
  }
}
