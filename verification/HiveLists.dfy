/**
  The intrusive block lists.  A block's address is a positive number, `NULL` is
  zero, and each link field is a map from address to address; `s` is the
  sequence the links spell out.
 */
module HiveLists {
  import opened HiveBlock
  import opened HiveModel
  import opened HiveModelProofs

  lemma DistinctConcat(a: seq<nat>, c: seq<nat>)
    requires Distinct(a) && Distinct(c) && forall x | x in a :: x !in c
    ensures Distinct(a + c)
  {
    forall p, q | 0 <= p < q < |a + c| ensures (a + c)[p] != (a + c)[q] {
      if p < |a| && q >= |a| { assert a[p] in a && c[q - |a|] in c; }
    }
  }

  /** Doubly linked list with a head; callers that need a tail keep it themselves. */
  class DList {
    var head: nat
    var prev: map<nat, nat>
    var next: map<nat, nat>
    ghost var s: seq<nat>

    static ghost function Before(s: seq<nat>, p: int): nat
      requires 0 <= p < |s|
    {
      if p == 0 then NULL else s[p - 1]
    }

    static ghost function After(s: seq<nat>, p: int): nat
      requires 0 <= p < |s|
    {
      if p + 1 == |s| then NULL else s[p + 1]
    }

    static ghost predicate NodeOk(prev: map<nat, nat>, next: map<nat, nat>, s: seq<nat>, p: int) {
      0 <= p < |s| ==>
        && s[p] != NULL && s[p] in prev && s[p] in next
        && prev[s[p]] == Before(s, p) && next[s[p]] == After(s, p)
    }

    ghost predicate Valid()
      reads this
    {
      && Distinct(s)
      && head == (if s == [] then NULL else s[0])
      && (forall p :: NodeOk(prev, next, s, p))
      && (forall x :: x in prev ==> x in s) && (forall x :: x in next ==> x in s)
    }

    ghost function Last(): nat
      reads this
    {
      if s == [] then NULL else s[|s| - 1]
    }

    constructor ()
      ensures Valid() && s == []
    {
      head, prev, next, s := NULL, map[], map[], [];
    }

    method Clear()
      modifies this
      ensures Valid() && s == []
    {
      head, prev, next, s := NULL, map[], map[], [];
    }

    /** The whole chain changes hands. */
    method TakeOver(from: DList)
      requires from.Valid() && this != from
      modifies this, from
      ensures Valid() && s == old(from.s) && from.Valid() && from.s == []
    {
      head, prev, next, s := from.head, from.prev, from.next, from.s;
      from.Clear();
    }

    method PushFront(x: nat)
      requires Valid() && x != NULL && x !in s
      modifies this
      ensures Valid() && s == [x] + old(s)
    {
      assert NodeOk(prev, next, s, 0);
      prev := prev[x := NULL];
      next := next[x := head];
      if head != NULL {
        prev := prev[head := x];
      }
      head := x;
      s := [x] + s;
      forall p ensures NodeOk(prev, next, s, p) {
        assert old(NodeOk(prev, next, s, p - 1));
      }
    }

    /** Links `x` after `tail`, which is the last node or `NULL` in an empty list. */
    method Append(x: nat, tail: nat)
      requires Valid() && x != NULL && x !in s && tail == Last()
      modifies this
      ensures Valid() && s == old(s) + [x]
    {
      assert NodeOk(prev, next, s, |s| - 1);
      prev := prev[x := tail];
      next := next[x := NULL];
      if tail != NULL {
        next := next[tail := x];
      } else {
        head := x;
      }
      s := s + [x];
      forall p ensures NodeOk(prev, next, s, p) {
        assert old(NodeOk(prev, next, s, p));
      }
    }

    method Remove(x: nat, ghost k: nat)
      requires Valid() && k < |s| && s[k] == x
      modifies this
      ensures Valid() && s == Without(old(s), k)
    {
      assert NodeOk(prev, next, s, k) && NodeOk(prev, next, s, k - 1) && NodeOk(prev, next, s, k + 1);
      var before, after := prev[x], next[x];
      if before != NULL {
        next := next[before := after];
      } else {
        head := after;
      }
      if after != NULL {
        prev := prev[after := before];
      }
      prev := prev - {x};
      next := next - {x};
      s := Without(s, k);
      Unlinked(old(prev), old(next), old(s), k, prev, next);
    }

    /** Taking out node `k` and joining its neighbours leaves a chain of the other nodes. */
    static lemma Unlinked(prev: map<nat, nat>, next: map<nat, nat>, s: seq<nat>, k: nat,
                          prev': map<nat, nat>, next': map<nat, nat>)
      requires Distinct(s) && k < |s| && forall p :: NodeOk(prev, next, s, p)
      requires next' == (if k > 0 then next[s[k - 1] := After(s, k)] else next) - {s[k]}
      requires prev' == (if k + 1 < |s| then prev[s[k + 1] := Before(s, k)] else prev) - {s[k]}
      ensures Distinct(Without(s, k)) && forall p :: NodeOk(prev', next', Without(s, k), p)
      ensures forall x :: x in Without(s, k) <==> x in s && x != s[k]
    {
      WithoutDistinct(s, k);
      var w := Without(s, k);
      forall p ensures NodeOk(prev', next', w, p) {
        if 0 <= p < |w| {
          var q := if p < k then p else p + 1;
          assert NodeOk(prev, next, s, q);
          WithoutAt(s, k, p);
          if p > 0 { WithoutAt(s, k, p - 1); }
          if p + 1 < |w| { WithoutAt(s, k, p + 1); }
          UnlinkedNode(prev, next, s, k, prev', next', w, p, q);
        }
      }
    }

    static lemma UnlinkedNode(prev: map<nat, nat>, next: map<nat, nat>, s: seq<nat>, k: nat,
                              prev': map<nat, nat>, next': map<nat, nat>, w: seq<nat>, p: nat, q: nat)
      requires Distinct(s) && k < |s| && q < |s| && q != k && NodeOk(prev, next, s, q)
      requires next' == (if k > 0 then next[s[k - 1] := After(s, k)] else next) - {s[k]}
      requires prev' == (if k + 1 < |s| then prev[s[k + 1] := Before(s, k)] else prev) - {s[k]}
      requires |w| == |s| - 1 && p < |w| && q == (if p < k then p else p + 1) && w[p] == s[q]
      requires p > 0 ==> w[p - 1] == s[if p - 1 < k then p - 1 else p]
      requires p + 1 < |w| ==> w[p + 1] == s[if p + 1 < k then p + 1 else p + 2]
      ensures NodeOk(prev', next', w, p)
    {
    }

    /** Hangs the whole chain of `other` after this list's last node. */
    method Adopt(other: DList, tail: nat)
      requires Valid() && other.Valid() && other != this && tail == Last() && other.s != []
      requires forall x | x in s :: x !in other.s
      modifies this, other
      ensures Valid() && other.Valid() && s == old(s) + old(other.s) && other.s == []
    {
      AdoptFacts(other);
      Joined(prev, next, s, other.prev, other.next, other.s);
      var first := other.head;
      prev := prev + other.prev;
      next := next + other.next;
      if tail != NULL {
        next := next[tail := first];
        prev := prev[first := tail];
      } else {
        head := first;
      }
      s := s + other.s;
      other.head, other.prev, other.next, other.s := NULL, map[], map[], [];
    }

    static ghost predicate ChainOk(prev: map<nat, nat>, next: map<nat, nat>, s: seq<nat>) {
      && Distinct(s)
      && (forall p :: NodeOk(prev, next, s, p))
      && (forall x :: x in prev ==> x in s) && (forall x :: x in next ==> x in s)
    }

    /** Two disjoint chains with the link between them set form one chain. */
    static lemma Joined(prev: map<nat, nat>, next: map<nat, nat>, s: seq<nat>,
                        prev2: map<nat, nat>, next2: map<nat, nat>, s2: seq<nat>)
      requires ChainOk(prev, next, s) && ChainOk(prev2, next2, s2) && s2 != []
      requires forall x | x in s :: x !in s2
      ensures var n := if s != [] then (next + next2)[s[|s| - 1] := s2[0]] else next + next2;
              var p := if s != [] then (prev + prev2)[s2[0] := s[|s| - 1]] else prev + prev2;
              ChainOk(p, n, s + s2)
    {
      var n := if s != [] then (next + next2)[s[|s| - 1] := s2[0]] else next + next2;
      var p := if s != [] then (prev + prev2)[s2[0] := s[|s| - 1]] else prev + prev2;
      DistinctConcat(s, s2);
      forall i ensures NodeOk(p, n, s + s2, i) {
        if 0 <= i < |s| {
          JoinedFront(prev, next, s, prev2, next2, s2, p, n, i);
        } else if |s| <= i < |s + s2| {
          JoinedBack(prev, next, s, prev2, next2, s2, p, n, i - |s|);
        }
      }
    }

    static lemma JoinedFront(prev: map<nat, nat>, next: map<nat, nat>, s: seq<nat>,
                             prev2: map<nat, nat>, next2: map<nat, nat>, s2: seq<nat>,
                             p: map<nat, nat>, n: map<nat, nat>, i: nat)
      requires Distinct(s) && i < |s| && NodeOk(prev, next, s, i) && s2 != []
      requires (forall x | x in s :: x !in s2) && (forall x :: x in prev2 ==> x in s2) && (forall x :: x in next2 ==> x in s2)
      requires n == (next + next2)[s[|s| - 1] := s2[0]] && p == (prev + prev2)[s2[0] := s[|s| - 1]]
      ensures NodeOk(p, n, s + s2, i)
    {
      assert s[i] in s && s2[0] in s2;
    }

    static lemma JoinedBack(prev: map<nat, nat>, next: map<nat, nat>, s: seq<nat>,
                            prev2: map<nat, nat>, next2: map<nat, nat>, s2: seq<nat>,
                            p: map<nat, nat>, n: map<nat, nat>, i: nat)
      requires Distinct(s2) && i < |s2| && NodeOk(prev2, next2, s2, i)
      requires forall x | x in s :: x !in s2
      requires n == if s != [] then (next + next2)[s[|s| - 1] := s2[0]] else next + next2
      requires p == if s != [] then (prev + prev2)[s2[0] := s[|s| - 1]] else prev + prev2
      ensures NodeOk(p, n, s + s2, |s| + i)
    {
      assert s2[i] in s2 && (s + s2)[|s| + i] == s2[i];
      if s != [] { assert s[|s| - 1] in s; }
    }

    lemma AdoptFacts(other: DList)
      requires Valid() && other.Valid() && other.s != []
      ensures other.head == other.s[0] && (Last() == NULL <==> s == [])
      ensures s != [] ==> Last() in next && Last() in prev
    {
      assert NodeOk(prev, next, s, |s| - 1);
    }

    method Successor(x: nat, ghost k: nat) returns (y: nat)
      requires Valid() && k < |s| && s[k] == x
      ensures y == if k + 1 < |s| then s[k + 1] else NULL
      ensures y == NULL <==> k + 1 == |s|
    {
      assert NodeOk(prev, next, s, k) && NodeOk(prev, next, s, k + 1);
      y := next[x];
    }

    method Predecessor(x: nat, ghost k: nat) returns (y: nat)
      requires Valid() && k < |s| && s[k] == x
      ensures y == if k > 0 then s[k - 1] else NULL
      ensures y == NULL <==> k == 0
    {
      assert NodeOk(prev, next, s, k) && NodeOk(prev, next, s, k - 1);
      y := prev[x];
    }
  }

  /** Singly linked stack of reserved blocks. */
  class SList {
    var head: nat
    var next: map<nat, nat>
    ghost var s: seq<nat>

    static ghost predicate NodeOk(next: map<nat, nat>, s: seq<nat>, p: int) {
      0 <= p < |s| ==> s[p] != NULL && s[p] in next && next[s[p]] == DList.After(s, p)
    }

    ghost predicate Valid()
      reads this
    {
      && Distinct(s)
      && head == (if s == [] then NULL else s[0])
      && (forall p :: NodeOk(next, s, p))
    }

    constructor ()
      ensures Valid() && s == []
    {
      head, next, s := NULL, map[], [];
    }

    method PushFront(x: nat)
      requires Valid() && x != NULL && x !in s
      modifies this
      ensures Valid() && s == [x] + old(s)
    {
      assert NodeOk(next, s, 0);
      next := next[x := head];
      head := x;
      s := [x] + s;
      forall p ensures NodeOk(next, s, p) {
        assert old(NodeOk(next, s, p - 1));
      }
    }

    method PopFront() returns (x: nat)
      requires Valid() && s != []
      modifies this
      ensures Valid() && x == old(s)[0] && s == old(s)[1..]
    {
      assert NodeOk(next, s, 0) && NodeOk(next, s, 1);
      x := head;
      head := next[x];
      next := next[x := NULL];
      s := s[1..];
      forall p ensures NodeOk(next, s, p) {
        assert old(NodeOk(next, s, p + 1));
      }
    }

    /** Unlinks the node after `before`, or the head when `before` is `NULL`. */
    method RemoveAfter(before: nat, ghost k: nat) returns (x: nat)
      requires Valid() && k < |s| && before == DList.Before(s, k)
      modifies this
      ensures Valid() && x == old(s)[k] && s == Without(old(s), k)
    {
      assert NodeOk(next, s, k) && NodeOk(next, s, k - 1) && NodeOk(next, s, k + 1);
      if before == NULL {
        x := head;
        head := next[x];
      } else {
        x := next[before];
        next := next[before := next[x]];
      }
      s := Without(s, k);
      forall p ensures NodeOk(next, s, p) {
        var q := if p < k then p else p + 1;
        assert old(NodeOk(next, s, q));
        if 0 <= p < |s| { WithoutAt(old(s), k, p); }
      }
    }

    /** The node at position `k`, or `NULL` past the end, reached from its predecessor. */
    method NodeAfter(before: nat, ghost k: nat) returns (x: nat)
      requires Valid() && k <= |s| && before == (if k == 0 then NULL else s[k - 1])
      ensures x == if k < |s| then s[k] else NULL
      ensures x == NULL <==> k == |s|
    {
      assert NodeOk(next, s, k) && NodeOk(next, s, k - 1);
      x := if before == NULL then head else next[before];
    }
  }
}
