/**
  The intrusive first-in first-out queue of channel records: singly linked through the
  records themselves, with a tail pointer, and with removal from the middle.
 */
module RecordQueue {
  import opened Channel

  class Record {
    const id: nat
    var next: Record?
    var item: Option<Item>

    constructor (id: nat, item: Option<Item>)
      ensures this.id == id && this.item == item && next == null
    {
      this.id := id;
      this.item := item;
      next := null;
    }
  }

  /** The next link of the record at position `k`. */
  ghost predicate LinkOk(nodes: seq<Record>, k: nat)
    requires k < |nodes|
    reads nodes[k]
  {
    nodes[k].next == if k + 1 < |nodes| then nodes[k + 1] else null
  }

  ghost predicate AllDistinct(nodes: seq<Record>) {
    forall i, j | 0 <= i < j < |nodes| :: nodes[i] != nodes[j]
  }

  /** `nodes` are distinct records, each linked to the one after it. */
  ghost predicate Chain(nodes: seq<Record>)
    reads nodes
  {
    && AllDistinct(nodes)
    && (forall k | 0 <= k < |nodes| :: LinkOk(nodes, k))
  }

  ghost function IdsOf(nodes: seq<Record>): (ids: seq<nat>)
    ensures |ids| == |nodes|
  {
    seq(|nodes|, k requires 0 <= k < |nodes| => nodes[k].id)
  }

  class Queue {
    var head: Record?
    var tail: Record?
    ghost var nodes: seq<Record>

    ghost predicate Valid()
      reads this, nodes
    {
      && Chain(nodes)
      && head == (if nodes == [] then null else nodes[0])
      && tail == (if nodes == [] then null else nodes[|nodes| - 1])
    }

    constructor ()
      ensures Valid() && nodes == []
    {
      head := null;
      tail := null;
      nodes := [];
    }

    method Empty() returns (empty: bool)
      requires Valid()
      ensures empty <==> nodes == []
    {
      empty := head == null;
    }

    method PushBack(record: Record)
      requires Valid() && record !in nodes
      modifies this, record`next, nodes
      ensures Valid() && nodes == old(nodes) + [record]
      ensures forall r | r in nodes :: r.item == old(r.item)
    {
      record.next := null;
      if tail != null {
        tail.next := record;
      } else {
        head := record;
      }
      tail := record;
      nodes := nodes + [record];
      forall k | 0 <= k < |nodes| ensures LinkOk(nodes, k) {
        if k + 1 < |nodes| { assert old(LinkOk(nodes, k)); }
      }
    }

    method PopFront() returns (record: Record?)
      requires Valid()
      modifies this, nodes
      ensures Valid()
      ensures old(nodes) == [] ==> record == null && nodes == []
      ensures old(nodes) != [] ==> record == old(nodes)[0] && record.next == null && nodes == old(nodes)[1..]
      ensures record !in nodes
      ensures forall r | r in old(nodes) :: r.item == old(r.item)
    {
      record := head;
      if record != null {
        assert LinkOk(nodes, 0);
        head := record.next;
        record.next := null;
        if head == null {
          tail := null;
        }
        nodes := nodes[1..];
        forall k | 0 <= k < |nodes| ensures LinkOk(nodes, k) {
          assert old(LinkOk(nodes, k + 1));
        }
      }
    }

    /** Unlinks `record` wherever it is; null when it is not in the queue. */
    method Remove(record: Record) returns (removed: Record?)
      requires Valid()
      modifies this, nodes
      ensures Valid()
      ensures removed != null <==> record in old(nodes)
      ensures removed == null ==> nodes == old(nodes)
      ensures removed != null ==> removed == record && record.next == null && nodes == Drop(old(nodes), record)
      ensures forall r | r in old(nodes) :: r.item == old(r.item)
    {
      var link, previous: Record? := head, null;
      ghost var k := 0;
      while link != null && link != record
        invariant 0 <= k <= |nodes| && link == (if k < |nodes| then nodes[k] else null)
        invariant previous == (if k == 0 then null else nodes[k - 1])
        invariant record !in nodes[..k]
        decreases |nodes| - k
      {
        assert LinkOk(nodes, k);
        previous := link;
        link := link.next;
        k := k + 1;
      }
      if link == null {
        return null;
      }
      removed := link;
      assert LinkOk(nodes, k);
      Unlink(removed, previous, k);
    }

    /** The pointer updates of a removal at position `k`. */
    method Unlink(removed: Record, previous: Record?, ghost k: nat)
      requires Valid() && k < |nodes| && nodes[k] == removed
      requires previous == (if k == 0 then null else nodes[k - 1])
      modifies this, nodes
      ensures Valid() && removed.next == null && nodes == Drop(old(nodes), removed)
      ensures forall r | r in old(nodes) :: r.item == old(r.item)
    {
      hide AllDistinct, Drop;
      if k > 0 { Different(nodes, k - 1, k); }
      assert LinkOk(nodes, k);
      var rest := removed.next;
      removed.next := null;
      if previous == null {
        head := rest;
      } else {
        previous.next := rest;
      }
      if rest == null {
        tail := previous;
      }
      ghost var was := nodes;
      nodes := was[..k] + was[k + 1..];
      DropAt(was, k);
      DropDistinct(was, k);
      forall j | 0 <= j < |nodes| ensures LinkOk(nodes, j) {
        var i := if j < k then j else j + 1;
        Different(was, i, k);
        if k > 0 { Different(was, i, k - 1); }
        assert old(LinkOk(was, i));
      }
    }

    /** Detaches the whole chain. */
    method TakeAll() returns (chain: Record?)
      requires Valid()
      modifies this
      ensures Valid() && nodes == []
      ensures Chain(old(nodes)) && chain == (if old(nodes) == [] then null else old(nodes)[0])
    {
      tail := null;
      chain := head;
      head := null;
      nodes := [];
    }
  }

  /** `nodes` without `record`. */
  ghost function Drop(nodes: seq<Record>, record: Record): seq<Record> {
    if nodes == [] then [] else if nodes[0] == record then nodes[1..] else [nodes[0]] + Drop(nodes[1..], record)
  }

  lemma {:induction false} DropAt(nodes: seq<Record>, k: nat)
    requires k < |nodes| && AllDistinct(nodes)
    ensures Drop(nodes, nodes[k]) == nodes[..k] + nodes[k + 1..]
  {
    if k > 0 {
      assert nodes[1..][k - 1] == nodes[k];
      DropAt(nodes[1..], k - 1);
    }
  }

  lemma Different(nodes: seq<Record>, i: nat, j: nat)
    requires AllDistinct(nodes) && i < |nodes| && j < |nodes|
    ensures nodes[i] == nodes[j] ==> i == j
  {
    assert i < j ==> nodes[i] != nodes[j];
    assert j < i ==> nodes[j] != nodes[i];
  }

  lemma DropDistinct(nodes: seq<Record>, k: nat)
    requires AllDistinct(nodes) && k < |nodes|
    ensures AllDistinct(nodes[..k] + nodes[k + 1..])
  {
  }

  /** Removal on records is removal on their identities. */
  lemma {:induction false} DropIsWithout(nodes: seq<Record>, record: Record)
    requires forall r | r in nodes :: r.id == record.id ==> r == record
    ensures IdsOf(Drop(nodes, record)) == Without(IdsOf(nodes), record.id)
  {
    if nodes != [] {
      assert IdsOf(nodes)[1..] == IdsOf(nodes[1..]);
      assert nodes[0] in nodes;
      DropIsWithout(nodes[1..], record);
    }
  }

  /** The loops of close and request_stop: walk a detached chain, unlinking each record before its completion. */
  method CompleteChain(chain: Record?, ghost nodes: seq<Record>) returns (order: seq<nat>)
    requires Chain(nodes) && chain == (if nodes == [] then null else nodes[0])
    modifies nodes
    ensures order == IdsOf(nodes)
    ensures forall r | r in nodes :: r.next == null && r.item == old(r.item)
  {
    order := [];
    var record := chain;
    ghost var k := 0;
    while record != null
      invariant 0 <= k <= |nodes| && record == (if k < |nodes| then nodes[k] else null)
      invariant order == IdsOf(nodes)[..k]
      invariant forall j | 0 <= j < k :: nodes[j].next == null
      invariant forall j | k <= j < |nodes| :: LinkOk(nodes, j)
      invariant forall r | r in nodes :: r.item == old(r.item)
      decreases |nodes| - k
    {
      assert LinkOk(nodes, k);
      var next := record.next;
      record.next := null;
      order := order + [record.id];
      record := next;
      k := k + 1;
    }
  }
}
