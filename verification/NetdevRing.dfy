/**
 * The circular list of network devices: lookup with allocation, removal and clearing
 * on next and prev pointers.
 */
module NetdevRing {
  import opened NetdevSpec

  /** A list head, either the anchor of the list or the one inside a device; null is the poison of list_del(). */
  class ListHead {
    var next: ListHead?
    var prev: ListHead?
    var idx: int

    constructor (idx: int)
      ensures this.idx == idx && next == null && prev == null
    {
      this.idx, next, prev := idx, null, null;
    }
  }

  ghost predicate Distinct(s: seq<ListHead>) {
    forall i, j | 0 <= i < j < |s| :: s[i] != s[j]
  }

  lemma StillDistinct(s: seq<ListHead>, k: nat, entry: ListHead)
    requires Distinct(s) && k <= |s| && entry !in s
    ensures Distinct(s[..k] + [entry] + s[k..])
  {
  }

  lemma FewerDistinct(s: seq<ListHead>, k: nat)
    requires Distinct(s) && k < |s|
    ensures Distinct(s[..k] + s[k + 1..])
  {
  }

  /** next and prev are inverse to each other and follow the nodes. */
  ghost predicate Chain(r: seq<ListHead>)
    reads r
  {
    forall i, j | 0 <= i < j < |r| && j == i + 1 :: r[i].next == r[j] && r[j].prev == r[i]
  }

  /** A way once around a ring: no node comes twice, but the first is also the last. */
  ghost predicate Around(r: seq<ListHead>) {
    |r| >= 2 && r[0] == r[|r| - 1] && Distinct(r[..|r| - 1])
  }

  lemma AroundApart(r: seq<ListHead>, i: nat, j: nat)
    requires Around(r) && i < j < |r| && (i > 0 || j < |r| - 1)
    ensures r[i] != r[j]
  {
    var d := r[..|r| - 1];
    assert r[i] == d[i] && r[j] == d[if j < |d| then j else 0];
  }

  lemma StillAround(r: seq<ListHead>, k: nat, entry: ListHead)
    requires Around(r) && k < |r| - 1 && entry !in r
    ensures Around(r[..k + 1] + [entry] + r[k + 1..])
  {
    var d, q := r[..|r| - 1], r[..k + 1] + [entry] + r[k + 1..];
    StillDistinct(d, k + 1, entry);
    assert q[..|q| - 1] == d[..k + 1] + [entry] + d[k + 1..];
  }

  lemma FewerAround(r: seq<ListHead>, k: nat)
    requires Around(r) && k + 2 < |r|
    ensures Around(r[..k + 1] + r[k + 2..])
  {
    var d, q := r[..|r| - 1], r[..k + 1] + r[k + 2..];
    FewerDistinct(d, k + 1);
    assert q[..|q| - 1] == d[..k + 1] + d[k + 2..];
  }

  ghost predicate HoldsIn(nodes: seq<ListHead>, idxs: seq<int>)
    reads nodes
  {
    |nodes| == |idxs| && forall i | 0 <= i < |nodes| :: nodes[i].idx == idxs[i]
  }

  lemma RingInserted(head: ListHead, nodes: seq<ListHead>, k: nat, entry: ListHead)
    requires k <= |nodes|
    ensures var r := [head] + nodes + [head];
      [head] + (nodes[..k] + [entry] + nodes[k..]) + [head] == r[..k + 1] + [entry] + r[k + 1..]
  {
  }

  lemma RingDeleted(head: ListHead, nodes: seq<ListHead>, k: nat)
    requires k < |nodes|
    ensures var r := [head] + nodes + [head];
      [head] + (nodes[..k] + nodes[k + 1..]) + [head] == r[..k + 1] + r[k + 2..]
  {
  }

  lemma HoldsInserted(nodes: seq<ListHead>, idxs: seq<int>, k: nat, entry: ListHead)
    requires HoldsIn(nodes, idxs) && k <= |nodes|
    ensures HoldsIn(nodes[..k] + [entry] + nodes[k..], idxs[..k] + [entry.idx] + idxs[k..])
  {
  }

  lemma HoldsDeleted(nodes: seq<ListHead>, idxs: seq<int>, k: nat)
    requires HoldsIn(nodes, idxs) && k < |nodes|
    ensures HoldsIn(nodes[..k] + nodes[k + 1..], idxs[..k] + idxs[k + 1..])
  {
  }

  /** __list_add() between two neighbours. */
  method ListAdd(entry: ListHead, prev: ListHead, next: ListHead, ghost r: seq<ListHead>, ghost k: nat)
    requires Around(r) && Chain(r) && k < |r| - 1 && prev == r[k] && next == r[k + 1] && entry !in r
    modifies next`prev, entry`next, entry`prev, prev`next
    ensures Chain(r[..k + 1] + [entry] + r[k + 1..])
  {
    next.prev := entry;
    entry.next := next;
    entry.prev := prev;
    prev.next := entry;
    ghost var q := r[..k + 1] + [entry] + r[k + 1..];
    forall i, j | 0 <= i < j < |q| && j == i + 1
      ensures q[i].next == q[j] && q[j].prev == q[i]
    {
      if i < k {
        assert q[i] == r[i] && q[j] == r[j];
        AroundApart(r, i, k);
        AroundApart(r, j, k + 1);
      } else if i > k + 1 {
        assert q[i] == r[i - 1] && q[j] == r[j - 1];
        AroundApart(r, k, i - 1);
        AroundApart(r, k + 1, j - 1);
      }
    }
  }

  /** list_del() */
  method ListDel(entry: ListHead, ghost r: seq<ListHead>, ghost k: nat)
    requires Around(r) && Chain(r) && 0 < k < |r| - 1 && entry == r[k]
    modifies r`next, r`prev
    ensures forall x | x in r && x != entry && x != r[k - 1] :: x.next == old(x.next)
    ensures forall x | x in r && x != entry && x != r[k + 1] :: x.prev == old(x.prev)
    ensures Chain(r[..k] + r[k + 1..]) && entry.next == null && entry.prev == null
  {
    assert r[k - 1].next == r[k] && r[k].next == r[k + 1];
    var prev, next := entry.prev, entry.next;
    next.prev := prev;
    prev.next := next;
    entry.next := null;
    entry.prev := null;
    ghost var q := r[..k] + r[k + 1..];
    forall i, j | 0 <= i < j < |q| && j == i + 1
      ensures q[i].next == q[j] && q[j].prev == q[i]
    {
      if i < k - 1 {
        assert q[i] == r[i] && q[j] == r[j];
        AroundApart(r, i, k - 1);
        AroundApart(r, i, k);
        AroundApart(r, j, k);
        AroundApart(r, j, k + 1);
      } else if i > k - 1 {
        assert q[i] == r[i + 1] && q[j] == r[j + 1];
        AroundApart(r, k, i + 1);
        AroundApart(r, k, j + 1);
        AroundApart(r, k - 1, i + 1);
        AroundApart(r, k + 1, j + 1);
      } else {
        assert q[i] == r[k - 1] && q[j] == r[k + 1];
        AroundApart(r, k - 1, k);
        AroundApart(r, k, k + 1);
      }
    }
  }

  class Netdevs {
    const head: ListHead
    ghost var nodes: seq<ListHead>
    ghost var idxs: seq<int>

    /** Once around the ring, from the anchor to the anchor. */
    ghost function Round(): seq<ListHead>
      reads this
    {
      [head] + nodes + [head]
    }

    ghost predicate Holds()
      reads this, nodes
    {
      HoldsIn(nodes, idxs)
    }

    ghost predicate Valid()
      reads this, head, nodes
    {
      Around(Round()) && Chain(Round()) && Holds()
    }

    constructor ()
      ensures Valid() && idxs == [] && fresh(head)
    {
      head := new ListHead(-1);
      nodes, idxs := [], [];
      new;
      head.next, head.prev := head, head;
    }

    /** Links a new node in before position k of the list. */
    method Insert(entry: ListHead, before: ListHead, ghost k: nat)
      requires Valid() && k <= |nodes| && before == Round()[k + 1] && entry !in Round()
      modifies this, head, nodes, entry
      ensures Valid()
      ensures nodes == old(nodes[..k]) + [entry] + old(nodes[k..])
      ensures idxs == old(idxs[..k]) + [old(entry.idx)] + old(idxs[k..])
    {
      ghost var r := Round();
      assert r[k].next == r[k + 1] && r[k + 1].prev == r[k];
      ListAdd(entry, before.prev, before, r, k);
      RingInserted(head, nodes, k, entry);
      StillAround(r, k, entry);
      HoldsInserted(nodes, idxs, k, entry);
      nodes := nodes[..k] + [entry] + nodes[k..];
      idxs := idxs[..k] + [entry.idx] + idxs[k..];
    }

    /** Unlinks the node at position k. */
    method Delete(entry: ListHead, ghost k: nat)
      requires Valid() && k < |nodes| && entry == nodes[k]
      modifies this, head, nodes
      ensures Valid() && entry.next == null && entry.prev == null
      ensures nodes == old(nodes[..k]) + old(nodes[k + 1..])
      ensures idxs == old(idxs[..k]) + old(idxs[k + 1..])
    {
      ghost var r := Round();
      assert r[k + 1] == entry;
      ListDel(entry, r, k + 1);
      RingDeleted(head, nodes, k);
      FewerAround(r, k);
      HoldsDeleted(nodes, idxs, k);
      nodes := nodes[..k] + nodes[k + 1..];
      idxs := idxs[..k] + idxs[k + 1..];
    }

    /** The loop of the lookup: the node with the index, or the one to link a new node in before. */
    method Search(idx: nat) returns (found: bool, at: ListHead)
      requires Valid()
      ensures at == Round()[Stop(idxs, idx) + 1] && (found <==> Stops(idxs, idx))
    {
      ghost var i := 0;
      assert Round()[0].next == Round()[1];
      at := head.next;
      while at != head
        invariant i <= |nodes| && at == Round()[i + 1]
        invariant forall j | 0 <= j < i :: idxs[j] < idx
        decreases |nodes| - i
      {
        assert Round()[i + 1].next == Round()[i + 2];
        if at.idx == idx {
          StopAt(idxs, idx, i);
          return true, at;
        }
        if at.idx > idx {
          break;
        }
        at := at.next;
        i := i + 1;
      }
      StopAt(idxs, idx, i);
      found := false;
    }

    /** A new device with the given index, linked in before position k. */
    method NetworkAdd(at: ListHead, idx: int, allocates: bool, ghost k: nat) returns (netdev: ListHead?)
      requires Valid() && k <= |nodes| && at == Round()[k + 1]
      modifies this, head, nodes
      ensures Valid() && (netdev != null <==> allocates)
      ensures netdev != null ==> netdev.idx == idx && fresh(netdev)
      ensures nodes == if netdev != null then old(nodes[..k]) + [netdev] + old(nodes[k..]) else old(nodes)
      ensures idxs == if netdev != null then old(idxs[..k]) + [idx] + old(idxs[k..]) else old(idxs)
      ensures netdev != null ==> netdev in nodes
      ensures forall i | 0 <= i < |nodes| :: nodes[i] in old(nodes) || fresh(nodes[i])
    {
      if !allocates {
        return null;
      }
      netdev := new ListHead(idx);
      Insert(netdev, at, k);
      assert nodes[k] == netdev;
    }

    /**
     * Finds the device with the given index, or links in a new one before the first
     * larger index.  A failed allocation leaves the list alone.
     */
    method GetByIdx(idx: nat, allocate: bool, allocates: bool) returns (netdev: ListHead?)
      requires Valid() && idx < 0x1_0000_0000
      modifies this, head, nodes
      ensures Valid()
      ensures idxs == if allocate && allocates then Added(old(idxs), idx) else old(idxs)
      ensures netdev != null <==> Stops(old(idxs), idx) || (allocate && allocates)
      ensures netdev != null ==> netdev in nodes && netdev.idx == if Stops(old(idxs), idx) then idx else ToInt(idx)
      ensures forall i | 0 <= i < |nodes| :: nodes[i] in old(nodes) || fresh(nodes[i])
    {
      var found, at := Search(idx);
      ghost var k := Stop(idxs, idx);
      if found {
        assert at == nodes[k];
        return at;
      }
      if allocate {
        netdev := NetworkAdd(at, ToInt(idx), allocates, k);
        return;
      }
      netdev := null;
    }

    method RemoveByIdx(idx: nat) returns (removed: bool)
      requires Valid()
      modifies this, head, nodes
      ensures Valid() && idxs == Removed(old(idxs), idx) && (removed <==> idx in old(idxs))
      ensures forall n | n in nodes :: n in old(nodes)
    {
      var cur := head.next;
      ghost var i := 0;
      assert Round()[0].next == Round()[1];
      while cur != head
        invariant i <= |nodes| && cur == Round()[i + 1] && idx !in idxs[..i]
        decreases |nodes| - i
      {
        assert Round()[i + 1].next == Round()[i + 2];
        if cur.idx == idx {
          WhereAt(idxs, idx, i);
          Delete(cur, i);
          return true;
        }
        cur := cur.next;
        i := i + 1;
      }
      WhereAt(idxs, idx, i);
      removed := false;
    }

    /** Unlinks the first device and says which comes next. */
    method FreeFirst(cur: ListHead) returns (next: ListHead)
      requires Valid() && nodes != [] && cur == nodes[0]
      modifies this, head, nodes
      ensures Valid() && nodes == old(nodes[1..]) && next == Round()[1]
    {
      assert Round()[1] == cur && Round()[1].next == Round()[2];
      next := cur.next;
      Delete(cur, 0);
      assert Round() == [head] + nodes + [head];
    }

    lemma FirstOrHead()
      requires Valid()
      ensures head.next == Round()[1] && (nodes == [] <==> Round()[1] == head)
      ensures nodes != [] ==> Round()[1] == nodes[0]
    {
      assert Round()[0].next == Round()[1];
      if nodes != [] { AroundApart(Round(), 0, 1); }
    }

    /** Every device is unlinked once, in order, and the list is empty again. */
    method FreeNetworks() returns (ghost freed: seq<ListHead>)
      requires Valid()
      modifies this, head, nodes
      ensures Valid() && idxs == [] && freed == old(nodes)
    {
      ghost var m := 0;
      FirstOrHead();
      var cur := head.next;
      while cur != head
        invariant Valid() && cur == Round()[1] && m <= |old(nodes)| && nodes == old(nodes)[m..]
        decreases |nodes|
      {
        FirstOrHead();
        assert forall i | 0 <= i < |nodes| :: nodes[i] == old(nodes)[m + i];
        cur := FreeFirst(cur);
        m := m + 1;
      }
      FirstOrHead();
      Emptied();
      head.next, head.prev := head, head;
      freed := old(nodes);
    }

    lemma Emptied()
      requires Valid() && Round()[1] == head
      ensures nodes == [] && head.next == head && head.prev == head
    {
      if nodes != [] {
        AroundApart(Round(), 0, 1);
      }
      assert Round()[0].next == Round()[1];
    }
  }

  lemma StopAt(s: seq<int>, idx: int, k: nat)
    requires k <= |s| && (forall i | 0 <= i < k :: s[i] < idx) && (k < |s| ==> s[k] >= idx)
    ensures Stop(s, idx) == k
  {
  }

  lemma WhereAt(s: seq<int>, idx: int, k: nat)
    requires k <= |s| && idx !in s[..k] && (k < |s| ==> s[k] == idx)
    ensures Where(s, idx) == k && (k < |s| <==> idx in s)
  {
    if k == |s| {
      assert s[..k] == s;
    }
    assert forall i | 0 <= i < k :: s[i] == s[..k][i];
  }
}
