/** The network devices of a container as the sequence of their indices. */
module NetdevSpec {

  /** Conversion of an unsigned int to int, as the call of lxc_network_add() does it. */
  function ToInt(idx: nat): int {
    if idx < 0x8000_0000 then idx else idx - 0x1_0000_0000
  }

  /** Where the search for idx stops: at the first index that is not smaller. */
  function Stop(s: seq<int>, idx: int): (k: nat)
    ensures k <= |s| && (forall i | 0 <= i < k :: s[i] < idx) && (k < |s| ==> s[k] >= idx)
  {
    if s == [] || s[0] >= idx then 0 else 1 + Stop(s[1..], idx)
  }

  predicate Increasing(s: seq<int>) {
    forall i, j | 0 <= i < j < |s| :: s[i] < s[j]
  }

  predicate Stops(s: seq<int>, idx: int) {
    Stop(s, idx) < |s| && s[Stop(s, idx)] == idx
  }

  /** The list after an allocating lookup. */
  function Added(s: seq<int>, idx: nat): seq<int> {
    var k := Stop(s, idx);
    if Stops(s, idx) then s else s[..k] + [ToInt(idx)] + s[k..]
  }

  /** The first position of idx, or the length of the list. */
  function Where(s: seq<int>, idx: int): (k: nat)
    ensures k <= |s| && idx !in s[..k] && (k < |s| ==> s[k] == idx)
  {
    if s == [] || s[0] == idx then 0
    else
      assert s[..1 + Where(s[1..], idx)] == [s[0]] + s[1..][..Where(s[1..], idx)];
      1 + Where(s[1..], idx)
  }

  function Removed(s: seq<int>, idx: nat): seq<int> {
    var k := Where(s, idx);
    if k < |s| then s[..k] + s[k + 1..] else s
  }

  /** The search that gives up at the first larger index misses nothing. */
  lemma EarlyExitFindsExactly(s: seq<int>, idx: int)
    requires Increasing(s)
    ensures Stops(s, idx) <==> idx in s
  {
    var k := Stop(s, idx);
    if idx in s {
      var i :| 0 <= i < |s| && s[i] == idx;
      assert i == k;
    }
  }

  /** Every stored index is an int. */
  predicate Ints(s: seq<int>) {
    forall i | 0 <= i < |s| :: -0x8000_0000 <= s[i] < 0x8000_0000
  }

  lemma AddedInPlace(s: seq<int>, idx: nat)
    requires Increasing(s) && idx < 0x8000_0000
    ensures Increasing(Added(s, idx))
  {
  }

  lemma AddedAtEnd(s: seq<int>, idx: nat)
    requires Increasing(s) && Ints(s) && 0x8000_0000 <= idx < 0x1_0000_0000
    ensures Added(s, idx) == s + [ToInt(idx)]
    ensures Increasing(Added(s, idx)) <==> s == [] || s[|s| - 1] < ToInt(idx)
  {
    var t := s + [ToInt(idx)];
    assert Stop(s, idx) == |s|;
    if s != [] {
      assert t[|s| - 1] == s[|s| - 1] && t[|s|] == ToInt(idx);
    }
  }

  /**
   * An allocating lookup keeps the list in order exactly if the index survives the
   * conversion to int, or all devices had even smaller negative indices.
   */
  lemma AddedKeepsOrderExactlyWhen(s: seq<int>, idx: nat)
    requires Increasing(s) && Ints(s) && idx < 0x1_0000_0000
    ensures Increasing(Added(s, idx)) <==> idx < 0x8000_0000 || s == [] || s[|s| - 1] < ToInt(idx)
    ensures Ints(Added(s, idx))
  {
    if idx < 0x8000_0000 {
      AddedInPlace(s, idx);
    } else {
      AddedAtEnd(s, idx);
    }
  }

  /** The new device is found again exactly if its index survives the conversion. */
  lemma AddedIsFoundExactlyWhen(s: seq<int>, idx: nat)
    requires Increasing(s) && Ints(s) && idx < 0x1_0000_0000
    ensures idx in Added(s, idx) <==> idx < 0x8000_0000
    ensures forall x | x in s :: x in Added(s, idx)
  {
    EarlyExitFindsExactly(s, idx);
    var k := Stop(s, idx);
    if !Stops(s, idx) {
      assert s == s[..k] + s[k..];
      assert Added(s, idx)[k] == ToInt(idx);
    }
  }

  /** One such index: it is stored as a negative one, after a larger one, and not found again. */
  lemma LargeIndexIsLost()
    ensures Added([1], 0x8000_0000) == [1, -0x8000_0000]
    ensures !Increasing(Added([1], 0x8000_0000)) && 0x8000_0000 !in Added([1], 0x8000_0000)
  {
    AddedAtEnd([1], 0x8000_0000);
  }

  /** Removal takes out the index and nothing else, and keeps the order. */
  lemma RemovedIsGone(s: seq<int>, idx: nat)
    requires Increasing(s)
    ensures Increasing(Removed(s, idx)) && idx !in Removed(s, idx)
    ensures forall x | x in s && x != idx :: x in Removed(s, idx)
    ensures |Removed(s, idx)| == |s| - (if idx in s then 1 else 0)
  {
    var k := Where(s, idx);
    if k < |s| {
      WithoutOne(s, k);
    } else {
      assert s[..k] == s;
    }
  }

  lemma WithoutOne(s: seq<int>, k: nat)
    requires Increasing(s) && k < |s|
    ensures var r := s[..k] + s[k + 1..]; Increasing(r) && s[k] !in r && forall x | x in s && x != s[k] :: x in r
  {
    assert s == s[..k] + [s[k]] + s[k + 1..];
  }

  // ---- any sequence of operations ----

  datatype Op = Lookup(idx: nat) | Allocate(idx: nat) | Remove(idx: nat)

  function Apply(s: seq<int>, op: Op): seq<int> {
    match op
    case Lookup(_) => s
    case Allocate(idx) => Added(s, idx)
    case Remove(idx) => Removed(s, idx)
  }

  function Run(s: seq<int>, ops: seq<Op>): seq<int> {
    if ops == [] then s else Apply(Run(s, ops[..|ops| - 1]), ops[|ops| - 1])
  }

  /** Was the last operation on idx that can change its presence an allocation? */
  predicate LastAllocated(ops: seq<Op>, idx: nat) {
    ops != [] &&
    var op, before := ops[|ops| - 1], ops[..|ops| - 1];
    if op == Allocate(idx) then true else if op == Remove(idx) then false else LastAllocated(before, idx)
  }

  lemma {:induction false} AddedKeepsOthers(s: seq<int>, idx: nat, x: int)
    requires x != ToInt(idx)
    ensures x in Added(s, idx) <==> x in s
  {
    var k := Stop(s, idx);
    assert s == s[..k] + s[k..];
  }

  lemma RemovedKeepsOthers(s: seq<int>, idx: nat, x: int)
    requires x != idx
    ensures x in Removed(s, idx) <==> x in s
  {
    var k := Where(s, idx);
    if k < |s| {
      assert s == s[..k] + [s[k]] + s[k + 1..];
    }
  }

  /** One operation keeps the order and changes the presence of its own index only. */
  lemma OpKeeps(s: seq<int>, op: Op)
    requires Increasing(s) && Ints(s) && op.idx < 0x7FFF_FFFF
    ensures Increasing(Apply(s, op)) && Ints(Apply(s, op))
    ensures op.idx in Apply(s, op) <==> if op.Allocate? then true else if op.Remove? then false else op.idx in s
  {
    match op {
      case Lookup(_) =>
      case Allocate(idx) =>
        AddedKeepsOrderExactlyWhen(s, idx);
        AddedIsFoundExactlyWhen(s, idx);
      case Remove(idx) =>
        RemovedIsGone(s, idx);
    }
  }

  lemma OpKeepsOthers(s: seq<int>, op: Op, x: int)
    requires op.idx < 0x7FFF_FFFF && x != op.idx
    ensures x in Apply(s, op) <==> x in s
  {
    AddedKeepsOthers(s, op.idx, x);
    RemovedKeepsOthers(s, op.idx, x);
  }

  /**
   * Over every run of operations with indices below INT_MAX, from an empty list: the
   * list stays in order, and holds exactly the indices allocated and not removed since.
   */
  lemma {:induction false} RunIsASortedSet(ops: seq<Op>)
    requires forall op | op in ops :: op.idx < 0x7FFF_FFFF
    ensures Increasing(Run([], ops)) && Ints(Run([], ops))
    ensures forall x: int :: x in Run([], ops) <==> x >= 0 && LastAllocated(ops, x)
  {
    if ops != [] {
      var before, op := ops[..|ops| - 1], ops[|ops| - 1];
      assert op in ops;
      RunIsASortedSet(before);
      OpKeeps(Run([], before), op);
      forall x: int
        ensures x in Run([], ops) <==> x >= 0 && LastAllocated(ops, x)
      {
        if x != op.idx {
          OpKeepsOthers(Run([], before), op, x);
        }
      }
    }
  }
}
