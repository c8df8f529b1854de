/**
 * nl_msg_to_ifaddr() on the heap: records chained into an output list with a first
 * and a last pointer, and the links among them also into 64 hash buckets by index.
 */
module IfAddrs {
  import opened IfAddrSpec

  const HASH_SIZE: nat := 64

  /** Position of the latest link before n in the given bucket, or -1. */
  function LatestIn(log: seq<Record>, n: nat, bucket: nat): (k: int)
    requires n <= |log|
    ensures -1 <= k < n
    ensures k >= 0 ==> log[k].link && log[k].index % HASH_SIZE == bucket
  {
    if n == 0 then -1
    else if log[n - 1].link && log[n - 1].index % HASH_SIZE == bucket then n - 1
    else LatestIn(log, n - 1, bucket)
  }

  lemma {:induction false} LatestInStable(log: seq<Record>, more: seq<Record>, n: nat, bucket: nat)
    requires n <= |log|
    ensures LatestIn(log + more, n, bucket) == LatestIn(log, n, bucket)
  {
    if n > 0 {
      LatestInStable(log, more, n - 1, bucket);
    }
  }

  /** Only links of its own bucket can have an index. */
  lemma {:induction false} LatestIsInBucket(log: seq<Record>, n: nat, index: nat)
    requires n <= |log|
    ensures Latest(log, n, index) == Latest(log, LatestIn(log, n, index % HASH_SIZE) + 1, index)
  {
    if n > 0 && LatestIn(log, n, index % HASH_SIZE) != n - 1 {
      LatestIsInBucket(log, n - 1, index);
    }
  }

  // ---- hash chains as sequences of positions ----

  /** The positions met from k on, each followed by the latest link of the bucket before it. */
  function ChainFrom(log: seq<Record>, k: int, bucket: nat): seq<nat>
    requires -1 <= k < |log|
    decreases k + 1
  {
    if k < 0 then [] else [k] + ChainFrom(log, LatestIn(log, k, bucket), bucket)
  }

  /** All links of the bucket before n, newest first. */
  function NewestFirst(log: seq<Record>, n: nat, bucket: nat): seq<nat>
    requires n <= |log|
  {
    if n == 0 then []
    else if log[n - 1].link && log[n - 1].index % HASH_SIZE == bucket then [n - 1] + NewestFirst(log, n - 1, bucket)
    else NewestFirst(log, n - 1, bucket)
  }

  lemma {:induction false} ChainIsNewestFirst(log: seq<Record>, n: nat, bucket: nat)
    requires n <= |log|
    ensures ChainFrom(log, LatestIn(log, n, bucket), bucket) == NewestFirst(log, n, bucket)
  {
    if n > 0 {
      ChainIsNewestFirst(log, n - 1, bucket);
    }
  }

  // ---- one record ----

  /** nameFrom is the record whose buffer the name pointer points into. */
  class Storage {
    var next: Storage?
    var hashNext: Storage?
    var index: nat
    var name: Bytes
    var nameFrom: Storage?
    var ifa: Ifa

    /** calloc() */
    constructor ()
      ensures next == null && hashNext == null && index == 0 && nameFrom == null
      ensures name == NoName() && ifa == Ifa(0, 0, 0, 0, NO_SLOT, NO_SLOT, NO_SLOT)
    {
      next, hashNext, index, nameFrom := null, null, 0, null;
      name, ifa := NoName(), Ifa(0, 0, 0, 0, NO_SLOT, NO_SLOT, NO_SLOT);
    }

    function View(aware: bool): Part
      reads this
    {
      Part(nameFrom == this, name, ifa, aware)
    }

    method FillLink(m: Message) returns (aware: bool)
      requires m.Link? && nameFrom == null && name == NoName()
      requires ifa == Ifa(0, 0, 0, 0, NO_SLOT, NO_SLOT, NO_SLOT)
      modifies this
      ensures View(aware) == ReadLink(m, |m.linkAttrs|)
      ensures index == m.index && unchanged(`next, `hashNext) && (nameFrom == null || nameFrom == this)
    {
      index := m.index;
      ifa := ifa.(ifindex := m.index, flags := m.flags);
      aware := false;
      for i := 0 to |m.linkAttrs|
        modifies `name, `nameFrom, `ifa
        invariant View(aware) == ReadLink(m, i)
        invariant nameFrom == null || nameFrom == this
      {
        match m.linkAttrs[i] {
          case IfName(d) =>
            if |d| < NAME_SIZE {
              name := d + name[|d|..];
              nameFrom := this;
            }
          case LlAddress(d) =>
            ifa := ifa.(addr := CopyLladdr(ifa.addr, d, m.index, m.hatype));
          case LlBroadcast(d) =>
            ifa := ifa.(ifu := CopyLladdr(ifa.ifu, d, m.index, m.hatype));
          case Mtu(v) =>
            ifa := ifa.(mtu := v);
          case LinkNetnsid =>
            aware := true;
          case OtherLinkAttr =>
        }
      }
    }

    method FillAddr(m: Message, ifs0: Storage) returns (aware: bool)
      requires m.Addr? && ifs0 != this && name == NoName()
      requires ifa == Ifa(0, 0, 0, 0, NO_SLOT, NO_SLOT, NO_SLOT)
      requires ifs0.nameFrom != null && ifs0.nameFrom != this
      modifies this
      ensures View(aware).(ifa := ReadAddr(m, ifs0.ifa, |m.addrAttrs|).ifa) == ReadAddr(m, ifs0.ifa, |m.addrAttrs|)
      ensures ifa == WithNetmask(ReadAddr(m, ifs0.ifa, |m.addrAttrs|).ifa, m)
      ensures nameFrom == this || nameFrom == ifs0.nameFrom
      ensures unchanged(`next, `hashNext, `index)
    {
      nameFrom := ifs0.nameFrom;
      ifa := ifa.(mtu := ifs0.ifa.mtu);
      ifa := ifa.(ifindex := ifs0.ifa.ifindex);
      ifa := ifa.(flags := ifs0.ifa.flags);
      aware := false;
      for i := 0 to |m.addrAttrs|
        modifies `name, `nameFrom, `ifa
        invariant View(aware) == ReadAddr(m, ifs0.ifa, i)
        invariant nameFrom == this || nameFrom == ifs0.nameFrom
      {
        match m.addrAttrs[i] {
          case Address(d) =>
            if ifa.addr.used {
              ifa := ifa.(ifu := CopyAddr(ifa.ifu, m.family, d, m.index));
            } else {
              ifa := ifa.(addr := CopyAddr(ifa.addr, m.family, d, m.index));
            }
          case Broadcast(d) =>
            ifa := ifa.(ifu := CopyAddr(ifa.ifu, m.family, d, m.index));
          case Local(d) =>
            if ifa.addr.used {
              ifa := ifa.(ifu := Slot(true, ifa.addr.sock));
              ifa := ifa.(addr := Slot(true, NO_SOCK));
            }
            ifa := ifa.(addr := CopyAddr(ifa.addr, m.family, d, m.index));
          case Label(d) =>
            if |d| < NAME_SIZE {
              name := d + name[|d|..];
              nameFrom := this;
            }
          case AddrNetnsid =>
            aware := true;
          case OtherAddrAttr =>
        }
      }
      if ifa.addr.used {
        var mask := GenNetmask(m.prefixlen);
        ifa := ifa.(netmask := CopyAddr(ifa.netmask, m.family, mask, 0));
        ifa := ifa.(prefixlen := m.prefixlen);
      }
    }
  }

  method GenNetmask(prefixLength: nat) returns (mask: Bytes)
    ensures mask == Mask(prefixLength)
  {
    var prefixlen := prefixLength;
    if prefixlen > 128 {
      prefixlen := 128;
    }
    var addr := new bv8[16](_ => 0);
    var i := prefixlen / 8;
    for k := 0 to i
      invariant forall l | 0 <= l < 16 :: addr[l] == if l < k then 0xff else 0
    {
      addr[k] := 0xff;
    }
    if i < 16 {
      addr[i] := 0xff << (8 - prefixlen % 8);
    }
    mask := addr[..];
  }

  // ---- all records ----

  class Ctx {
    var first: Storage?
    var last: Storage?
    const hash: array<Storage?>
    ghost var list: seq<Storage>
    ghost var log: seq<Record>

    ghost function At(k: int): Storage?
      reads this
    {
      if 0 <= k < |list| then list[k] else null
    }

    ghost predicate Shape()
      reads this
    {
      hash.Length == HASH_SIZE && |list| == |log| && forall i, j | 0 <= i < j < |list| :: list[i] != list[j]
    }

    ghost predicate Linked()
      reads this, list
    {
      && first == At(0) && last == At(|list| - 1) && (last != null ==> last.next == null)
      && forall i, j | 0 <= i < j < |list| && j == i + 1 :: list[i].next == list[j]
    }

    /** A link leads on to the latest link of its bucket before it. */
    ghost predicate Chained(i: nat)
      requires i < |log| && i < |list|
      reads this, list
    {
      log[i].link ==> list[i].hashNext == At(LatestIn(log, i, log[i].index % HASH_SIZE))
    }

    ghost predicate Hashed()
      requires Shape()
      reads this, hash, list
    {
      && (forall b | 0 <= b < HASH_SIZE :: hash[b] == At(LatestIn(log, |log|, b)))
      && forall i | 0 <= i < |list| :: Chained(i)
    }

    /** The record at place i is the heap's record there, with a name that stays. */
    ghost predicate HoldsAt(i: nat)
      requires i < |log| && i < |list|
      reads this, list
    {
      HoldsRecord(list[i], log[i])
    }

    ghost predicate HoldsRecord(ifs: Storage, r: Record)
      reads this, list, ifs
    {
      && ifs.ifa == r.ifa && (r.link ==> ifs.index == r.index)
      && ifs.nameFrom != null && ifs.nameFrom in list && ifs.nameFrom.name == r.name
    }

    ghost predicate Holds()
      requires Shape()
      reads this, list
    {
      forall i | 0 <= i < |list| :: HoldsAt(i)
    }

    ghost predicate Valid()
      reads this, hash, list
    {
      Shape() && Linked() && Hashed() && Holds()
    }

    constructor ()
      ensures Valid() && log == [] && list == [] && fresh(hash)
    {
      first, last, list, log := null, null, [], [];
      hash := new Storage?[HASH_SIZE](_ => null);
    }

    /** The search in the hash chain finds what a search of the whole list would. */
    method Lookup(index: nat) returns (ifs0: Storage?)
      requires Valid()
      ensures ifs0 == At(Latest(log, |log|, index))
    {
      ifs0 := hash[index % HASH_SIZE];
      ghost var k := LatestIn(log, |log|, index % HASH_SIZE);
      LatestIsInBucket(log, |log|, index);
      while ifs0 != null && ifs0.index != index
        invariant -1 <= k < |log| && ifs0 == At(k)
        invariant k >= 0 ==> log[k].link && log[k].index % HASH_SIZE == index % HASH_SIZE
        invariant Latest(log, |log|, index) == Latest(log, k + 1, index)
        invariant k >= 0 ==> HoldsAt(k)
        decreases k
      {
        assert Chained(k) && HoldsAt(k);
        LatestIsInBucket(log, k, index);
        ifs0 := ifs0.hashNext;
        k := LatestIn(log, k, index % HASH_SIZE);
      }
    }

    method Insert(ifs: Storage)
      requires hash.Length == HASH_SIZE
      modifies ifs`hashNext, hash
      ensures ifs.hashNext == old(hash[ifs.index % HASH_SIZE])
      ensures hash[..] == old(hash[..])[ifs.index % HASH_SIZE := ifs]
    {
      var bucket := ifs.index % HASH_SIZE;
      ifs.hashNext := hash[bucket];
      hash[bucket] := ifs;
    }

    method Append(ifs: Storage)
      requires Shape() && Linked() && ifs !in list && ifs.next == null
      modifies this, list`next
      ensures list == old(list) + [ifs] && log == old(log)
      ensures Linked() && forall s | s in old(list) && s != old(last) :: s.next == old(s.next)
    {
      if first == null {
        first := ifs;
      }
      if last != null {
        last.next := ifs;
      }
      last := ifs;
      list := list + [ifs];
    }

    /** The buckets as they are when a new record is about to be appended. */
    ghost predicate Ready(ifs: Storage, r: Record)
      requires hash.Length == HASH_SIZE
      reads this, hash, ifs
    {
      && (forall b | 0 <= b < HASH_SIZE ::
            hash[b] == if r.link && b == r.index % HASH_SIZE then ifs else At(LatestIn(log, |log|, b)))
      && (r.link ==> ifs.index == r.index && ifs.hashNext == At(LatestIn(log, |log|, r.index % HASH_SIZE)))
    }

    ghost predicate Fits(ifs: Storage, r: Record)
      reads this, ifs, ifs.nameFrom
    {
      && ifs !in list && ifs.next == null && ifs.ifa == r.ifa
      && ifs.nameFrom != null && (ifs.nameFrom == ifs || ifs.nameFrom in list) && ifs.nameFrom.name == r.name
    }

    method Publish(ifs: Storage, ghost r: Record)
      requires Shape() && Linked() && Holds() && (forall i | 0 <= i < |list| :: Chained(i))
      requires Ready(ifs, r) && Fits(ifs, r)
      modifies this, list`next
      ensures Valid() && list == old(list) + [ifs] && log == old(log) + [r]
    {
      ghost var n := |list|;
      assert forall i | 0 <= i < n :: Chained(i) && HoldsAt(i);
      Append(ifs);
      forall i | 0 <= i < n
        ensures Chained(i) && HoldsAt(i)
      {
        assert old(Chained(i) && HoldsAt(i));
      }
      Register(ifs, r);
    }

    /** The record at the end of the list is what the message stands for. */
    ghost method Register(ifs: Storage, r: Record)
      requires hash.Length == HASH_SIZE && |list| == |log| + 1 && list[|log|] == ifs
      requires (forall i, j | 0 <= i < j < |list| :: list[i] != list[j]) && Linked()
      requires forall i | 0 <= i < |log| :: Chained(i) && HoldsAt(i)
      requires Ready(ifs, r) && HoldsRecord(ifs, r)
      modifies `log
      ensures Valid() && log == old(log) + [r]
    {
      ghost var n, before := |log|, log;
      log := log + [r];
      forall b | 0 <= b < HASH_SIZE
        ensures hash[b] == At(LatestIn(log, |log|, b))
      {
        LatestInStable(before, [r], n, b);
      }
      forall i | 0 <= i < |list|
        ensures Chained(i)
      {
        LatestInStable(before, [r], i, log[i].index % HASH_SIZE);
        assert i < n ==> old(Chained(i));
      }
      forall i | 0 <= i < |list|
        ensures HoldsAt(i)
      {
        assert i < n ==> old(HoldsAt(i));
      }
    }

    /** A link enters the head of its bucket; nothing else changes. */
    method Enter(ifs: Storage, ghost r: Record)
      requires Valid() && ifs !in list && r.link && ifs.index == r.index
      modifies ifs`hashNext, hash
      ensures Shape() && Linked() && Holds() && (forall i | 0 <= i < |list| :: Chained(i)) && Ready(ifs, r)
    {
      assert forall i | 0 <= i < |list| :: Chained(i) && HoldsAt(i);
      Insert(ifs);
      forall i | 0 <= i < |list|
        ensures Chained(i) && HoldsAt(i)
      {
        assert old(Chained(i) && HoldsAt(i)) && list[i] != ifs;
      }
    }

    /** A record of its own, not yet in any list. */
    method NewLink(m: Message) returns (ifs: Storage, aware: bool)
      requires m.Link?
      ensures fresh(ifs) && ifs.next == null && ifs.index == m.index
      ensures ifs.View(aware) == ReadLink(m, |m.linkAttrs|) && (ifs.nameFrom == null || ifs.nameFrom == ifs)
    {
      ifs := new Storage();
      aware := ifs.FillLink(m);
    }

    method NewAddr(m: Message, ifs0: Storage) returns (ifs: Storage, aware: bool)
      requires m.Addr? && ifs0.nameFrom != null
      ensures fresh(ifs) && ifs.next == null && (ifs.nameFrom == ifs || ifs.nameFrom == ifs0.nameFrom)
      ensures var p := ReadAddr(m, ifs0.ifa, |m.addrAttrs|);
        (ifs.nameFrom == ifs <==> p.named) && ifs.name == p.name && aware == p.aware && ifs.ifa == WithNetmask(p.ifa, m)
    {
      ifs := new Storage();
      aware := ifs.FillAddr(m, ifs0);
    }

    method TakeLink(m: Message) returns (aware: bool)
      requires Valid() && m.Link?
      modifies this, hash, list`next
      ensures Valid() && log == Apply(old(log), m) && aware == Aware(old(log), m)
      ensures old(list) <= list && forall i | |old(list)| <= i < |list| :: fresh(list[i])
    {
      var ifs;
      ifs, aware := NewLink(m);
      if ifs.nameFrom != null {
        Enter(ifs, LinkRecord(m));
        Publish(ifs, LinkRecord(m));
      }
    }

    method TakeAddr(m: Message, ifs0: Storage) returns (aware: bool)
      requires Valid() && m.Addr?
      requires Latest(log, |log|, m.index) >= 0 && ifs0 == list[Latest(log, |log|, m.index)]
      modifies this, list`next
      ensures Valid() && log == Apply(old(log), m) && aware == Aware(old(log), m)
      ensures old(list) <= list && forall i | |old(list)| <= i < |list| :: fresh(list[i])
    {
      ghost var k := Latest(log, |log|, m.index);
      assert HoldsAt(k);
      var ifs;
      ifs, aware := NewAddr(m, ifs0);
      assert forall i | 0 <= i < |list| :: Chained(i) && HoldsAt(i);
      Publish(ifs, AddrRecord(m, log[k]));
    }

    /**
     * Takes in one message.  The list then holds the records that the messages so far
     * stand for; a failed allocation changes nothing.
     */
    method Receive(m: Message, allocates: bool) returns (ret: int, aware: bool)
      requires Valid()
      modifies this, hash, list`next
      ensures Valid()
      ensures ret == if !allocates && (m.Link? || Latest(old(log), |old(log)|, m.index) >= 0) then -1 else 0
      ensures log == if ret == 0 then Apply(old(log), m) else old(log)
      ensures aware == (ret == 0 && Aware(old(log), m))
      ensures old(list) <= list && forall i | |old(list)| <= i < |list| :: fresh(list[i])
    {
      var ifs0: Storage? := null;
      if m.Addr? {
        ifs0 := Lookup(m.index);
        if ifs0 == null {
          return 0, false;
        }
      }
      if !allocates {
        return -1, false;
      }
      if m.Link? {
        aware := TakeLink(m);
      } else {
        aware := TakeAddr(m, ifs0);
      }
      ret := 0;
    }

    /** A whole dump, ended early by a failed allocation. */
    method ReceiveAll(msgs: seq<Message>, allocates: seq<bool>) returns (n: nat)
      requires Valid() && log == [] && |allocates| == |msgs|
      modifies this, hash
      ensures Valid() && n <= |msgs| && log == Outputs(msgs[..n])
      ensures (forall b | b in allocates :: b) ==> n == |msgs|
    {
      n := 0;
      while n < |msgs|
        invariant n <= |msgs| && Valid() && log == Dump(msgs[..n])
        invariant forall i | 0 <= i < |list| :: fresh(list[i])
      {
        var ret, aware := Receive(msgs[n], allocates[n]);
        if ret != 0 {
          assert !allocates[n] && allocates[n] in allocates;
          break;
        }
        assert msgs[..n + 1][..n] == msgs[..n];
        n := n + 1;
      }
      DumpFollowsMessages(msgs[..n]);
    }
  }
}
