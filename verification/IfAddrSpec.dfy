/**
 * What a dump of RTM_NEWLINK and RTM_NEWADDR messages means: the list of interface
 * records that nl_msg_to_ifaddr() builds, one message at a time.  The attributes of
 * a message are given already cut apart.
 */
module IfAddrSpec {
  const NAME_SIZE: nat := 17    // IFNAMSIZ + 1
  const LL_SIZE: nat := 24      // sll_addr of sockaddr_ll_hack
  const AF_INET := 2
  const AF_INET6 := 10
  const AF_PACKET := 17

  type Bytes = seq<bv8>

  /** A socket address; index is the scope id or the interface index. */
  datatype Sock = Sock(family: int, bytes: Bytes, index: int, hatype: int)

  /** Storage for an address with the pointer to it, which is null until used. */
  datatype Slot = Slot(used: bool, sock: Sock)

  /** ifu holds the broadcast or the destination address: they share storage. */
  datatype Ifa = Ifa(ifindex: int, flags: int, mtu: int, prefixlen: int, addr: Slot, ifu: Slot, netmask: Slot)

  datatype LinkAttr =
    | IfName(data: Bytes) | LlAddress(data: Bytes) | LlBroadcast(data: Bytes)
    | Mtu(value: int) | LinkNetnsid | OtherLinkAttr

  datatype AddrAttr =
    | Address(data: Bytes) | Broadcast(data: Bytes) | Local(data: Bytes)
    | Label(data: Bytes) | AddrNetnsid | OtherAddrAttr

  datatype Message =
    | Link(index: nat, flags: int, hatype: int, linkAttrs: seq<LinkAttr>)
    | Addr(index: nat, family: int, prefixlen: nat, addrAttrs: seq<AddrAttr>)

  /** A record under construction; named means that its own name buffer is in use. */
  datatype Part = Part(named: bool, name: Bytes, ifa: Ifa, aware: bool)

  /** A finished record; only links carry their index. */
  datatype Record = Record(link: bool, index: nat, name: Bytes, ifa: Ifa)

  const NO_SOCK := Sock(0, [], 0, 0)
  const NO_SLOT := Slot(false, NO_SOCK)

  function NoName(): Bytes {
    seq(NAME_SIZE, _ => 0)
  }

  /** Copies over the start of the buffer, as memcpy() does. */
  function Overlay(buffer: Bytes, data: Bytes): Bytes
    requires |data| <= |buffer|
  {
    data + buffer[|data|..]
  }

  // ---- addresses ----

  predicate LinkLocal(a: Bytes) {
    |a| >= 2 && ((a[0] == 0xfe && a[1] & 0xc0 == 0x80) || (a[0] == 0xff && a[1] & 0xf == 2))
  }

  function AddrLen(family: int): nat {
    if family == AF_INET then 4 else if family == AF_INET6 then 16 else 0
  }

  function CopyAddr(s: Slot, family: int, data: Bytes, index: int): Slot {
    if family != AF_INET && family != AF_INET6 then
      s
    else
      var sock := if family == AF_INET6 && LinkLocal(data) then s.sock.(index := index) else s.sock;
      if |data| < AddrLen(family) then
        Slot(s.used, sock)
      else
        Slot(true, sock.(family := family, bytes := data[..AddrLen(family)]))
  }

  function CopyLladdr(s: Slot, data: Bytes, ifindex: int, hatype: int): Slot {
    if |data| > LL_SIZE then s else Slot(true, Sock(AF_PACKET, data, ifindex, hatype))
  }

  // ---- the attributes of one message ----

  function StartLink(m: Message): Part
    requires m.Link?
  {
    Part(false, NoName(), Ifa(m.index, m.flags, 0, 0, NO_SLOT, NO_SLOT, NO_SLOT), false)
  }

  function ReadLinkAttr(p: Part, m: Message, a: LinkAttr): Part
    requires m.Link? && |p.name| == NAME_SIZE
  {
    match a
    case IfName(d) => if |d| < NAME_SIZE then p.(named := true, name := Overlay(p.name, d)) else p
    case LlAddress(d) => p.(ifa := p.ifa.(addr := CopyLladdr(p.ifa.addr, d, m.index, m.hatype)))
    case LlBroadcast(d) => p.(ifa := p.ifa.(ifu := CopyLladdr(p.ifa.ifu, d, m.index, m.hatype)))
    case Mtu(v) => p.(ifa := p.ifa.(mtu := v))
    case LinkNetnsid => p.(aware := true)
    case OtherLinkAttr => p
  }

  function ReadLink(m: Message, n: nat): (p: Part)
    requires m.Link? && n <= |m.linkAttrs|
    ensures |p.name| == NAME_SIZE && p.ifa.ifindex == m.index && p.ifa.flags == m.flags
  {
    if n == 0 then StartLink(m) else ReadLinkAttr(ReadLink(m, n - 1), m, m.linkAttrs[n - 1])
  }

  function StartAddr(link: Ifa): Part {
    Part(false, NoName(), Ifa(link.ifindex, link.flags, link.mtu, 0, NO_SLOT, NO_SLOT, NO_SLOT), false)
  }

  /** An address that meets a local one already there is the other end of the link, and the reverse. */
  function ReadAddrAttr(p: Part, m: Message, a: AddrAttr): Part
    requires m.Addr? && |p.name| == NAME_SIZE
  {
    match a
    case Address(d) =>
      if p.ifa.addr.used then
        p.(ifa := p.ifa.(ifu := CopyAddr(p.ifa.ifu, m.family, d, m.index)))
      else
        p.(ifa := p.ifa.(addr := CopyAddr(p.ifa.addr, m.family, d, m.index)))
    case Broadcast(d) => p.(ifa := p.ifa.(ifu := CopyAddr(p.ifa.ifu, m.family, d, m.index)))
    case Local(d) =>
      var moved := if p.ifa.addr.used then p.ifa.(ifu := Slot(true, p.ifa.addr.sock), addr := Slot(true, NO_SOCK))
                   else p.ifa;
      p.(ifa := moved.(addr := CopyAddr(moved.addr, m.family, d, m.index)))
    case Label(d) => if |d| < NAME_SIZE then p.(named := true, name := Overlay(p.name, d)) else p
    case AddrNetnsid => p.(aware := true)
    case OtherAddrAttr => p
  }

  function ReadAddr(m: Message, link: Ifa, n: nat): (p: Part)
    requires m.Addr? && n <= |m.addrAttrs|
    ensures |p.name| == NAME_SIZE
    ensures p.ifa.ifindex == link.ifindex && p.ifa.flags == link.flags && p.ifa.mtu == link.mtu
  {
    if n == 0 then StartAddr(link) else ReadAddrAttr(ReadAddr(m, link, n - 1), m, m.addrAttrs[n - 1])
  }

  // ---- the netmask ----

  /** Bit j of the mask, counted from the most significant bit of its first byte. */
  predicate MaskBit(mask: Bytes, j: nat)
    requires j / 8 < |mask|
  {
    (mask[j / 8] << (j % 8)) & 0x80 == 0x80
  }

  function MaskByte(prefixlen: nat, k: nat): bv8 {
    if prefixlen >= 8 * k + 8 then 0xff
    else if prefixlen <= 8 * k then 0
    else 0xff << (8 - prefixlen % 8)
  }

  function Mask(prefixlen: nat): (mask: Bytes)
    ensures |mask| == 16
  {
    seq(16, k requires k >= 0 => MaskByte(prefixlen, k))
  }

  function WithNetmask(ifa: Ifa, m: Message): Ifa
    requires m.Addr?
  {
    if ifa.addr.used then
      ifa.(netmask := CopyAddr(ifa.netmask, m.family, Mask(m.prefixlen), 0), prefixlen := m.prefixlen)
    else
      ifa
  }

  // ---- the list of records ----

  /** Position of the latest record before n that is a link with this index, or -1. */
  function Latest(log: seq<Record>, n: nat, index: nat): (k: int)
    requires n <= |log|
    ensures -1 <= k < n
    ensures k >= 0 ==> log[k].link && log[k].index == index
  {
    if n == 0 then -1
    else if log[n - 1].link && log[n - 1].index == index then n - 1
    else Latest(log, n - 1, index)
  }

  function LinkRecord(m: Message): Record
    requires m.Link?
  {
    var p := ReadLink(m, |m.linkAttrs|);
    Record(true, m.index, p.name, p.ifa)
  }

  predicate Named(m: Message)
    requires m.Link?
  {
    ReadLink(m, |m.linkAttrs|).named
  }

  /** An address takes over what its link says, and the link's name unless it has a label. */
  function AddrRecord(m: Message, link: Record): Record
    requires m.Addr?
  {
    var p := ReadAddr(m, link.ifa, |m.addrAttrs|);
    Record(false, 0, if p.named then p.name else link.name, WithNetmask(p.ifa, m))
  }

  function Apply(log: seq<Record>, m: Message): seq<Record> {
    match m
    case Link(_, _, _, _) => if Named(m) then log + [LinkRecord(m)] else log
    case Addr(index, _, _, _) =>
      var k := Latest(log, |log|, index);
      if k < 0 then log else log + [AddrRecord(m, log[k])]
  }

  /** Does the message show that the kernel knows about target network namespaces? */
  predicate Aware(log: seq<Record>, m: Message) {
    match m
    case Link(_, _, _, attrs) => ReadLink(m, |attrs|).aware
    case Addr(index, _, _, attrs) =>
      var k := Latest(log, |log|, index);
      k >= 0 && ReadAddr(m, log[k].ifa, |attrs|).aware
  }

  function Dump(msgs: seq<Message>): seq<Record> {
    if msgs == [] then [] else Apply(Dump(msgs[..|msgs| - 1]), msgs[|msgs| - 1])
  }

  // ---- the same list, told from the messages alone ----

  /** Position of the latest named link message with this index, or -1. */
  function LatestLink(msgs: seq<Message>, index: nat): (k: int)
    ensures -1 <= k < |msgs|
    ensures k >= 0 ==> msgs[k].Link? && Named(msgs[k]) && msgs[k].index == index
  {
    if msgs == [] then -1
    else
      var m := msgs[|msgs| - 1];
      if m.Link? && Named(m) && m.index == index then |msgs| - 1 else LatestLink(msgs[..|msgs| - 1], index)
  }

  /** What a message adds: a record exactly if it is a named link or the address of a known link. */
  function Output(before: seq<Message>, m: Message): seq<Record> {
    match m
    case Link(_, _, _, _) => if Named(m) then [LinkRecord(m)] else []
    case Addr(index, _, _, _) =>
      var k := LatestLink(before, index);
      if k < 0 then [] else [AddrRecord(m, LinkRecord(before[k]))]
  }

  function Outputs(msgs: seq<Message>): seq<Record> {
    if msgs == [] then []
    else Outputs(msgs[..|msgs| - 1]) + Output(msgs[..|msgs| - 1], msgs[|msgs| - 1])
  }

  lemma {:induction false} LatestStable(log: seq<Record>, more: seq<Record>, n: nat, index: nat)
    requires n <= |log|
    ensures Latest(log + more, n, index) == Latest(log, n, index)
  {
    if n > 0 {
      LatestStable(log, more, n - 1, index);
    }
  }

  /** A message makes its own record the latest, if it is a named link of that index, and no other. */
  lemma ApplyKeepsLatest(log: seq<Record>, m: Message, index: nat)
    ensures var after := Apply(log, m);
      && log <= after
      && Latest(after, |after|, index) ==
         if m.Link? && Named(m) && m.index == index then |log| else Latest(log, |log|, index)
  {
    var after := Apply(log, m);
    if after != log {
      LatestStable(log, [after[|log|]], |log|, index);
      assert after == log + [after[|log|]];
    }
  }

  /** The latest link in the list comes from the latest link among the messages. */
  lemma {:induction false} LatestRecordIsLatestLink(msgs: seq<Message>, index: nat)
    ensures var k, j := Latest(Dump(msgs), |Dump(msgs)|, index), LatestLink(msgs, index);
      if j < 0 then k < 0 else k >= 0 && Dump(msgs)[k] == LinkRecord(msgs[j])
  {
    if msgs != [] {
      var front, m := msgs[..|msgs| - 1], msgs[|msgs| - 1];
      LatestRecordIsLatestLink(front, index);
      ApplyKeepsLatest(Dump(front), m, index);
    }
  }

  /**
   * Every dump, whatever its messages: the records come in the order of the messages,
   * an address of an unknown index leaves none, and every other address takes over
   * from the latest link message with its index.
   */
  lemma {:induction false} DumpFollowsMessages(msgs: seq<Message>)
    ensures Dump(msgs) == Outputs(msgs)
  {
    if msgs != [] {
      var front, m := msgs[..|msgs| - 1], msgs[|msgs| - 1];
      DumpFollowsMessages(front);
      if m.Addr? {
        LatestRecordIsLatestLink(front, m.index);
      }
    }
  }

  /** What an address record shows of its link. */
  lemma AddressInherits(before: seq<Message>, m: Message)
    requires m.Addr?
    ensures var k := LatestLink(before, m.index);
      if k < 0 then Output(before, m) == []
      else
        && |Output(before, m)| == 1
        && var r, l := Output(before, m)[0], LinkRecord(before[k]);
           && r.ifa.flags == before[k].flags && r.ifa.ifindex == m.index && r.ifa.mtu == l.ifa.mtu
           && ((forall a | a in m.addrAttrs :: !a.Label?) ==> r.name == l.name)
  {
    var k := LatestLink(before, m.index);
    if k >= 0 && forall a | a in m.addrAttrs :: !a.Label? {
      NoLabelNoName(m, LinkRecord(before[k]).ifa, |m.addrAttrs|);
    }
  }

  lemma {:induction false} NoLabelNoName(m: Message, link: Ifa, n: nat)
    requires m.Addr? && n <= |m.addrAttrs|
    requires forall a | a in m.addrAttrs :: !a.Label?
    ensures !ReadAddr(m, link, n).named
  {
    if n > 0 {
      NoLabelNoName(m, link, n - 1);
      assert m.addrAttrs[n - 1] in m.addrAttrs;
    }
  }

  // ---- local and destination address ----

  predicate Places(a: AddrAttr) {
    a.Address? || a.Broadcast? || a.Local?
  }

  /** The attributes that place an address, among the first n, in order. */
  function Placing(attrs: seq<AddrAttr>, n: nat): seq<AddrAttr>
    requires n <= |attrs|
  {
    if n == 0 then [] else Placing(attrs, n - 1) + (if Places(attrs[n - 1]) then [attrs[n - 1]] else [])
  }

  function Ends(p: Part): (Slot, Slot) {
    (p.ifa.addr, p.ifa.ifu)
  }

  /** Reading a sequence of attributes from an empty record. */
  function ReadAll(m: Message, link: Ifa, attrs: seq<AddrAttr>): (p: Part)
    requires m.Addr?
    ensures |p.name| == NAME_SIZE
  {
    if attrs == [] then StartAddr(link)
    else ReadAddrAttr(ReadAll(m, link, attrs[..|attrs| - 1]), m, attrs[|attrs| - 1])
  }

  lemma {:induction false} OnlyPlacingMatters(m: Message, link: Ifa, n: nat)
    requires m.Addr? && n <= |m.addrAttrs|
    ensures Ends(ReadAddr(m, link, n)) == Ends(ReadAll(m, link, Placing(m.addrAttrs, n)))
  {
    if n > 0 {
      OnlyPlacingMatters(m, link, n - 1);
      var a, before := m.addrAttrs[n - 1], Placing(m.addrAttrs, n - 1);
      if Places(a) {
        assert (before + [a])[..|before|] == before;
        PlacesAlike(ReadAddr(m, link, n - 1), ReadAll(m, link, before), m, a);
      } else {
        assert Placing(m.addrAttrs, n) == before + [] == before;
        PlacesNothing(ReadAddr(m, link, n - 1), m, a);
      }
    }
  }

  lemma PlacesNothing(p: Part, m: Message, a: AddrAttr)
    requires m.Addr? && |p.name| == NAME_SIZE && !Places(a)
    ensures Ends(ReadAddrAttr(p, m, a)) == Ends(p)
  {
  }

  lemma PlacesAlike(p: Part, q: Part, m: Message, a: AddrAttr)
    requires m.Addr? && |p.name| == |q.name| == NAME_SIZE && Ends(p) == Ends(q)
    ensures Ends(ReadAddrAttr(p, m, a)) == Ends(ReadAddrAttr(q, m, a))
  {
  }

  /** What a reader of the record sees of a slot: nothing unless the pointer is set. */
  function Seen(s: Slot): Slot {
    if s.used then s else NO_SLOT
  }

  function EndsSeen(m: Message, link: Ifa): (Slot, Slot)
    requires m.Addr?
  {
    var p := ReadAddr(m, link, |m.addrAttrs|);
    (Seen(p.ifa.addr), Seen(p.ifa.ifu))
  }

  /**
   * The orders that matter: a local address cut short after a whole one empties the
   * record's address, and the scope of an address cut short stays behind.
   */
  predicate OrderMatters(family: int, index: int, address: Bytes, local: Bytes) {
    var len := AddrLen(family);
    || |address| >= len > |local|
    || (family == AF_INET6 && index != 0 && |local| >= len > |address| && LinkLocal(address) && !LinkLocal(local))
  }

  lemma ReadTwo(m: Message, link: Ifa, a: AddrAttr, b: AddrAttr)
    requires m.Addr?
    ensures ReadAll(m, link, [a, b]) == ReadAddrAttr(ReadAddrAttr(StartAddr(link), m, a), m, b)
  {
    assert [a, b][..1] == [a] && [a][..0] == [];
    assert ReadAll(m, link, [a]) == ReadAddrAttr(ReadAll(m, link, []), m, a);
  }

  /**
   * One address and one local address, among any other attributes that place none:
   * their order makes a difference exactly when OrderMatters says so.
   */
  lemma SwapChangesExactlyWhen(m: Message, n: Message, link: Ifa, address: Bytes, local: Bytes)
    requires m.Addr? && n.Addr? && m.family == n.family && m.index == n.index
    requires Placing(m.addrAttrs, |m.addrAttrs|) == [Address(address), Local(local)]
    requires Placing(n.addrAttrs, |n.addrAttrs|) == [Local(local), Address(address)]
    ensures EndsSeen(m, link) != EndsSeen(n, link) <==> OrderMatters(m.family, m.index, address, local)
  {
    OnlyPlacingMatters(m, link, |m.addrAttrs|);
    OnlyPlacingMatters(n, link, |n.addrAttrs|);
    ReadTwo(m, link, Address(address), Local(local));
    ReadTwo(n, link, Local(local), Address(address));
  }

  /** A whole address and a local one without data, in both orders, and what is seen of them. */
  lemma ShortLocalShowsTheOrder(link: Ifa)
    ensures var a, l := Address([10, 0, 0, 1]), Local([]);
      EndsSeen(Addr(1, AF_INET, 8, [a, l]), link) != EndsSeen(Addr(1, AF_INET, 8, [l, a]), link)
  {
    var a, l := Address([10, 0, 0, 1]), Local([]);
    PlacingTwo(a, l);
    PlacingTwo(l, a);
    SwapChangesExactlyWhen(Addr(1, AF_INET, 8, [a, l]), Addr(1, AF_INET, 8, [l, a]), link, a.data, l.data);
  }

  lemma PlacingTwo(a: AddrAttr, b: AddrAttr)
    requires Places(a) && Places(b)
    ensures Placing([a, b], 2) == [a, b]
  {
    assert Placing([a, b], 1) == [a];
  }

  // ---- the netmask ----

  lemma MaskByteBits(r: nat, j: nat)
    requires 0 < r < 8 && j < 8
    ensures ((0xff as bv8 << (8 - r)) << j) & 0x80 == 0x80 <==> j < r
  {
  }

  lemma PartMask(prefixlen: nat, k: nat)
    requires 8 * k < prefixlen < 8 * k + 8
    ensures MaskByte(prefixlen, k) == (0xff as bv8) << (8 - (prefixlen - 8 * k))
  {
    assert prefixlen % 8 == prefixlen - 8 * k;
  }

  lemma MaskByteHasPrefix(prefixlen: nat, k: nat, r: nat)
    requires r < 8
    ensures (MaskByte(prefixlen, k) << r) & 0x80 == 0x80 <==> 8 * k + r < prefixlen
  {
    if prefixlen >= 8 * k + 8 {
      AllOnes(r);
    } else if prefixlen > 8 * k {
      PartMask(prefixlen, k);
      MaskByteBits(prefixlen - 8 * k, r);
    } else {
      NoOnes(r);
    }
  }

  lemma AllOnes(r: nat)
    requires r < 8
    ensures (0xff as bv8 << r) & 0x80 == 0x80
  {
  }

  lemma NoOnes(r: nat)
    requires r < 8
    ensures (0 as bv8 << r) & 0x80 != 0x80
  {
  }

  /** The mask has its first prefixlen bits set and no others, for any prefix length. */
  lemma MaskHasPrefix(prefixlen: nat, j: nat)
    requires j < 128
    ensures MaskBit(Mask(prefixlen), j) <==> j < prefixlen
  {
    assert Mask(prefixlen)[j / 8] == MaskByte(prefixlen, j / 8);
    MaskByteHasPrefix(prefixlen, j / 8, j % 8);
  }
}
