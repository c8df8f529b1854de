/** What the records of links and addresses hold, told by the positions of the attributes in the message. */
module IfAddrRecords {
  import opened IfAddrSpec
  import opened Positions

  // ---- links -----------------------------------------------------------------------

  function HardwareAddress(attrs: seq<LinkAttr>): Positions {
    (i: nat) => i < |attrs| && attrs[i].LlAddress? && |attrs[i].data| <= 24
  }

  function HardwareBroadcast(attrs: seq<LinkAttr>): Positions {
    (i: nat) => i < |attrs| && attrs[i].LlBroadcast? && |attrs[i].data| <= 24
  }

  function MtuGiven(attrs: seq<LinkAttr>): Positions {
    (i: nat) => i < |attrs| && attrs[i].Mtu?
  }

  /** The names that fit and have a byte at position j. */
  function NameByte(attrs: seq<LinkAttr>, j: nat): Positions {
    (i: nat) => i < |attrs| && attrs[i].IfName? && j < |attrs[i].data| <= 16
  }

  predicate NameFits(a: LinkAttr) {
    a.IfName? && |a.data| <= 16
  }

  function HardwareSlot(m: Message, data: Bytes): Slot
    requires m.Link?
  {
    Slot(true, Sock(17, data, m.index, m.hatype))
  }

  lemma {:induction false} LinkAddress(m: Message, n: nat)
    requires m.Link? && n <= |m.linkAttrs|
    ensures var k := LastBefore(n, HardwareAddress(m.linkAttrs));
      ReadLink(m, n).ifa.addr == if k < 0 then NO_SLOT else HardwareSlot(m, m.linkAttrs[k].data)
  {
    if n > 0 { LinkAddress(m, n - 1); }
  }

  lemma {:induction false} LinkBroadcast(m: Message, n: nat)
    requires m.Link? && n <= |m.linkAttrs|
    ensures var k := LastBefore(n, HardwareBroadcast(m.linkAttrs));
      ReadLink(m, n).ifa.ifu == if k < 0 then NO_SLOT else HardwareSlot(m, m.linkAttrs[k].data)
  {
    if n > 0 { LinkBroadcast(m, n - 1); }
  }

  lemma {:induction false} LinkMtu(m: Message, n: nat)
    requires m.Link? && n <= |m.linkAttrs|
    ensures var k := LastBefore(n, MtuGiven(m.linkAttrs));
      ReadLink(m, n).ifa.mtu == if k < 0 then 0 else m.linkAttrs[k].value
  {
    if n > 0 { LinkMtu(m, n - 1); }
  }

  lemma {:induction false} LinkName(m: Message, n: nat, j: nat)
    requires m.Link? && n <= |m.linkAttrs| && j < 17
    ensures var k := LastBefore(n, NameByte(m.linkAttrs, j));
      ReadLink(m, n).name[j] == if k < 0 then 0 else m.linkAttrs[k].data[j]
  {
    if n > 0 { LinkName(m, n - 1, j); }
  }

  lemma {:induction false} LinkFlags(m: Message, n: nat)
    requires m.Link? && n <= |m.linkAttrs|
    ensures ReadLink(m, n).named <==> exists i: nat | i < n :: NameFits(m.linkAttrs[i])
    ensures ReadLink(m, n).aware <==> exists i: nat | i < n :: m.linkAttrs[i].LinkNetnsid?
    ensures ReadLink(m, n).ifa.netmask == NO_SLOT && ReadLink(m, n).ifa.prefixlen == 0
  {
    if n > 0 { LinkFlags(m, n - 1); }
  }

  /**
   * The record of a link: its hardware and broadcast address are those of the last
   * attributes that fit, its MTU is the last one given, and each byte of its name is that
   * of the last name that fits and is long enough.  There is a record exactly if a name fits.
   */
  lemma LinkRecordHolds(m: Message)
    requires m.Link?
    ensures var attrs, r := m.linkAttrs, LinkRecord(m);
      var n := |attrs|;
      var a, b, u := LastBefore(n, HardwareAddress(attrs)), LastBefore(n, HardwareBroadcast(attrs)),
                     LastBefore(n, MtuGiven(attrs));
      && r.link && r.index == m.index == r.ifa.ifindex && r.ifa.flags == m.flags && |r.name| == 17
      && (r.ifa.addr == if a < 0 then NO_SLOT else HardwareSlot(m, attrs[a].data))
      && (r.ifa.ifu == if b < 0 then NO_SLOT else HardwareSlot(m, attrs[b].data))
      && (r.ifa.mtu == if u < 0 then 0 else attrs[u].value)
      && r.ifa.netmask == NO_SLOT && r.ifa.prefixlen == 0
    ensures Named(m) <==> exists i: nat | i < |m.linkAttrs| :: NameFits(m.linkAttrs[i])
    ensures forall log :: Aware(log, m) <==> LinkNetnsid in m.linkAttrs
  {
    var n := |m.linkAttrs|;
    LinkAddress(m, n);
    LinkBroadcast(m, n);
    LinkMtu(m, n);
    LinkFlags(m, n);
    assert LinkNetnsid in m.linkAttrs <==> exists i: nat | i < n :: m.linkAttrs[i].LinkNetnsid?;
  }

  lemma LinkNameHolds(m: Message, j: nat)
    requires m.Link? && j < 17
    ensures |LinkRecord(m).name| == 17
    ensures var k := LastBefore(|m.linkAttrs|, NameByte(m.linkAttrs, j));
      LinkRecord(m).name[j] == if k < 0 then 0 else m.linkAttrs[k].data[j]
  {
    LinkName(m, |m.linkAttrs|, j);
  }

  // ---- addresses -------------------------------------------------------------------

  function LocalAt(attrs: seq<AddrAttr>): Positions {
    (i: nat) => i < |attrs| && attrs[i].Local?
  }

  function AddressAt(attrs: seq<AddrAttr>): Positions {
    (i: nat) => i < |attrs| && attrs[i].Address?
  }

  /** The attribute that ends up as the address: the last local one, else the first address. */
  function OwnEnd(attrs: seq<AddrAttr>, n: nat): (k: int)
    requires n <= |attrs|
    ensures -1 <= k < n && (k >= 0 ==> attrs[k].Local? || attrs[k].Address?)
  {
    var k := LastBefore(n, LocalAt(attrs));
    if k >= 0 then k else FirstBefore(n, AddressAt(attrs))
  }

  /** A local address that follows another one, which it moves to the other end. */
  function MoveAt(attrs: seq<AddrAttr>): Positions {
    (i: nat) => i < |attrs| && attrs[i].Local? && OwnEnd(attrs, i) >= 0
  }

  /** A broadcast address, or an address that follows another one. */
  function OtherAt(attrs: seq<AddrAttr>): Positions {
    (i: nat) => i < |attrs| && (attrs[i].Broadcast? || (attrs[i].Address? && OwnEnd(attrs, i) >= 0))
  }

  /** The attribute that ends up as broadcast or destination address. */
  function OtherEnd(attrs: seq<AddrAttr>, n: nat): (k: int)
    requires n <= |attrs|
    ensures -1 <= k < n && (k >= 0 ==> Places(attrs[k]))
  {
    var moved, put := LastBefore(n, MoveAt(attrs)), LastBefore(n, OtherAt(attrs));
    if moved > put then OwnEnd(attrs, moved) else put
  }

  /** Does a scope reach the other end: by the address moved there last, or one put there since? */
  ghost predicate OtherScoped(attrs: seq<AddrAttr>, n: nat)
    requires n <= |attrs|
  {
    var moved := LastBefore(n, MoveAt(attrs));
    || (moved >= 0 && HasScope(attrs[OwnEnd(attrs, moved)].data))
    || exists i: nat | moved < i < n :: OtherAt(attrs)(i) && HasScope(attrs[i].data)
  }

  /** Link-local: fe80::/10, or ff?2::/16 for any flags. */
  predicate HasScope(data: Bytes) {
    |data| >= 2 && ((data[0] == 0xfe && data[1] / 64 == 2) || (data[0] == 0xff && data[1] % 16 == 2))
  }

  predicate Known(family: int) {
    family == 2 || family == 10
  }

  function Length(family: int): nat {
    if family == 2 then 4 else 16
  }

  /** The first bytes of the data, with the scope of a link-local IPv6 address. */
  function WholeSlot(family: int, data: Bytes, scoped: bool, index: int): Slot
    requires |data| >= Length(family)
  {
    Slot(true, Sock(family, data[..Length(family)], if family == 10 && scoped then index else 0, 0))
  }

  /** Every attribute that places an address has all its bytes. */
  predicate AllWhole(m: Message)
    requires m.Addr?
  {
    forall a <- m.addrAttrs :: Places(a) ==> |a.data| >= Length(m.family)
  }

  lemma ScopeIsLinkLocal(data: Bytes)
    ensures HasScope(data) <==> LinkLocal(data)
  {
    if |data| >= 2 {
      TopBits(data[1]);
    }
  }

  lemma TopBits(b: bv8)
    ensures b / 64 == 2 <==> b & 0xc0 == 0x80
    ensures b % 16 == 2 <==> b & 0xf == 2
  {
  }

  lemma OwnEndStep(attrs: seq<AddrAttr>, n: nat)
    requires n < |attrs|
    ensures OwnEnd(attrs, n + 1) ==
      if attrs[n].Local? || (attrs[n].Address? && OwnEnd(attrs, n) < 0) then n else OwnEnd(attrs, n)
  {
  }

  /** The address: the last local address, and without one the first address of the message. */
  lemma {:induction false} AddressIs(m: Message, link: Ifa, n: nat)
    requires m.Addr? && n <= |m.addrAttrs| && Known(m.family) && AllWhole(m)
    ensures var k := OwnEnd(m.addrAttrs, n);
      ReadAddr(m, link, n).ifa.addr ==
        if k < 0 then NO_SLOT
        else WholeSlot(m.family, m.addrAttrs[k].data, HasScope(m.addrAttrs[k].data), m.index)
  {
    if n > 0 {
      AddressIs(m, link, n - 1);
      OwnEndStep(m.addrAttrs, n - 1);
      var a := m.addrAttrs[n - 1];
      if Places(a) { ScopeIsLinkLocal(a.data); }
    }
  }

  lemma OtherEndStep(attrs: seq<AddrAttr>, n: nat)
    requires n < |attrs|
    ensures OtherEnd(attrs, n + 1) ==
      if MoveAt(attrs)(n) then OwnEnd(attrs, n) else if OtherAt(attrs)(n) then n else OtherEnd(attrs, n)
    ensures OtherScoped(attrs, n + 1) <==>
      if MoveAt(attrs)(n) then HasScope(attrs[OwnEnd(attrs, n)].data)
      else OtherScoped(attrs, n) || (OtherAt(attrs)(n) && HasScope(attrs[n].data))
  {
  }

  lemma NoOtherNoScope(attrs: seq<AddrAttr>, n: nat)
    requires n <= |attrs| && OtherEnd(attrs, n) < 0
    ensures !OtherScoped(attrs, n)
  {
  }

  /** What the other end holds after n attributes. */
  ghost function OtherSlot(m: Message, n: nat): Slot
    requires m.Addr? && n <= |m.addrAttrs| && AllWhole(m)
  {
    var k := OtherEnd(m.addrAttrs, n);
    if k < 0 then NO_SLOT
    else WholeSlot(m.family, m.addrAttrs[k].data, OtherScoped(m.addrAttrs, n), m.index)
  }

  /** Copying over an address keeps its scope. */
  lemma CopiesOver(family: int, was: Bytes, scoped: bool, data: Bytes, index: int)
    requires Known(family) && |was| >= Length(family) && |data| >= Length(family)
    ensures CopyAddr(WholeSlot(family, was, scoped, index), family, data, index) ==
            WholeSlot(family, data, scoped || HasScope(data), index)
    ensures CopyAddr(NO_SLOT, family, data, index) == WholeSlot(family, data, HasScope(data), index)
  {
    ScopeIsLinkLocal(data);
  }

  /** What attribute n makes of the other end. */
  function OtherAfter(m: Message, n: nat, ifu: Slot): Slot
    requires m.Addr? && n < |m.addrAttrs| && AllWhole(m)
  {
    var own := OwnEnd(m.addrAttrs, n);
    if OtherAt(m.addrAttrs)(n) then
      CopyAddr(ifu, m.family, m.addrAttrs[n].data, m.index)
    else if m.addrAttrs[n].Local? && own >= 0 then
      WholeSlot(m.family, m.addrAttrs[own].data, HasScope(m.addrAttrs[own].data), m.index)
    else
      ifu
  }

  lemma OtherSlotStep(m: Message, n: nat)
    requires m.Addr? && n < |m.addrAttrs| && Known(m.family) && AllWhole(m)
    ensures OtherSlot(m, n + 1) == OtherAfter(m, n, OtherSlot(m, n))
  {
    OtherEndStep(m.addrAttrs, n);
    var k := OtherEnd(m.addrAttrs, n);
    if OtherAt(m.addrAttrs)(n) {
      var data := m.addrAttrs[n].data;
      if k < 0 {
        NoOtherNoScope(m.addrAttrs, n);
        CopiesOver(m.family, data, false, data, m.index);
      } else {
        CopiesOver(m.family, m.addrAttrs[k].data, OtherScoped(m.addrAttrs, n), data, m.index);
      }
    }
  }

  lemma OtherReadStep(m: Message, link: Ifa, n: nat)
    requires m.Addr? && n < |m.addrAttrs| && Known(m.family) && AllWhole(m)
    ensures ReadAddr(m, link, n + 1).ifa.ifu == OtherAfter(m, n, ReadAddr(m, link, n).ifa.ifu)
  {
    AddressIs(m, link, n);
  }

  /** The broadcast or destination address, which share their place. */
  lemma {:induction false} OtherIs(m: Message, link: Ifa, n: nat)
    requires m.Addr? && n <= |m.addrAttrs| && Known(m.family) && AllWhole(m)
    ensures ReadAddr(m, link, n).ifa.ifu == OtherSlot(m, n)
  {
    if n > 0 {
      OtherIs(m, link, n - 1);
      OtherReadStep(m, link, n - 1);
      OtherSlotStep(m, n - 1);
    }
  }

  lemma {:induction false} UnknownFamily(m: Message, link: Ifa, n: nat)
    requires m.Addr? && n <= |m.addrAttrs| && !Known(m.family)
    ensures ReadAddr(m, link, n).ifa.addr == ReadAddr(m, link, n).ifa.ifu == NO_SLOT
  {
    if n > 0 { UnknownFamily(m, link, n - 1); }
  }

  function LabelByte(attrs: seq<AddrAttr>, j: nat): Positions {
    (i: nat) => i < |attrs| && attrs[i].Label? && j < |attrs[i].data| <= 16
  }

  predicate LabelFits(a: AddrAttr) {
    a.Label? && |a.data| <= 16
  }

  lemma {:induction false} LabelName(m: Message, link: Ifa, n: nat, j: nat)
    requires m.Addr? && n <= |m.addrAttrs| && j < 17
    ensures var k := LastBefore(n, LabelByte(m.addrAttrs, j));
      ReadAddr(m, link, n).name[j] == if k < 0 then 0 else m.addrAttrs[k].data[j]
  {
    if n > 0 { LabelName(m, link, n - 1, j); }
  }

  lemma {:induction false} AddressFlags(m: Message, link: Ifa, n: nat)
    requires m.Addr? && n <= |m.addrAttrs|
    ensures ReadAddr(m, link, n).named <==> exists i: nat | i < n :: LabelFits(m.addrAttrs[i])
    ensures ReadAddr(m, link, n).aware <==> exists i: nat | i < n :: m.addrAttrs[i].AddrNetnsid?
    ensures ReadAddr(m, link, n).ifa.netmask == NO_SLOT && ReadAddr(m, link, n).ifa.prefixlen == 0
  {
    if n > 0 { AddressFlags(m, link, n - 1); }
  }

  /** A netmask of the family: its first prefixlen bits are set, and no others. */
  ghost predicate IsNetmask(s: Slot, family: int, prefixlen: nat) {
    && s.used && s.sock.family == family && s.sock.index == 0 == s.sock.hatype
    && |s.sock.bytes| == Length(family)
    && forall j: nat | j < 8 * Length(family) :: MaskBit(s.sock.bytes, j) <==> j < prefixlen
  }

  lemma NetmaskIs(ifa: Ifa, m: Message)
    requires m.Addr? && Known(m.family) && ifa.addr.used && ifa.netmask == NO_SLOT
    ensures IsNetmask(WithNetmask(ifa, m).netmask, m.family, m.prefixlen)
  {
    var s := WithNetmask(ifa, m).netmask;
    forall j: nat | j < 8 * Length(m.family) ensures MaskBit(s.sock.bytes, j) <==> j < m.prefixlen {
      MaskHasPrefix(m.prefixlen, j);
      assert s.sock.bytes[j / 8] == Mask(m.prefixlen)[j / 8];
    }
  }

  /** Whatever its attributes: an address record has a netmask and a prefix length exactly if it has an address. */
  lemma NetmaskHolds(m: Message, link: Record)
    requires m.Addr?
    ensures var ifa := AddrRecord(m, link).ifa;
      if ifa.addr.used then IsNetmask(ifa.netmask, m.family, m.prefixlen) && ifa.prefixlen == m.prefixlen
      else ifa.netmask == NO_SLOT && ifa.prefixlen == 0
  {
    var n := |m.addrAttrs|;
    AddressFlags(m, link.ifa, n);
    if !Known(m.family) {
      UnknownFamily(m, link.ifa, n);
    } else if ReadAddr(m, link.ifa, n).ifa.addr.used {
      NetmaskIs(ReadAddr(m, link.ifa, n).ifa, m);
    }
  }

  /**
   * The record of an address whose attributes have all their bytes: the address is the
   * last local one, else the first address; what shares its place with the broadcast
   * address is the last broadcast, second address or address moved aside by a local one.
   */
  lemma AddressRecordHolds(m: Message, link: Record)
    requires m.Addr? && AllWhole(m)
    ensures var attrs, r := m.addrAttrs, AddrRecord(m, link);
      var own, other := OwnEnd(attrs, |attrs|), OtherEnd(attrs, |attrs|);
      && !r.link && r.index == 0
      && r.ifa.ifindex == link.ifa.ifindex && r.ifa.flags == link.ifa.flags && r.ifa.mtu == link.ifa.mtu
      && (r.ifa.addr == if own < 0 || !Known(m.family) then NO_SLOT
                        else WholeSlot(m.family, attrs[own].data, HasScope(attrs[own].data), m.index))
      && (r.ifa.ifu == if other < 0 || !Known(m.family) then NO_SLOT
                       else WholeSlot(m.family, attrs[other].data, OtherScoped(attrs, |attrs|), m.index))
  {
    var n := |m.addrAttrs|;
    if Known(m.family) {
      AddressIs(m, link.ifa, n);
      OtherIs(m, link.ifa, n);
    } else {
      UnknownFamily(m, link.ifa, n);
    }
  }

  /**
   * Full-length addresses end up as local and destination address in either order,
   * each with its first bytes and its own scope.
   */
  lemma LocalAndDestination(m: Message, link: Ifa, address: Bytes, local: Bytes)
    requires m.Addr? && Known(m.family) && |address| >= Length(m.family) && |local| >= Length(m.family)
    requires || Placing(m.addrAttrs, |m.addrAttrs|) == [Address(address), Local(local)]
             || Placing(m.addrAttrs, |m.addrAttrs|) == [Local(local), Address(address)]
    ensures EndsSeen(m, link) == (WholeSlot(m.family, local, HasScope(local), m.index),
                                  WholeSlot(m.family, address, HasScope(address), m.index))
  {
    OnlyPlacingMatters(m, link, |m.addrAttrs|);
    ReadTwo(m, link, Address(address), Local(local));
    ReadTwo(m, link, Local(local), Address(address));
    CopiesOver(m.family, local, false, local, m.index);
    CopiesOver(m.family, address, false, address, m.index);
  }

  /**
   * A local address cut short: behind a whole address it leaves an empty one and moves
   * the other aside, before it only its scope stays behind.
   */
  lemma ShortLocal(m: Message, link: Ifa, address: Bytes, local: Bytes)
    requires m.Addr? && Known(m.family) && |address| >= Length(m.family) > |local|
    ensures Placing(m.addrAttrs, |m.addrAttrs|) == [Address(address), Local(local)] ==>
      EndsSeen(m, link) == (Slot(true, Sock(0, [], if m.family == 10 && HasScope(local) then m.index else 0, 0)),
                            WholeSlot(m.family, address, HasScope(address), m.index))
    ensures Placing(m.addrAttrs, |m.addrAttrs|) == [Local(local), Address(address)] ==>
      EndsSeen(m, link) == (WholeSlot(m.family, address, HasScope(address) || HasScope(local), m.index), NO_SLOT)
  {
    OnlyPlacingMatters(m, link, |m.addrAttrs|);
    ReadTwo(m, link, Address(address), Local(local));
    ReadTwo(m, link, Local(local), Address(address));
    ScopeIsLinkLocal(address);
    ScopeIsLinkLocal(local);
  }

  /** The name: byte by byte that of the last label that fits and is long enough, else the link's. */
  lemma AddressNameHolds(m: Message, link: Record, j: nat)
    requires m.Addr? && j < 17
    ensures var attrs, r := m.addrAttrs, AddrRecord(m, link);
      var k := LastBefore(|attrs|, LabelByte(attrs, j));
      if exists i: nat | i < |attrs| :: LabelFits(attrs[i]) then
        |r.name| == 17 && r.name[j] == if k < 0 then 0 else attrs[k].data[j]
      else r.name == link.name
  {
    AddressFlags(m, link.ifa, |m.addrAttrs|);
    LabelName(m, link.ifa, |m.addrAttrs|, j);
  }

  /** An address message shows awareness exactly if its link is known and it says so. */
  lemma AddressAware(log: seq<Record>, m: Message)
    requires m.Addr?
    ensures Aware(log, m) <==> AddrNetnsid in m.addrAttrs && exists r <- log :: r.link && r.index == m.index
  {
    var k, n := Latest(log, |log|, m.index), |m.addrAttrs|;
    if k >= 0 {
      AddressFlags(m, log[k].ifa, n);
      assert log[k] in log;
      assert AddrNetnsid in m.addrAttrs <==> exists i: nat | i < n :: m.addrAttrs[i].AddrNetnsid?;
    } else {
      NoLatest(log, |log|, m.index);
    }
  }

  lemma {:induction false} NoLatest(log: seq<Record>, n: nat, index: nat)
    requires n <= |log| && Latest(log, n, index) < 0
    ensures forall i: nat | i < n :: !(log[i].link && log[i].index == index)
  {
    if n > 0 { NoLatest(log, n - 1, index); }
  }
}
