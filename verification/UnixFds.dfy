/**
 * Receiving file descriptors over a unix socket.  A descriptor the kernel hands
 * over must end up closed once or owned once; `closed` records every close().
 */
module UnixFds {
  import opened Libc

  const KERNEL_SCM_MAX_FD: nat := 253

  // The caller's flag space.
  const ACCEPT_EXACT: bv32 := 0x1
  const ACCEPT_LESS: bv32 := 0x2
  const ACCEPT_MORE: bv32 := 0x4
  const ACCEPT_NONE: bv32 := 0x8
  const ACCEPT_MASK: bv32 := 0xF

  // The callee's flag space.
  const RECEIVED_EXACT: bv32 := 0x1_0000
  const RECEIVED_LESS: bv32 := 0x2_0000
  const RECEIVED_MORE: bv32 := 0x4_0000
  const RECEIVED_NONE: bv32 := 0x8_0000

  function Bit(x: bv32, mask: bv32): nat { if x & mask != 0 then 1 else 0 }

  function HweightByte(x: bv32): nat {
    Bit(x, 0x01) + Bit(x, 0x02) + Bit(x, 0x04) + Bit(x, 0x08)
    + Bit(x, 0x10) + Bit(x, 0x20) + Bit(x, 0x40) + Bit(x, 0x80)
  }

  function Hweight32(x: bv32): nat {
    HweightByte(x) + HweightByte(x >> 8) + HweightByte(x >> 16) + HweightByte(x >> 24)
  }

  lemma HweightAccept(x: bv32)
    requires x & !ACCEPT_MASK == 0
    ensures Hweight32(x) == Bit(x, 1) + Bit(x, 2) + Bit(x, 4) + Bit(x, 8)
  {
    assert x >> 8 == 0 && x >> 16 == 0 && x >> 24 == 0;
    assert x & 0x10 == 0 && x & 0x20 == 0 && x & 0x40 == 0 && x & 0x80 == 0;
  }

  lemma HweightReceived(x: bv32)
    requires x & 0xFFF0_FFFF == 0
    ensures Hweight32(x) == Bit(x, 0x1_0000) + Bit(x, 0x2_0000) + Bit(x, 0x4_0000) + Bit(x, 0x8_0000)
  {
    var y := x >> 16;
    assert x & 0xFF == 0 && (x >> 8) & 0xFF == 0 && x >> 24 == 0;
    assert y & 0x10 == 0 && y & 0x20 == 0 && y & 0x40 == 0 && y & 0x80 == 0;
    assert (y & 1 != 0) == (x & 0x1_0000 != 0) && (y & 2 != 0) == (x & 0x2_0000 != 0);
    assert (y & 4 != 0) == (x & 0x4_0000 != 0) && (y & 8 != 0) == (x & 0x8_0000 != 0);
  }

  /** The callee's flags never disturb the caller's. */
  lemma FlagsStayApart(before: bv32, received: bv32)
    requires received & ACCEPT_MASK == 0 && before & !ACCEPT_MASK == 0
    ensures (before | received) & ACCEPT_MASK == before
    ensures (before | received) & ACCEPT_NONE == before & ACCEPT_NONE
    ensures (before | received) & !ACCEPT_MASK == received
  {
  }

  /** The check for an invalid flag combination never fires. */
  lemma OneFlagSet(before: bv32, received: bv32)
    requires before & !ACCEPT_MASK == 0
    requires received == RECEIVED_EXACT || received == RECEIVED_LESS || received == RECEIVED_MORE
    ensures Hweight32((before | received) & !ACCEPT_MASK) == 1
  {
    assert received & ACCEPT_MASK == 0;
    FlagsStayApart(before, received);
    assert received & 0xFFF0_FFFF == 0;
    HweightReceived(received);
  }

  /** What recvmsg() delivers: at most one SCM_RIGHTS header, never an empty one. */
  datatype Incoming =
    | RecvError(errno: int)
    | EndOfFile
    | Data(bytes: nat, rights: seq<int>, truncated: bool)

  predicate WellFormed(msg: Incoming) {
    && (msg.RecvError? ==> msg.errno > 0)
    && (msg.Data? ==> msg.bytes > 0 && forall x <- msg.rights :: x >= 0)
  }

  function Rights(msg: Incoming): seq<int> { if msg.Data? then msg.rights else [] }

  /** The caller may ask for at most one of exact, less and more, and for none. */
  predicate FlagsAccepted(flags: bv32) {
    flags & !ACCEPT_MASK == 0 && Hweight32(flags & !ACCEPT_NONE) <= 1
  }

  /** The checks made before anything is received. */
  predicate Willing(max: nat, flags: bv32, alreadyHeld: nat, memory: bool) {
    FlagsAccepted(flags) && max < KERNEL_SCM_MAX_FD && alreadyHeld == 0 && memory
  }

  predicate AcceptedNumber(max: nat, flags: bv32, n: nat) {
    n == max || (n < max && flags & ACCEPT_LESS != 0) || (n > max && flags & ACCEPT_MORE != 0)
  }

  function NumberFlag(max: nat, n: nat): bv32 {
    if n < max then RECEIVED_LESS else if n > max then RECEIVED_MORE else RECEIVED_EXACT
  }

  /** The number of descriptors is one the caller said it would accept. */
  predicate CountAccepted(max: nat, flags: bv32, n: nat) {
    if n == 0 then flags == 0 || flags & ACCEPT_NONE != 0
    else AcceptedNumber(max, flags, n) && (max == 0 ==> flags & ACCEPT_NONE != 0)
  }

  predicate Accepts(max: nat, flags: bv32, msg: Incoming) {
    && msg.Data?
    && (msg.rights != [] ==> |msg.rights| < KERNEL_SCM_MAX_FD && !msg.truncated)
    && CountAccepted(max, flags, |msg.rights|)
  }

  function Min(a: nat, b: nat): nat { if a < b then a else b }

  function ReceivedFlags(max: nat, n: nat): bv32 {
    (if n == 0 then 0 else NumberFlag(max, n))
    | (if Min(max, n) == 0 then RECEIVED_NONE else 0)
  }

  /** The close() calls of this process. */
  class Closer {
    var closed: seq<int>

    constructor ()
      ensures closed == []
    {
      closed := [];
    }

    method Close(fd: int)
      modifies this
      ensures closed == old(closed) + [fd]
    {
      closed := closed + [fd];
    }

    method CloseAll(fds: seq<int>)
      modifies this
      ensures closed == old(closed) + fds
    {
      for i := 0 to |fds|
        invariant closed == old(closed) + fds[..i]
      {
        Close(fds[i]);
        assert fds[..i + 1] == fds[..i] + [fds[i]];
      }
      assert fds[..|fds|] == fds;
    }
  }

  /** struct unix_fds */
  class UnixFdSet {
    var fdCountMax: nat
    var fdCountRet: nat
    var flags: bv32
    const fd: array<int>

    ghost predicate Valid()
      reads this, fd
    {
      fd.Length == KERNEL_SCM_MAX_FD && fdCountRet <= KERNEL_SCM_MAX_FD
    }

    /** The descriptors this set owns. */
    ghost function Held(): seq<int>
      requires Valid()
      reads this, fd
    {
      fd[..fdCountRet]
    }

    constructor (max: nat, accept: bv32)
      ensures Valid() && fresh(fd) && fdCountMax == max && flags == accept && fdCountRet == 0
      ensures forall i | 0 <= i < fd.Length :: fd[i] == -EBADF
    {
      fdCountMax, fdCountRet, flags := max, 0, accept;
      fd := new int[KERNEL_SCM_MAX_FD](i => -EBADF);
    }

    /** The part of lxc_abstract_unix_recv_fds_iov() that handles an SCM_RIGHTS header. */
    method TakeRights(k: Closer, rights: seq<int>, truncated: bool) returns (ret: int)
      requires Valid() && rights != [] && fdCountRet == 0
      requires flags & !ACCEPT_MASK == 0 && fdCountMax < KERNEL_SCM_MAX_FD
      modifies this`fdCountRet, this`flags, fd, k
      ensures Valid()
      ensures if |rights| < KERNEL_SCM_MAX_FD && !truncated && AcceptedNumber(fdCountMax, old(flags), |rights|)
              then ret == 0 else ret < 0
      ensures ret < 0 ==> fdCountRet == 0 && k.closed == old(k.closed) + rights
      ensures ret == 0 ==>
        var n := Min(fdCountMax, |rights|);
        && Held() == rights[..n] && k.closed == old(k.closed) + rights[n..]
        && flags == old(flags) | NumberFlag(fdCountMax, |rights|)
      ensures ret == 0 && |rights| < fdCountMax ==>
        forall i | |rights| <= i < fdCountMax :: fd[i] == -EBADF
    {
      if |rights| >= KERNEL_SCM_MAX_FD {
        k.CloseAll(rights);
        return -EFBIG;
      }
      if truncated {
        k.CloseAll(rights);
        return -EFBIG;
      }
      var kept, received;
      ret, kept, received := TrimRights(k, rights);
      if ret < 0 {
        return;
      }
      OneFlagSet(flags, received);
      flags := flags | received;
      if Hweight32(flags & !ACCEPT_MASK) > 1 {
        assert false;
      }
      Copy(kept);
      fdCountRet := |kept|;
      ret := 0;
    }

    /** Compares the number of descriptors with what is accepted, and closes what is too much. */
    method TrimRights(k: Closer, rights: seq<int>) returns (ret: int, kept: seq<int>, received: bv32)
      requires Valid() && fdCountMax < KERNEL_SCM_MAX_FD
      modifies fd, k
      ensures if AcceptedNumber(fdCountMax, flags, |rights|) then ret == 0 else ret < 0
      ensures ret < 0 ==> k.closed == old(k.closed) + rights
      ensures ret == 0 ==>
        var n := Min(fdCountMax, |rights|);
        kept == rights[..n] && k.closed == old(k.closed) + rights[n..] && received == NumberFlag(fdCountMax, |rights|)
      ensures ret == 0 ==> forall i | |rights| <= i < fdCountMax :: fd[i] == -EBADF
    {
      ret, kept, received := 0, rights, RECEIVED_EXACT;
      if fdCountMax > |rights| {
        if flags & ACCEPT_LESS == 0 {
          k.CloseAll(rights);
          return -EINVAL, kept, received;
        }
        for i := |rights| to fdCountMax
          modifies fd
          invariant forall j | |rights| <= j < i :: fd[j] == -EBADF
        {
          fd[i] := -EBADF;
        }
        received := RECEIVED_LESS;
      } else if fdCountMax < |rights| {
        if flags & ACCEPT_MORE == 0 {
          k.CloseAll(rights);
          return -EINVAL, kept, received;
        }
        k.CloseAll(rights[fdCountMax..]);
        kept := rights[..fdCountMax];
        received := RECEIVED_MORE;
      }
    }

    method Copy(kept: seq<int>)
      requires |kept| <= fd.Length
      modifies fd
      ensures fd[..|kept|] == kept
      ensures forall j | |kept| <= j < fd.Length :: fd[j] == old(fd[j])
    {
      for i := 0 to |kept|
        invariant fd[..i] == kept[..i]
        invariant forall j | i <= j < fd.Length :: fd[j] == old(fd[j])
      {
        fd[i] := kept[i];
        assert fd[..i + 1] == fd[..i] + [fd[i]];
      }
    }

    /** lxc_abstract_unix_recv_fds_iov() */
    method RecvFds(k: Closer, msg: Incoming, memory: bool) returns (ret: int)
      requires Valid() && WellFormed(msg)
      modifies this`fdCountRet, this`flags, fd, k
      ensures Valid()
      // nothing is received unless the request itself is acceptable
      ensures var willing := Willing(fdCountMax, old(flags), old(fdCountRet), memory);
        && (ret > 0 <==> willing && Accepts(fdCountMax, old(flags), msg))
        && (ret == 0 <==> willing && msg.EndOfFile?)
      ensures ret > 0 ==> ret == msg.bytes
      // every descriptor is kept once or closed once
      ensures ret > 0 ==>
        var n := Min(fdCountMax, |msg.rights|);
        Held() == msg.rights[..n] && k.closed == old(k.closed) + msg.rights[n..]
      ensures ret <= 0 ==>
        && fdCountRet == old(fdCountRet)
        && k.closed == old(k.closed)
                       + if Willing(fdCountMax, old(flags), old(fdCountRet), memory) then Rights(msg) else []
      ensures ret > 0 ==> flags == old(flags) | ReceivedFlags(fdCountMax, |msg.rights|)
      ensures Rights(msg) == [] ==> fd[..] == old(fd[..])
      // unused slots are safe to clean up
      ensures ret > 0 && 0 < |msg.rights| < fdCountMax ==>
        forall i | |msg.rights| <= i < fdCountMax :: fd[i] == -EBADF
    {
      if flags & !ACCEPT_MASK != 0 {
        return -EINVAL;
      }
      if Hweight32(flags & !ACCEPT_NONE) > 1 {
        return -EINVAL;
      }
      if fdCountMax >= KERNEL_SCM_MAX_FD {
        return -EINVAL;
      }
      if fdCountRet != 0 {
        return -EINVAL;
      }
      if !memory {
        return -ENOMEM;
      }
      match msg
      case RecvError(errno) => return -errno;
      case EndOfFile => return 0;
      case Data(bytes, rights, truncated) => ret := TakeData(k, bytes, rights, truncated);
    }

    /** What follows a successful recvmsg(). */
    method TakeData(k: Closer, bytes: nat, rights: seq<int>, truncated: bool) returns (ret: int)
      requires Valid() && bytes > 0 && Willing(fdCountMax, flags, fdCountRet, true)
      modifies this`fdCountRet, this`flags, fd, k
      ensures Valid()
      ensures if Accepts(fdCountMax, old(flags), Data(bytes, rights, truncated)) then ret == bytes else ret < 0
      ensures ret > 0 ==>
        var n := Min(fdCountMax, |rights|);
        && Held() == rights[..n] && k.closed == old(k.closed) + rights[n..]
        && flags == old(flags) | ReceivedFlags(fdCountMax, |rights|)
      ensures ret < 0 ==> fdCountRet == 0 && k.closed == old(k.closed) + rights
      ensures rights == [] ==> fd[..] == old(fd[..])
      ensures ret > 0 && 0 < |rights| < fdCountMax ==>
        forall i | |rights| <= i < fdCountMax :: fd[i] == -EBADF
    {
      ghost var before := flags;
      if rights != [] {
        ret := TakeRights(k, rights, truncated);
        if ret < 0 {
          return;
        }
      }
      if fdCountRet == 0 {
        FlagsStayApart(before, ReceivedFlags(fdCountMax, |rights|));
        flags := flags | RECEIVED_NONE;
        if flags & ACCEPT_MASK != 0 && flags & ACCEPT_NONE == 0 {
          return -EINVAL;
        }
      }
      return bytes;
    }

    /** put_unix_fds(): close what is still held. */
    method Put(k: Closer)
      requires Valid()
      modifies fd, k
      ensures Valid() && k.closed == old(k.closed) + old(Live(Held()))
      ensures forall i | 0 <= i < fdCountRet :: fd[i] < 0
    {
      for i := 0 to fdCountRet
        invariant k.closed == old(k.closed) + old(Live(fd[..i]))
        invariant forall j | 0 <= j < i :: fd[j] < 0
        invariant forall j | i <= j < fd.Length :: fd[j] == old(fd[j])
      {
        ghost var seen := old(fd[..i + 1]);
        assert seen[..i] == old(fd[..i]) && seen[i] == fd[i];
        if fd[i] >= 0 {
          k.Close(fd[i]);
          fd[i] := -EBADF;
        }
      }
    }

    /** move_fd(): take one descriptor out of the set. */
    method Move(i: nat) returns (x: int)
      requires Valid() && i < fd.Length
      modifies fd
      ensures Valid() && x == old(fd[i]) && fd[i] == -EBADF
      ensures forall j | 0 <= j < fd.Length && j != i :: fd[j] == old(fd[j])
    {
      x := fd[i];
      fd[i] := -EBADF;
    }
  }

  /** The descriptors in a list of slots; negative slots are empty. */
  function Live(slots: seq<int>): (r: seq<int>)
    ensures forall x <- r :: x >= 0
  {
    if slots == [] then []
    else
      var n := |slots| - 1;
      Live(slots[..n]) + if slots[n] >= 0 then [slots[n]] else []
  }

  lemma {:induction false} AllLive(slots: seq<int>)
    requires forall x <- slots :: x >= 0
    ensures Live(slots) == slots
  {
    if slots != [] {
      var n := |slots| - 1;
      assert forall x <- slots[..n] :: x in slots;
      AllLive(slots[..n]);
      assert slots[n] in slots && slots == slots[..n] + [slots[n]];
    }
  }

  // ---- what the result flags say -----------------------------------------------------

  /**
   * After an accepted receive exactly one RECEIVED flag is set, except when no
   * slot was offered and descriptors came all the same: then MORE and NONE are.
   */
  lemma ReceivedFlagsSet(max: nat, flags: bv32, n: nat)
    requires FlagsAccepted(flags) && CountAccepted(max, flags, n)
    ensures Hweight32((flags | ReceivedFlags(max, n)) & !ACCEPT_MASK) == 1 <==> !(max == 0 && n > 0)
    ensures max == 0 && n > 0 ==> flags & ACCEPT_MORE != 0 && flags & ACCEPT_NONE != 0
  {
    var r := ReceivedFlags(max, n);
    assert r & ACCEPT_MASK == 0 && r & 0xFFF0_FFFF == 0;
    FlagsStayApart(flags, r);
    HweightReceived(r);
  }

  /** Each RECEIVED flag on its own: what it says of the numbers offered and sent. */
  lemma ReceivedFlagsTell(max: nat, n: nat)
    ensures var r := ReceivedFlags(max, n);
      && (r & 0x1_0000 != 0 <==> 0 < n == max)
      && (r & 0x2_0000 != 0 <==> 0 < n < max)
      && (r & 0x4_0000 != 0 <==> max < n)
      && (r & 0x8_0000 != 0 <==> n == 0 || max == 0)
      && r & 0xFFF0_FFFF == 0
  {
  }

  /** Each accept flag on its own: which numbers of descriptors it lets in, with slots to put them. */
  lemma AcceptFlagsTell(max: nat, flags: bv32, n: nat)
    requires FlagsAccepted(flags) && 0 < n && 0 < max
    ensures flags & 0x2 != 0 ==> (CountAccepted(max, flags, n) <==> n <= max)
    ensures flags & 0x4 != 0 ==> (CountAccepted(max, flags, n) <==> n >= max)
    ensures flags & 0x6 == 0 ==> (CountAccepted(max, flags, n) <==> n == max)
  {
    assert flags & 0x6 == 0 <==> flags & 0x2 == 0 && flags & 0x4 == 0;
    assert !(flags & 0x2 != 0 && flags & 0x4 != 0) by {
      var x := flags & !ACCEPT_NONE;
      assert x & !ACCEPT_MASK == 0 && x & 2 == flags & 2 && x & 4 == flags & 4;
      HweightAccept(x);
    }
  }

  /** Without descriptors, or without slots, the caller must have said that none will do, or nothing at all. */
  lemma AcceptNoneTells(max: nat, flags: bv32, n: nat)
    requires FlagsAccepted(flags) && (n == 0 || max == 0)
    ensures CountAccepted(max, flags, n) <==>
            (n == 0 && flags == 0) || (flags & 0x8 != 0 && (n == 0 || flags & 0x4 != 0))
  {
  }

  lemma NoFlagsAccepted()
    ensures FlagsAccepted(0)
  {
    assert (0 as bv32) & !ACCEPT_NONE == 0;
    HweightAccept(0);
  }

  // ---- the two convenience receivers -----------------------------------------------

  /** Empty slots hold nothing that would be closed. */
  lemma NothingLive()
    ensures Live([]) == [] && Live([-EBADF]) == [] && Live([-EBADF, -EBADF]) == []
  {
    var one, two := [-EBADF], [-EBADF, -EBADF];
    assert one[..|one| - 1] == [] && two[..|two| - 1] == one && one[1..] == [] && two[1..] == one;
    assert Live(one) == [];
  }

  /** The single descriptor of a message, or an empty slot. */
  function Only(msg: Incoming): int { if Rights(msg) == [] then -EBADF else Rights(msg)[0] }

  /** Without accept flags one descriptor or none will do, and two are refused. */
  lemma OneOrNone(msg: Incoming)
    requires msg.Data? && !msg.truncated && |msg.rights| <= 2
    ensures Accepts(1, 0, msg) <==> |msg.rights| <= 1
  {
    assert (0 as bv32) & ACCEPT_LESS == 0 && (0 as bv32) & ACCEPT_MORE == 0 && (0 as bv32) & ACCEPT_MASK == 0;
  }

  method RecvOneFd(k: Closer, msg: Incoming, memory: bool) returns (ret: int, fd: int)
    requires WellFormed(msg)
    modifies k
    ensures if memory && Accepts(1, 0, msg)
            then ret == msg.bytes && fd == Only(msg) && k.closed == old(k.closed)
            else ret < 0 && fd == -EBADF && k.closed == old(k.closed) + if memory then Rights(msg) else []
  {
    var fds := new UnixFdSet(1, 0);
    fd := -EBADF;
    NoFlagsAccepted();
    ret := fds.RecvFds(k, msg, memory);
    if ret == 0 {
      ret := -ENODATA;
    } else if ret > 0 && fds.fdCountRet == fds.fdCountMax {
      assert fds.fd[0] == fds.Held()[0] == msg.rights[0];
      fd := fds.Move(0);
      assert fds.Held() == [-EBADF];
    }
    NothingLive();
    assert fds.Held() == [] || fds.Held() == [-EBADF];
    fds.Put(k);
  }

  method RecvTwoFds(k: Closer, msg: Incoming, memory: bool) returns (ret: int, first: int, second: int)
    requires WellFormed(msg)
    modifies k
    ensures if memory && Accepts(2, 0, msg)
            then ret == 0 && k.closed == old(k.closed)
                 && (if msg.rights == [] then first == second == -EBADF else [first, second] == msg.rights)
            else ret < 0 && first == second == -EBADF
                 && k.closed == old(k.closed) + if memory then Rights(msg) else []
  {
    var fds := new UnixFdSet(2, 0);
    first, second := -EBADF, -EBADF;
    NoFlagsAccepted();
    ret := fds.RecvFds(k, msg, memory);
    if ret == 0 {
      ret := -ENODATA;
    } else if ret > 0 {
      if fds.fdCountRet == fds.fdCountMax {
        assert fds.Held() == msg.rights;
        assert fds.fd[0] == fds.Held()[0] && fds.fd[1] == fds.Held()[1];
        first := fds.Move(0);
        second := fds.Move(1);
        assert fds.Held() == [-EBADF, -EBADF];
      }
      ret := 0;
    }
    NothingLive();
    assert fds.Held() == [] || fds.Held() == [-EBADF, -EBADF];
    fds.Put(k);
  }
}
