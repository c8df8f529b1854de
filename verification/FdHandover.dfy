/**
 * The hand-over of descriptors at container start: the child sends over a socket what
 * it has allocated, and the parent, which knows only the configuration from before the
 * child's setup, receives it.
 */
module FdHandover {
  import opened Libc
  import UnixFds

  datatype Terminal = Terminal(ptx: int, pty: int, name: string)
  datatype Tty = Tty(ptx: int, pty: int)
  datatype Netdev = Netdev(name: string, ifindex: int)

  datatype Packet =
    | NotifyFd(fd: int)
    | DevptsFd(fd: int)
    | TtyFds(ptx: int, pty: int)
    | DeviceName(name: string)
    | DeviceIndex(ifindex: int)
    | ConsoleFds(ptx: int, pty: int, terminal: Terminal)

  datatype Kind = Notify | Devpts | TtyPair | Name | Index | Console

  function KindOf(p: Packet): Kind {
    match p
    case NotifyFd(_) => Notify
    case DevptsFd(_) => Devpts
    case TtyFds(_, _) => TtyPair
    case DeviceName(_) => Name
    case DeviceIndex(_) => Index
    case ConsoleFds(_, _, _) => Console
  }

  function Kinds(ps: seq<Packet>): seq<Kind> {
    if ps == [] then [] else Kinds(ps[..|ps| - 1]) + [KindOf(ps[|ps| - 1])]
  }

  lemma {:induction false} KindsAdd(ps: seq<Packet>, qs: seq<Packet>)
    ensures Kinds(ps + qs) == Kinds(ps) + Kinds(qs)
  {
    if qs == [] {
      assert ps + qs == ps;
    } else {
      KindsAdd(ps, qs[..|qs| - 1]);
      assert (ps + qs)[..|ps + qs| - 1] == ps + qs[..|qs| - 1];
    }
  }

  /** The part of the configuration that is the same on both sides. */
  datatype Config = Config(wantsSupervision: bool, ptyMax: int, ttysMax: nat, newNet: bool, amRoot: bool,
                           netdevs: nat, wantsConsole: bool)

  /** What each side holds; the parent's is empty but for the console of the host. */
  datatype Holdings = Holdings(notifyFd: int, devptsFd: int, ttys: seq<Tty>, devices: seq<Netdev>, console: Terminal)

  const IFNAMSIZ: nat := 16

  /** The child holds what the configuration asks for, in open descriptors. */
  predicate Fits(c: Config, h: Holdings) {
    && |h.ttys| == c.ttysMax && |h.devices| == c.netdevs
    && (c.ptyMax > 0 ==> h.devptsFd >= 0) && (h.console.pty >= 0 ==> h.console.ptx >= 0)
    && (forall i | 0 <= i < |h.ttys| :: h.ttys[i].ptx >= 0 && h.ttys[i].pty >= 0)
    && forall i | 0 <= i < |h.devices| :: |h.devices[i].name| < IFNAMSIZ
  }

  /**
   * The console after the child's setup: allocated inside the container if the host had
   * none, and given up if it came from the host.
   */
  function SetupConsole(c: Config, console: Terminal, ptx: int, pty: int, name: string): Terminal {
    if !c.wantsConsole then console
    else if console.pty < 0 then Terminal(ptx, pty, name)
    else console.(ptx := -EBADF, pty := -EBADF)
  }

  // ---- what is sent, and what is waited for ----

  function TtyPackets(ttys: seq<Tty>): (r: seq<Packet>)
    ensures |r| == |ttys|
  {
    if ttys == [] then [] else TtyPackets(ttys[..|ttys| - 1]) + [TtyFds(ttys[|ttys| - 1].ptx, ttys[|ttys| - 1].pty)]
  }

  function DevicePackets(devices: seq<Netdev>): (r: seq<Packet>)
    ensures |r| == 2 * |devices|
  {
    if devices == [] then []
    else
      var d := devices[|devices| - 1];
      DevicePackets(devices[..|devices| - 1]) + [DeviceName(d.name), DeviceIndex(d.ifindex)]
  }

  function NotifyPackets(c: Config, h: Holdings): seq<Packet> {
    if c.wantsSupervision then [NotifyFd(h.notifyFd)] else []
  }

  function DevptsPackets(c: Config, h: Holdings): seq<Packet> {
    if c.ptyMax > 0 then [DevptsFd(h.devptsFd)] else []
  }

  function NetPackets(c: Config, h: Holdings): seq<Packet> {
    if c.newNet && c.amRoot then DevicePackets(h.devices) else []
  }

  function ConsolePackets(c: Config, h: Holdings): seq<Packet> {
    if c.wantsConsole && h.console.pty >= 0 then [ConsoleFds(h.console.ptx, h.console.pty, h.console)] else []
  }

  /** Everything the child has to send, in order. */
  function Packets(c: Config, h: Holdings): seq<Packet> {
    NotifyPackets(c, h) + (DevptsPackets(c, h) + (TtyPackets(h.ttys) + (NetPackets(c, h) + ConsolePackets(c, h))))
  }

  function Repeat(ks: seq<Kind>, n: nat): seq<Kind> {
    if n == 0 then [] else Repeat(ks, n - 1) + ks
  }

  /** What the parent waits for, going by the console it had before the child was set up. */
  function Awaited(c: Config, console: Terminal): seq<Kind> {
    Only(c.wantsSupervision, [Notify])
    + (Only(c.ptyMax > 0, [Devpts])
       + (Repeat([TtyPair], c.ttysMax)
          + (Only(c.newNet && c.amRoot, Repeat([Name, Index], c.netdevs))
             + Only(c.wantsConsole && console.pty < 0, [Console]))))
  }

  function Only(awaited: bool, ks: seq<Kind>): seq<Kind> {
    if awaited then ks else []
  }

  lemma {:induction false} TtyKinds(ttys: seq<Tty>)
    ensures Kinds(TtyPackets(ttys)) == Repeat([TtyPair], |ttys|)
  {
    if ttys != [] {
      TtyKinds(ttys[..|ttys| - 1]);
      var p := TtyFds(ttys[|ttys| - 1].ptx, ttys[|ttys| - 1].pty);
      KindsAdd(TtyPackets(ttys[..|ttys| - 1]), [p]);
      KindsOne(p);
    }
  }

  lemma KindsOne(p: Packet)
    ensures Kinds([p]) == [KindOf(p)]
  {
    assert [p][..0] == [];
  }

  lemma {:induction false} DeviceKinds(devices: seq<Netdev>)
    ensures Kinds(DevicePackets(devices)) == Repeat([Name, Index], |devices|)
  {
    if devices != [] {
      var d := devices[|devices| - 1];
      DeviceKinds(devices[..|devices| - 1]);
      KindsAdd(DevicePackets(devices[..|devices| - 1]), [DeviceName(d.name), DeviceIndex(d.ifindex)]);
      assert [DeviceName(d.name)] + [DeviceIndex(d.ifindex)] == [DeviceName(d.name), DeviceIndex(d.ifindex)];
      KindsAdd([DeviceName(d.name)], [DeviceIndex(d.ifindex)]);
      KindsOne(DeviceName(d.name));
      KindsOne(DeviceIndex(d.ifindex));
    }
  }

  lemma ConsoleKinds(c: Config, h: Holdings, console: Terminal, ptx: int, pty: int, name: string)
    requires pty >= 0 && h.console == SetupConsole(c, console, ptx, pty, name)
    ensures Kinds(ConsolePackets(c, h)) == Only(c.wantsConsole && console.pty < 0, [Console])
  {
    KindsOne(ConsoleFds(h.console.ptx, h.console.pty, h.console));
  }

  lemma NetKinds(c: Config, h: Holdings)
    requires |h.devices| == c.netdevs
    ensures Kinds(NetPackets(c, h)) == Only(c.newNet && c.amRoot, Repeat([Name, Index], c.netdevs))
  {
    DeviceKinds(h.devices);
  }

  lemma SingleKinds(c: Config, h: Holdings)
    ensures Kinds(NotifyPackets(c, h)) == Only(c.wantsSupervision, [Notify])
    ensures Kinds(DevptsPackets(c, h)) == Only(c.ptyMax > 0, [Devpts])
  {
    KindsOne(NotifyFd(h.notifyFd));
    KindsOne(DevptsFd(h.devptsFd));
  }

  lemma KindsOfAll(a: seq<Packet>, b: seq<Packet>, d: seq<Packet>, e: seq<Packet>, f: seq<Packet>)
    ensures Kinds(a + (b + (d + (e + f)))) == Kinds(a) + (Kinds(b) + (Kinds(d) + (Kinds(e) + Kinds(f))))
  {
    KindsAdd(a, b + (d + (e + f)));
    KindsAdd(b, d + (e + f));
    KindsAdd(d, e + f);
    KindsAdd(e, f);
  }

  /**
   * Duality: whatever the configuration and wherever the console came from, the child
   * sends packets of the kinds, in the number and in the order that the parent awaits.
   */
  lemma SentIsAwaited(c: Config, h: Holdings, console: Terminal, ptx: int, pty: int, name: string)
    requires Fits(c, h) && pty >= 0
    requires h.console == SetupConsole(c, console, ptx, pty, name)
    ensures Kinds(Packets(c, h)) == Awaited(c, console)
  {
    KindsOfAll(NotifyPackets(c, h), DevptsPackets(c, h), TtyPackets(h.ttys), NetPackets(c, h), ConsolePackets(c, h));
    SingleKinds(c, h);
    TtyKinds(h.ttys);
    NetKinds(c, h);
    ConsoleKinds(c, h, console, ptx, pty, name);
  }

  // ---- both sides at work ----

  /** The socket between the two; of the sends, counted from 0, the broken ones fail. */
  class Socket {
    var queue: seq<Packet>
    var sends: nat
    const broken: set<nat>

    constructor (broken: set<nat>)
      ensures queue == [] && sends == 0 && this.broken == broken
    {
      queue, sends, this.broken := [], 0, broken;
    }

    method Send(p: Packet) returns (ret: int)
      modifies this
      ensures sends == old(sends) + 1
      ensures if old(sends) in broken then ret < 0 else ret > 0
      ensures queue == if old(sends) in broken then old(queue) else old(queue) + [p]
    {
      sends := sends + 1;
      if sends - 1 in broken {
        return -1;
      }
      queue := queue + [p];
      ret := 1;
    }

    /** What comes next, of whatever kind. */
    method Recv() returns (p: Packet)
      requires queue != []
      modifies `queue
      ensures p == old(queue[0]) && queue == old(queue[1..])
    {
      p := queue[0];
      queue := queue[1..];
    }
  }

  /** One of the n sends from the given one on fails. */
  predicate Fails(broken: set<nat>, from: nat, n: nat) {
    exists i | from <= i < from + n :: i in broken
  }

  lemma FailsInTwo(broken: set<nat>, from: nat, m: nat, n: nat)
    ensures Fails(broken, from, m + n) <==> Fails(broken, from, m) || Fails(broken, from + m, n)
  {
  }

  /** A failed send of the devpts descriptor is only logged. */
  method SendDevpts(sock: Socket, c: Config, h: Holdings)
    modifies sock
    ensures sock.queue == old(sock.queue) + Arriving(sock.broken, old(sock.sends), DevptsPackets(c, h))
    ensures sock.sends == old(sock.sends) + |DevptsPackets(c, h)|
  {
    if c.ptyMax > 0 {
      var ret := sock.Send(DevptsFd(h.devptsFd));
    }
  }

  function Arriving(broken: set<nat>, at: nat, ps: seq<Packet>): seq<Packet> {
    if at in broken then [] else ps
  }

  lemma TtyPacketsStep(ttys: seq<Tty>, i: nat)
    requires i < |ttys|
    ensures TtyPackets(ttys[..i + 1]) == TtyPackets(ttys[..i]) + [TtyFds(ttys[i].ptx, ttys[i].pty)]
  {
    assert ttys[..i + 1][..i] == ttys[..i];
  }

  method SendTtys(sock: Socket, ttys: seq<Tty>) returns (ret: int)
    modifies sock
    ensures if Fails(sock.broken, old(sock.sends), |ttys|) then ret < 0 else ret >= 0 && (ret == 0 <==> ttys == [])
    ensures ret >= 0 ==>
      sock.queue == old(sock.queue) + TtyPackets(ttys) && sock.sends == old(sock.sends) + |ttys|
  {
    ret := 0;
    var i := 0;
    ghost var start := sock.sends;
    while i < |ttys|
      invariant i <= |ttys| && ret >= 0 && (ret == 0 <==> i == 0) && sock.sends == start + i
      invariant sock.queue == old(sock.queue) + TtyPackets(ttys[..i])
      invariant forall k | start <= k < start + i :: k !in sock.broken
    {
      TtyPacketsStep(ttys, i);
      ret := sock.Send(TtyFds(ttys[i].ptx, ttys[i].pty));
      i := i + 1;
      if ret < 0 {
        return;
      }
    }
    assert ttys[..i] == ttys;
  }

  lemma DevicePacketsStep(devices: seq<Netdev>, i: nat)
    requires i < |devices|
    ensures DevicePackets(devices[..i + 1]) ==
            DevicePackets(devices[..i]) + [DeviceName(devices[i].name), DeviceIndex(devices[i].ifindex)]
  {
    assert devices[..i + 1][..i] == devices[..i];
  }

  /** Name and index of one device. */
  method SendDevice(sock: Socket, d: Netdev) returns (ret: int)
    modifies sock
    ensures ret == if old(sock.sends) in sock.broken || old(sock.sends) + 1 in sock.broken then -1 else 0
    ensures ret >= 0 ==> sock.sends == old(sock.sends) + 2
    ensures ret >= 0 ==> sock.queue == old(sock.queue) + [DeviceName(d.name), DeviceIndex(d.ifindex)]
  {
    ret := sock.Send(DeviceName(d.name));
    if ret < 0 {
      return -1;
    }
    ret := sock.Send(DeviceIndex(d.ifindex));
    ret := if ret < 0 then -1 else 0;
  }

  method SendDevices(sock: Socket, devices: seq<Netdev>) returns (ret: int)
    modifies sock
    ensures ret == if Fails(sock.broken, old(sock.sends), 2 * |devices|) then -1 else 0
    ensures ret >= 0 ==>
      sock.queue == old(sock.queue) + DevicePackets(devices) && sock.sends == old(sock.sends) + 2 * |devices|
  {
    var i := 0;
    ghost var start := sock.sends;
    while i < |devices|
      invariant i <= |devices| && sock.sends == start + 2 * i
      invariant sock.queue == old(sock.queue) + DevicePackets(devices[..i])
      invariant forall k | start <= k < start + 2 * i :: k !in sock.broken
    {
      DevicePacketsStep(devices, i);
      ret := SendDevice(sock, devices[i]);
      i := i + 1;
      if ret < 0 {
        return;
      }
    }
    assert devices[..i] == devices;
    ret := 0;
  }

  /** What follows the devpts descriptor. */
  function Late(c: Config, h: Holdings): seq<Packet> {
    TtyPackets(h.ttys) + (NetPackets(c, h) + ConsolePackets(c, h))
  }

  /** Which send is that of the devpts descriptor, and which is the first one after it. */
  function DevptsAt(c: Config): nat { if c.wantsSupervision then 1 else 0 }

  function LateAt(c: Config): nat { DevptsAt(c) + if c.ptyMax > 0 then 1 else 0 }

  /** All that arrives of what the child has to send. */
  function Delivered(broken: set<nat>, c: Config, h: Holdings): seq<Packet> {
    NotifyPackets(c, h) + (Arriving(broken, DevptsAt(c), DevptsPackets(c, h)) + Late(c, h))
  }

  /** Does some send fail that the child takes notice of? */
  predicate Noticed(broken: set<nat>, c: Config, h: Holdings) {
    Fails(broken, 0, |NotifyPackets(c, h)|) || Fails(broken, LateAt(c), |Late(c, h)|)
  }

  method SendNet(sock: Socket, c: Config, h: Holdings) returns (ret: int)
    modifies sock
    ensures ret == if Fails(sock.broken, old(sock.sends), |NetPackets(c, h)|) then -1 else 0
    ensures ret >= 0 ==>
      sock.queue == old(sock.queue) + NetPackets(c, h) && sock.sends == old(sock.sends) + |NetPackets(c, h)|
  {
    ret := 0;
    if c.newNet && c.amRoot {
      ret := SendDevices(sock, h.devices);
    }
  }

  method SendConsole(sock: Socket, c: Config, h: Holdings) returns (ret: int)
    modifies sock
    ensures if Fails(sock.broken, old(sock.sends), |ConsolePackets(c, h)|) then ret < 0 else ret == 0
    ensures ret >= 0 ==> sock.queue == old(sock.queue) + ConsolePackets(c, h)
  {
    ret := 0;
    if c.wantsConsole && h.console.pty >= 0 {
      ret := sock.Send(ConsoleFds(h.console.ptx, h.console.pty, h.console));
      ret := if ret < 0 then ret else 0;
    }
  }

  /** The child's side after the devpts descriptor. */
  method SendLate(sock: Socket, c: Config, h: Holdings) returns (ret: int)
    modifies sock
    ensures if Fails(sock.broken, old(sock.sends), |Late(c, h)|) then ret < 0 else ret == 0
    ensures ret >= 0 ==> sock.queue == old(sock.queue) + Late(c, h)
  {
    ghost var m, n, k := |h.ttys|, |NetPackets(c, h)|, |ConsolePackets(c, h)|;
    FailsInTwo(sock.broken, sock.sends, m, n + k);
    FailsInTwo(sock.broken, sock.sends + m, n, k);
    ret := SendTtys(sock, h.ttys);
    if ret >= 0 {
      ret := SendNet(sock, c, h);
      if ret >= 0 {
        ret := SendConsole(sock, c, h);
      }
    }
  }

  method SendNotify(sock: Socket, c: Config, h: Holdings) returns (ret: int)
    modifies sock
    ensures if Fails(sock.broken, old(sock.sends), |NotifyPackets(c, h)|) then ret < 0 else ret == 0
    ensures ret >= 0 ==>
      sock.queue == old(sock.queue) + NotifyPackets(c, h) && sock.sends == old(sock.sends) + |NotifyPackets(c, h)|
  {
    ret := 0;
    if c.wantsSupervision {
      ret := sock.Send(NotifyFd(h.notifyFd));
      ret := if ret < 0 then -1 else 0;
    }
  }

  /** The child's side. */
  method SyncFdsChild(sock: Socket, c: Config, h: Holdings) returns (ret: int)
    requires Fits(c, h) && sock.queue == [] && sock.sends == 0
    modifies sock
    ensures if Noticed(sock.broken, c, h) then ret < 0 else ret == 0
    ensures ret >= 0 ==> sock.queue == Delivered(sock.broken, c, h)
  {
    SendCounts(c, h);
    ret := SendNotify(sock, c, h);
    if ret >= 0 {
      SendDevpts(sock, c, h);
      ret := SendLate(sock, c, h);
      Regroup(NotifyPackets(c, h), Arriving(sock.broken, DevptsAt(c), DevptsPackets(c, h)), Late(c, h));
    }
  }

  lemma SendCounts(c: Config, h: Holdings)
    ensures |NotifyPackets(c, h)| == DevptsAt(c) && |NotifyPackets(c, h)| + |DevptsPackets(c, h)| == LateAt(c)
  {
  }

  lemma Regroup(a: seq<Packet>, b: seq<Packet>, d: seq<Packet>)
    ensures a + b + d == a + (b + d) && [] + a == a
  {
  }

  lemma {:induction false} TtyPacketsFront(ttys: seq<Tty>)
    requires ttys != []
    ensures TtyPackets(ttys) == [TtyFds(ttys[0].ptx, ttys[0].pty)] + TtyPackets(ttys[1..])
  {
    if |ttys| > 1 {
      TtyPacketsFront(ttys[..|ttys| - 1]);
      assert ttys[..|ttys| - 1][1..] == ttys[1..][..|ttys| - 2];
    }
  }

  lemma {:induction false} DevicePacketsFront(devices: seq<Netdev>)
    requires devices != []
    ensures DevicePackets(devices) ==
            [DeviceName(devices[0].name), DeviceIndex(devices[0].ifindex)] + DevicePackets(devices[1..])
  {
    if |devices| > 1 {
      DevicePacketsFront(devices[..|devices| - 1]);
      assert devices[..|devices| - 1][1..] == devices[1..][..|devices| - 2];
    }
  }

  method RecvTtys(sock: Socket, max: nat, ghost sent: seq<Tty>, ghost rest: seq<Packet>) returns (ttys: seq<Tty>)
    requires |sent| == max && sock.queue == TtyPackets(sent) + rest
    modifies sock
    ensures ttys == sent && sock.queue == rest
  {
    ttys := [];
    for i := 0 to max
      invariant ttys == sent[..i] && sock.queue == TtyPackets(sent[i..]) + rest
    {
      TtyPacketsFront(sent[i..]);
      assert sent[i..][1..] == sent[i + 1..];
      var p := sock.Recv();
      ttys := ttys + [Tty(p.ptx, p.pty)];
    }
  }

  /** The last byte of the name is overwritten with a terminator. */
  function Terminated(name: string): (r: string)
    ensures |r| < 16 && r <= name && (|name| < 16 ==> r == name) && (|name| >= 16 ==> |r| == 15)
  {
    if |name| < IFNAMSIZ then name else name[..IFNAMSIZ - 1]
  }

  lemma DeviceComesNext(sent: seq<Netdev>, i: nat, rest: seq<Packet>)
    requires i < |sent|
    ensures DevicePackets(sent[i..]) + rest ==
            [DeviceName(sent[i].name), DeviceIndex(sent[i].ifindex)] + (DevicePackets(sent[i + 1..]) + rest)
  {
    DevicePacketsFront(sent[i..]);
    assert sent[i..][1..] == sent[i + 1..];
  }

  method RecvDevice(sock: Socket, ghost sent: Netdev, ghost rest: seq<Packet>) returns (device: Netdev)
    requires sock.queue == [DeviceName(sent.name), DeviceIndex(sent.ifindex)] + rest && |sent.name| < IFNAMSIZ
    modifies sock
    ensures device == sent && sock.queue == rest
  {
    var p := sock.Recv();
    var q := sock.Recv();
    device := Netdev(Terminated(p.name), q.ifindex);
  }

  method RecvDevices(sock: Socket, netdevs: nat, ghost sent: seq<Netdev>, ghost rest: seq<Packet>)
    returns (devices: seq<Netdev>)
    requires |sent| == netdevs && sock.queue == DevicePackets(sent) + rest
    requires forall i | 0 <= i < |sent| :: |sent[i].name| < IFNAMSIZ
    modifies sock
    ensures devices == sent && sock.queue == rest
  {
    devices := [];
    for i := 0 to netdevs
      invariant devices == sent[..i] && sock.queue == DevicePackets(sent[i..]) + rest
    {
      DeviceComesNext(sent, i, rest);
      var device := RecvDevice(sock, sent[i], DevicePackets(sent[i + 1..]) + rest);
      devices := devices + [device];
    }
  }

  /** What the parent ends up with: the child's things where it asked for them. */
  function Received(c: Config, own: Holdings, h: Holdings): Holdings {
    Holdings(if c.wantsSupervision then h.notifyFd else own.notifyFd,
             if c.ptyMax > 0 then h.devptsFd else own.devptsFd,
             h.ttys,
             if c.newNet && c.amRoot then h.devices else own.devices,
             if c.wantsConsole && own.console.pty < 0 then h.console else own.console)
  }

  /** The descriptors that travel with a packet. */
  function FdsOf(p: Packet): seq<int> {
    match p
    case NotifyFd(fd) => [fd]
    case DevptsFd(fd) => [fd]
    case TtyFds(ptx, pty) => [ptx, pty]
    case DeviceName(_) => []
    case DeviceIndex(_) => []
    case ConsoleFds(ptx, pty, _) => [ptx, pty]
  }

  /** What recvmsg() delivers: the next packet, or end of file when nothing is left. */
  function Delivery(queue: seq<Packet>): UnixFds.Incoming {
    if queue == [] then UnixFds.EndOfFile else UnixFds.Data(1, FdsOf(queue[0]), false)
  }

  /** lxc_recv_devpts_from_child(), whatever comes next. */
  method RecvDevpts(sock: Socket, k: UnixFds.Closer) returns (ret: int, fd: int)
    requires forall x <- UnixFds.Rights(Delivery(sock.queue)) :: x >= 0
    modifies sock, k
    ensures ret >= 0 <==> old(sock.queue) != [] && |FdsOf(old(sock.queue)[0])| <= 1
    ensures fd == if ret >= 0 && |FdsOf(old(sock.queue)[0])| == 1 then FdsOf(old(sock.queue)[0])[0] else -EBADF
    ensures k.closed == old(k.closed) + if ret >= 0 then [] else UnixFds.Rights(Delivery(old(sock.queue)))
    ensures sock.queue == if old(sock.queue) == [] then [] else old(sock.queue[1..])
  {
    var msg := Delivery(sock.queue);
    assert msg.Data? ==> UnixFds.Rights(msg) == msg.rights;
    assert UnixFds.WellFormed(msg);
    if sock.queue != [] {
      UnixFds.OneOrNone(msg);
      var p := sock.Recv();
    }
    ret, fd := UnixFds.RecvOneFd(k, msg, true);
  }

  predicate DevptsArrives(broken: set<nat>, c: Config) {
    c.ptyMax <= 0 || DevptsAt(c) !in broken
  }

  /** The names of devices are next after the devpts descriptor. */
  predicate NamesComeNext(c: Config) {
    c.ttysMax == 0 && c.newNet && c.amRoot && c.netdevs > 0
  }

  lemma TtyComesFirst(c: Config, h: Holdings)
    requires h.ttys != []
    ensures Late(c, h) != [] && Late(c, h)[0] == TtyFds(h.ttys[0].ptx, h.ttys[0].pty)
  {
    TtyPacketsFront(h.ttys);
  }

  lemma NameComesFirst(c: Config, h: Holdings)
    requires h.ttys == [] && c.newNet && c.amRoot && h.devices != []
    ensures Late(c, h) != [] && Late(c, h)[0] == DeviceName(h.devices[0].name)
  {
    DevicePacketsFront(h.devices);
  }

  lemma ConsoleComesFirst(c: Config, h: Holdings)
    requires h.ttys == [] && (!(c.newNet && c.amRoot) || h.devices == [])
    ensures Late(c, h) == ConsolePackets(c, h)
  {
  }

  /** Without ttys and devices the console comes next, if anything. */
  lemma NextPacket(c: Config, h: Holdings)
    requires Fits(c, h)
    ensures var late := Late(c, h);
      && (NamesComeNext(c) <==> late != [] && FdsOf(late[0]) == [])
      && (late != [] ==> |FdsOf(late[0])| != 1 && forall x <- FdsOf(late[0]) :: x >= 0)
  {
    if c.ttysMax > 0 {
      TtyComesFirst(c, h);
    } else if NamesComeNext(c) {
      NameComesFirst(c, h);
    } else {
      ConsoleComesFirst(c, h);
    }
  }

  /** How the parent's side can end. */
  datatype Outcome = Done(got: Holdings) | Refused(ret: int) | OutOfStep(got: Holdings)

  /**
   * The parent's side, after any success of the child's.  If everything has arrived the
   * parent takes every packet for what it is and leaves none behind.  If the devpts
   * descriptor was lost, the packet that comes in its place is refused and its
   * descriptors are closed, or nothing comes at all; only a device name, which carries no
   * descriptor, is taken for an answer, and from then on the parent is out of step.
   */
  method SyncFdsParent(sock: Socket, k: UnixFds.Closer, c: Config, own: Holdings, ghost h: Holdings,
                       ghost ptx: int, ghost pty: int, ghost name: string)
    returns (r: Outcome)
    requires Fits(c, h) && pty >= 0 && h.console == SetupConsole(c, own.console, ptx, pty, name)
    requires sock.queue == Delivered(sock.broken, c, h)
    modifies sock, k
    ensures DevptsArrives(sock.broken, c) ==>
      r == Done(Received(c, own, h)) && sock.queue == [] && k.closed == old(k.closed)
    ensures !DevptsArrives(sock.broken, c) && NamesComeNext(c) ==>
      r.OutOfStep? && r.got.devptsFd == -EBADF && k.closed == old(k.closed)
    ensures !DevptsArrives(sock.broken, c) && !NamesComeNext(c) ==>
      r.Refused? && r.ret < 0 && k.closed == old(k.closed) + UnixFds.Rights(Delivery(Late(c, h)))
  {
    var got := own;
    if c.wantsSupervision {
      var p := sock.Recv();
      got := got.(notifyFd := p.fd);
    }
    assert sock.queue == Arriving(sock.broken, DevptsAt(c), DevptsPackets(c, h)) + Late(c, h);
    r := TakeDevpts(sock, k, c, got, h);
    if r.Done? {
      got := RecvLate(sock, c, r.got, h, ptx, pty, name);
      r := Done(got);
    }
  }

  method TakeDevpts(sock: Socket, k: UnixFds.Closer, c: Config, own: Holdings, ghost h: Holdings)
    returns (r: Outcome)
    requires Fits(c, h) && sock.queue == Arriving(sock.broken, DevptsAt(c), DevptsPackets(c, h)) + Late(c, h)
    modifies sock, k
    ensures DevptsArrives(sock.broken, c) ==>
      && r == Done(own.(devptsFd := if c.ptyMax > 0 then h.devptsFd else own.devptsFd))
      && sock.queue == Late(c, h) && k.closed == old(k.closed)
    ensures !DevptsArrives(sock.broken, c) && NamesComeNext(c) ==>
      r == OutOfStep(own.(devptsFd := -EBADF)) && k.closed == old(k.closed)
    ensures !DevptsArrives(sock.broken, c) && !NamesComeNext(c) ==>
      r.Refused? && r.ret < 0 && k.closed == old(k.closed) + UnixFds.Rights(Delivery(Late(c, h)))
  {
    if c.ptyMax <= 0 {
      return Done(own);
    }
    NextPacket(c, h);
    ghost var arrives := DevptsArrives(sock.broken, c);
    assert arrives ==> sock.queue[0] == DevptsFd(h.devptsFd) && sock.queue[1..] == Late(c, h);
    assert !arrives ==> sock.queue == Late(c, h);
    var ret, fd := RecvDevpts(sock, k);
    if ret < 0 {
      r := Refused(ret);
    } else if fd == -EBADF {
      r := OutOfStep(own.(devptsFd := fd));
    } else {
      r := Done(own.(devptsFd := fd));
    }
  }

  /** The rest of the parent's side, when the devpts descriptor is there or not wanted. */
  method RecvLate(sock: Socket, c: Config, own: Holdings, ghost h: Holdings,
                  ghost ptx: int, ghost pty: int, ghost name: string)
    returns (got: Holdings)
    requires Fits(c, h) && pty >= 0 && h.console == SetupConsole(c, own.console, ptx, pty, name)
    requires sock.queue == Late(c, h)
    modifies sock
    ensures sock.queue == []
    ensures got == own.(ttys := h.ttys, devices := if c.newNet && c.amRoot then h.devices else own.devices,
                        console := if c.wantsConsole && own.console.pty < 0 then h.console else own.console)
  {
    var ttys := RecvTtys(sock, c.ttysMax, h.ttys, NetPackets(c, h) + ConsolePackets(c, h));
    got := own.(ttys := ttys);
    if c.newNet && c.amRoot {
      var devices := RecvDevices(sock, c.netdevs, h.devices, ConsolePackets(c, h));
      got := got.(devices := devices);
    }
    assert sock.queue == ConsolePackets(c, h);
    if c.wantsConsole && got.console.pty < 0 {
      var p := sock.Recv();
      got := got.(console := p.terminal.(ptx := p.ptx, pty := p.pty));
    }
  }

  lemma {:induction false} KindsLength(ps: seq<Packet>)
    ensures |Kinds(ps)| == |ps|
  {
    if ps != [] {
      KindsLength(ps[..|ps| - 1]);
    }
  }

  /**
   * When the child's side reports success, what arrives is what the parent awaits
   * exactly if the devpts descriptor was not wanted or could be sent: its loss is the
   * only one that goes unnoticed.
   */
  lemma ArrivesAsAwaitedExactlyWhen(broken: set<nat>, c: Config, h: Holdings, console: Terminal,
                                    ptx: int, pty: int, name: string)
    requires Fits(c, h) && pty >= 0 && h.console == SetupConsole(c, console, ptx, pty, name)
    requires !Noticed(broken, c, h)
    ensures Kinds(Delivered(broken, c, h)) == Awaited(c, console) <==> DevptsArrives(broken, c)
  {
    SentIsAwaited(c, h, console, ptx, pty, name);
    KindsLength(Packets(c, h));
    KindsLength(Delivered(broken, c, h));
  }

  /** A container with a devpts instance and a tty whose devpts descriptor cannot be sent. */
  lemma DevptsIsLost()
    ensures
      var c := Config(false, 1024, 1, false, false, 0, false);
      var h := Holdings(-EBADF, 7, [Tty(8, 9)], [], Terminal(-EBADF, -EBADF, ""));
      var broken := {0};
      !Noticed(broken, c, h) && Kinds(Delivered(broken, c, h)) != Awaited(c, h.console)
  {
    var c := Config(false, 1024, 1, false, false, 0, false);
    var h := Holdings(-EBADF, 7, [Tty(8, 9)], [], Terminal(-EBADF, -EBADF, ""));
    assert h.ttys[..0] == [];
    assert TtyPackets(h.ttys) == [TtyFds(8, 9)];
    ArrivesAsAwaitedExactlyWhen({0}, c, h, h.console, 0, 0, "");
  }
}
