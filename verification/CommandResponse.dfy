/** lxc_cmd_rsp_recv(): where the descriptors that come with a command's response end up. */
module CommandResponse {
  import opened Libc
  import opened UnixFds

  const GET_TTY_FD := 0
  const CONSOLE_LOG := 11
  const GET_CGROUP2_FD := 17
  const GET_INIT_PIDFD := 18
  const GET_LIMIT_CGROUP2_FD := 20
  const GET_DEVPTS_FD := 21
  const GET_SECCOMP_NOTIFY_FD := 22
  const GET_CGROUP_CTX := 23
  const GET_CGROUP_FD := 24
  const GET_LIMIT_CGROUP_FD := 25

  const CGROUP_CTX_MAX_FD: nat := 20
  const CMD_DATA_MAX := 8192
  const SIZEOF_CGROUP_FD := 80
  const SIZEOF_CGROUP_CTX := 96

  /** struct lxc_cmd_rsp as received; data doubles as an integer. */
  datatype Reply = Reply(ret: int, datalen: int, data: int)

  /** The second receive: how many bytes came, and ctx->fd_len in them. */
  datatype Payload = Payload(bytes: int, fdLen: nat)

  /** The one response field that ends up holding descriptors. */
  datatype Owner =
    | NoOne
    | DataField(fd: int)
    | TtyField(ptxfd: int, ttynum: int)
    | CtxField(fds: seq<int>)
    | CgroupFdField(fd: int)

  function Owned(o: Owner): seq<int> {
    match o
    case NoOne => []
    case DataField(fd) => Live([fd])
    case TtyField(fd, _) => Live([fd])
    case CtxField(fds) => Live(fds)
    case CgroupFdField(fd) => Live([fd])
  }

  /** Commands whose whole answer is one descriptor. */
  predicate PlainFd(cmd: int) {
    cmd in {GET_CGROUP2_FD, GET_LIMIT_CGROUP2_FD, GET_INIT_PIDFD, GET_DEVPTS_FD, GET_SECCOMP_NOTIFY_FD}
  }

  predicate CgroupFd(cmd: int) { cmd == GET_CGROUP_FD || cmd == GET_LIMIT_CGROUP_FD }

  function MaxFds(cmd: int): nat {
    if PlainFd(cmd) || CgroupFd(cmd) || cmd == GET_TTY_FD then 1
    else if cmd == GET_CGROUP_CTX then CGROUP_CTX_MAX_FD
    else 0
  }

  function AcceptFlags(cmd: int): bv32 {
    if PlainFd(cmd) || CgroupFd(cmd) || cmd == GET_TTY_FD then ACCEPT_EXACT | ACCEPT_NONE
    else if cmd == GET_CGROUP_CTX then ACCEPT_LESS | ACCEPT_NONE
    else 0
  }

  lemma RequestIsAcceptable(cmd: int)
    ensures FlagsAccepted(AcceptFlags(cmd)) && MaxFds(cmd) < KERNEL_SCM_MAX_FD
  {
    var f := AcceptFlags(cmd);
    assert f & !ACCEPT_MASK == 0 && (f & !ACCEPT_NONE) & !ACCEPT_MASK == 0;
    HweightAccept(f & !ACCEPT_NONE);
  }

  lemma {:induction false} OneSlot(x: int)
    ensures Live([x]) == if x >= 0 then [x] else []
  {
    assert [x][..0] == [];
  }

  /** The first receive: what lxc_cmd_rsp_recv_fds() leaves in the set. */
  predicate FirstReceive(cmd: int, msg: Incoming, memory: bool) {
    memory && (msg.EndOfFile? || Accepts(MaxFds(cmd), AcceptFlags(cmd), msg))
  }

  // ---- what is to come of a response ------------------------------------------------

  /** The commands that are answered with one descriptor, */
  const FD_COMMANDS := [GET_CGROUP2_FD, GET_LIMIT_CGROUP2_FD, GET_INIT_PIDFD, GET_DEVPTS_FD, GET_SECCOMP_NOTIFY_FD]

  /** and those whose descriptor goes with further data. */
  const CGROUP_COMMANDS := [GET_CGROUP_FD, GET_LIMIT_CGROUP_FD]

  /** How many descriptors may come with the first message. */
  predicate NumberFine(cmd: int, n: nat) {
    if cmd in FD_COMMANDS || cmd in CGROUP_COMMANDS || cmd == GET_TTY_FD then n <= 1
    else if cmd == GET_CGROUP_CTX then n <= CGROUP_CTX_MAX_FD
    else n == 0
  }

  predicate FirstFine(cmd: int, msg: Incoming) {
    msg.EndOfFile? || (msg.Data? && (msg.rights != [] ==> !msg.truncated) && NumberFine(cmd, |msg.rights|))
  }

  /** The flags and counts of the request amount to this. */
  lemma FirstReceiveExactlyWhen(cmd: int, msg: Incoming, memory: bool)
    ensures FirstReceive(cmd, msg, memory) <==> memory && FirstFine(cmd, msg)
  {
    WhichCommands(cmd);
    assert (ACCEPT_EXACT | ACCEPT_NONE) & ACCEPT_LESS == 0 && (ACCEPT_EXACT | ACCEPT_NONE) & ACCEPT_MORE == 0;
    assert (ACCEPT_EXACT | ACCEPT_NONE) & ACCEPT_NONE != 0 && (ACCEPT_LESS | ACCEPT_NONE) & ACCEPT_NONE != 0;
    assert (ACCEPT_LESS | ACCEPT_NONE) & ACCEPT_LESS != 0 && (ACCEPT_LESS | ACCEPT_NONE) & ACCEPT_MORE == 0;
    assert (0 as bv32) & ACCEPT_LESS == 0 && (0 as bv32) & ACCEPT_MORE == 0;
  }

  lemma WhichCommands(cmd: int)
    ensures PlainFd(cmd) <==> cmd in FD_COMMANDS
    ensures CgroupFd(cmd) <==> cmd in CGROUP_COMMANDS
  {
  }

  /** The data that were announced are there. */
  predicate PayloadComes(rsp: Reply, buffer: bool, payload: Payload) {
    rsp.datalen > 0 ==> buffer && payload.bytes == rsp.datalen
  }

  /** A response that came in is accepted. */
  predicate Accepted(cmd: int, msg: Incoming, rsp: Reply, buffer: bool, payload: Payload) {
    && (rsp.datalen <= CMD_DATA_MAX || cmd == CONSOLE_LOG)
    && (if cmd in FD_COMMANDS then true
        else if cmd == GET_TTY_FD then msg.EndOfFile? || rsp.ret < 0 || buffer
        else if cmd in CGROUP_COMMANDS then 0 <= rsp.datalen <= SIZEOF_CGROUP_FD && PayloadComes(rsp, buffer, payload)
        else if cmd == GET_CGROUP_CTX then
          && 0 <= rsp.datalen <= SIZEOF_CGROUP_CTX && PayloadComes(rsp, buffer, payload)
          && (rsp.datalen > 0 ==> payload.fdLen == |Rights(msg)|)
        else PayloadComes(rsp, buffer, payload))
  }

  function FirstBytes(msg: Incoming): nat { if msg.Data? then msg.bytes else 0 }

  /** What is returned for it. */
  function Returned(cmd: int, msg: Incoming, rsp: Reply): int {
    if cmd in FD_COMMANDS then 0
    else if cmd == GET_TTY_FD then if rsp.ret < 0 then 0 else FirstBytes(msg)
    else if rsp.datalen > 0 then rsp.datalen
    else FirstBytes(msg)
  }

  /** Which field holds which descriptors. */
  predicate InItsField(cmd: int, msg: Incoming, rsp: Reply, owner: Owner) {
    var fd := if Rights(msg) == [] then -EBADF else Rights(msg)[0];
    if cmd in FD_COMMANDS then owner == DataField(fd)
    else if cmd == GET_TTY_FD && msg.Data? && rsp.ret >= 0 then owner == TtyField(fd, rsp.data)
    else if cmd in CGROUP_COMMANDS && rsp.datalen > 0 then owner == CgroupFdField(fd)
    else if cmd == GET_CGROUP_CTX && rsp.datalen > 0 then owner == CtxField(Rights(msg))
    else owner == NoOne
  }

  /** The response is taken as it should be, or refused. */
  predicate Settled(cmd: int, msg: Incoming, rsp: Reply, buffer: bool, payload: Payload, ret: int, owner: Owner) {
    if Accepted(cmd, msg, rsp, buffer, payload)
    then ret == Returned(cmd, msg, rsp) && InItsField(cmd, msg, rsp, owner)
    else ret < 0 && owner == NoOne
  }

  /** The set and the field together own what has come, each descriptor once. */
  ghost predicate Conserved(fds: UnixFdSet, msg: Incoming, owner: Owner)
    requires fds.Valid()
    reads fds, fds.fd
  {
    if owner.NoOne? then Live(fds.Held()) == Rights(msg) else Live(fds.Held()) == [] && Owned(owner) == Rights(msg)
  }

  lemma TooLongIsRefused(cmd: int, msg: Incoming, rsp: Reply, buffer: bool, payload: Payload)
    requires rsp.datalen > CMD_DATA_MAX && cmd != CONSOLE_LOG
    ensures Settled(cmd, msg, rsp, buffer, payload, -E2BIG, NoOne)
  {
  }

  /**
   * The part after the first receive.  The set still owns what it holds when this
   * returns; the caller's cleanup closes it.
   */
  method Dispatch(fds: UnixFdSet, cmd: int, msg: Incoming, bytes: int, rsp: Reply, buffer: bool, payload: Payload)
    returns (ret: int, owner: Owner)
    requires fds.Valid() && WellFormed(msg) && (msg.EndOfFile? || msg.Data?) && bytes == FirstBytes(msg)
    requires fds.Held() == Rights(msg) && |Rights(msg)| <= MaxFds(cmd)
    requires Rights(msg) == [] ==> fds.fd[0] == -EBADF
    modifies fds`fdCountRet, fds.fd
    ensures fds.Valid() && Conserved(fds, msg, owner)
    ensures Settled(cmd, msg, rsp, buffer, payload, ret, owner)
  {
    if rsp.datalen > CMD_DATA_MAX && cmd != CONSOLE_LOG {
      AllLive(Rights(msg));
      TooLongIsRefused(cmd, msg, rsp, buffer, payload);
      return -E2BIG, NoOne;
    }
    if PlainFd(cmd) {
      ret, owner := TakePlain(fds, cmd, msg, rsp, buffer, payload);
    } else if cmd == GET_TTY_FD {
      ret, owner := TakeTty(fds, cmd, msg, bytes, rsp, buffer, payload);
    } else {
      ret, owner := TakePayload(fds, cmd, msg, bytes, rsp, buffer, payload);
    }
  }

  method TakePlain(fds: UnixFdSet, cmd: int, msg: Incoming, rsp: Reply, buffer: bool, payload: Payload)
    returns (ret: int, owner: Owner)
    requires fds.Valid() && WellFormed(msg) && fds.Held() == Rights(msg) && |Rights(msg)| <= 1
    requires PlainFd(cmd) && rsp.datalen <= CMD_DATA_MAX
    requires Rights(msg) == [] ==> fds.fd[0] == -EBADF
    modifies fds.fd
    ensures fds.Valid() && Conserved(fds, msg, owner)
    ensures Settled(cmd, msg, rsp, buffer, payload, ret, owner)
  {
    WhichCommands(cmd);
    var x := TakeOnly(fds, msg);
    return 0, DataField(x);
  }

  /** A terminal: datalen is set to 0, so there is no second receive. */
  method TakeTty(fds: UnixFdSet, cmd: int, msg: Incoming, bytes: int, rsp: Reply, buffer: bool, payload: Payload)
    returns (ret: int, owner: Owner)
    requires fds.Valid() && WellFormed(msg) && (msg.EndOfFile? || msg.Data?) && bytes == FirstBytes(msg)
    requires fds.Held() == Rights(msg) && |Rights(msg)| <= 1 && cmd == GET_TTY_FD && rsp.datalen <= CMD_DATA_MAX
    requires Rights(msg) == [] ==> fds.fd[0] == -EBADF
    modifies fds.fd
    ensures fds.Valid() && Conserved(fds, msg, owner)
    ensures Settled(cmd, msg, rsp, buffer, payload, ret, owner)
  {
    AllLive(Rights(msg));
    if bytes == 0 || rsp.ret < 0 {
      return 0, NoOne;
    }
    if !buffer {
      return -ENOMEM, NoOne;
    }
    var x := TakeOnly(fds, msg);
    return bytes, TtyField(x, rsp.data);
  }

  /** The data that have been announced, and the descriptors that go with them. */
  method TakePayload(fds: UnixFdSet, cmd: int, msg: Incoming, bytes: int, rsp: Reply, buffer: bool, payload: Payload)
    returns (ret: int, owner: Owner)
    requires fds.Valid() && WellFormed(msg) && (msg.EndOfFile? || msg.Data?) && bytes == FirstBytes(msg)
    requires fds.Held() == Rights(msg) && |Rights(msg)| <= MaxFds(cmd)
    requires !PlainFd(cmd) && cmd != GET_TTY_FD && (rsp.datalen <= CMD_DATA_MAX || cmd == CONSOLE_LOG)
    requires Rights(msg) == [] ==> fds.fd[0] == -EBADF
    modifies fds`fdCountRet, fds.fd
    ensures fds.Valid() && Conserved(fds, msg, owner)
    ensures Settled(cmd, msg, rsp, buffer, payload, ret, owner)
  {
    WhichCommands(cmd);
    AllLive(Rights(msg));
    if CgroupFd(cmd) && (rsp.datalen < 0 || rsp.datalen > SIZEOF_CGROUP_FD) {
      return -EINVAL, NoOne;
    }
    if cmd == GET_CGROUP_CTX && (rsp.datalen < 0 || rsp.datalen > SIZEOF_CGROUP_CTX) {
      return -EINVAL, NoOne;
    }
    if rsp.datalen <= 0 {
      return bytes, NoOne;
    }
    if !buffer {
      return -ENOMEM, NoOne;
    }
    ret := payload.bytes;
    if ret != rsp.datalen {
      return -EIO, NoOne;
    }
    owner := NoOne;
    if cmd == GET_CGROUP_CTX {
      if payload.fdLen != fds.fdCountRet || fds.fdCountRet > CGROUP_CTX_MAX_FD {
        return -EINVAL, NoOne;
      }
      owner := CtxField(fds.fd[..payload.fdLen]);
      fds.fdCountRet := 0;
      assert fds.Held() == [] && Live([]) == [];
    } else if CgroupFd(cmd) {
      var x := TakeOnly(fds, msg);
      owner := CgroupFdField(x);
    }
  }

  /** move_fd(fds->fd[0]) for a set that holds at most one descriptor. */
  method TakeOnly(fds: UnixFdSet, msg: Incoming) returns (x: int)
    requires fds.Valid() && WellFormed(msg) && fds.Held() == Rights(msg) && |Rights(msg)| <= 1
    requires Rights(msg) == [] ==> fds.fd[0] == -EBADF
    modifies fds.fd
    ensures fds.Valid() && x == Only(msg) && Live([x]) == Rights(msg) && Live(fds.Held()) == []
  {
    assert Rights(msg) != [] ==>
      fds.fd[0] == fds.Held()[0] && Rights(msg) == [Rights(msg)[0]] && Rights(msg)[0] in msg.rights;
    x := fds.Move(0);
    assert fds.Held() == [] || fds.Held() == [-EBADF];
    OneSlot(x);
    OneSlot(-EBADF);
    assert Live([]) == [];
  }

  /**
   * For every command, message and failure: which responses are accepted, what is then
   * returned and in which field the descriptors are; every other response is an error.
   * Every descriptor is closed once or ends in that one field, and on every error path
   * all of them are closed.
   */
  method CmdRspRecv(k: Closer, cmd: int, msg: Incoming, memory: bool, rsp: Reply, buffer: bool, payload: Payload)
    returns (ret: int, owner: Owner)
    requires WellFormed(msg)
    modifies k
    ensures if memory && FirstFine(cmd, msg) && Accepted(cmd, msg, rsp, buffer, payload)
            then ret == Returned(cmd, msg, rsp) && InItsField(cmd, msg, rsp, owner)
            else ret < 0 && owner == NoOne
    ensures owner.NoOne? ==> k.closed == old(k.closed) + if memory then Rights(msg) else []
    ensures !owner.NoOne? ==> k.closed == old(k.closed) && Owned(owner) == Rights(msg)
  {
    var fds := new UnixFdSet(MaxFds(cmd), AcceptFlags(cmd));
    FirstReceiveExactlyWhen(cmd, msg, memory);
    ret := RecvFirst(k, fds, cmd, msg, memory);
    if ret < 0 {
      owner := NoOne;
      assert Live([]) == [];
    } else {
      ret, owner := Dispatch(fds, cmd, msg, ret, rsp, buffer, payload);
    }
    fds.Put(k);
  }

  /** lxc_cmd_rsp_recv_fds() */
  method RecvFirst(k: Closer, fds: UnixFdSet, cmd: int, msg: Incoming, memory: bool) returns (ret: int)
    requires fds.Valid() && WellFormed(msg) && fds.fd[0] == -EBADF
    requires fds.fdCountMax == MaxFds(cmd) && fds.flags == AcceptFlags(cmd) && fds.fdCountRet == 0
    modifies k, fds`fdCountRet, fds`flags, fds.fd
    ensures fds.Valid()
    ensures if FirstReceive(cmd, msg, memory)
            then ret == (if msg.EndOfFile? then 0 else msg.bytes) && k.closed == old(k.closed)
                 && fds.Held() == Rights(msg) && |Rights(msg)| <= MaxFds(cmd)
            else ret < 0 && fds.Held() == [] && k.closed == old(k.closed) + if memory then Rights(msg) else []
    ensures Rights(msg) == [] ==> fds.fd[0] == -EBADF
  {
    RequestIsAcceptable(cmd);
    ret := fds.RecvFds(k, msg, memory);
    if ret >= 0 {
      NoExcess(cmd, msg);
      assert Rights(msg)[..|Rights(msg)|] == Rights(msg);
    }
    assert fds.fd[..][0] == fds.fd[0] && old(fds.fd[..])[0] == -EBADF;
  }

  /** No command accepts more descriptors than it has room for. */
  lemma NoExcess(cmd: int, msg: Incoming)
    requires msg.EndOfFile? || Accepts(MaxFds(cmd), AcceptFlags(cmd), msg)
    ensures |Rights(msg)| <= MaxFds(cmd)
  {
    assert AcceptFlags(cmd) & ACCEPT_MORE == 0;
  }
}
