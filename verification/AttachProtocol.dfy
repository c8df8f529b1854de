/**
 * lxc_attach() forks a transient process, which enters the container's
 * namespaces and clones the attached process.  The three coordinate over one
 * stream socket pair.  Every call whose result the code tests is represented by
 * one recorded outcome per call site; the interleaving of the three processes is
 * a schedule.  Statements about all schedules and all outcomes are therefore
 * statements about all runs.
 */
module AttachProtocol {

  datatype Process = Parent | Transient | Attached

  /** What the caller asked for and what the container is configured with. */
  datatype Options = Options(
    moveToCgroup: bool,   // LXC_ATTACH_MOVE_TO_CGROUP
    terminal: bool,       // LXC_ATTACH_TERMINAL
    lsmLabel: bool,       // attach_lsm(options) && ctx->lsm_label
    seccomp: bool,        // conf->seccomp.seccomp
    supervision: bool,    // the seccomp notifier wants supervision
    viaPidfd: bool,       // ctx->init_pidfd >= 0: one setns() enters everything
    nsFds: nat)           // otherwise: how many namespace descriptors are open

  /** One entry per call site: does the call succeed when it is reached? */
  datatype Outcomes = Outcomes(
    // initial process
    cgroup: bool, closeSelfInParent: bool, closeInitInParent: bool,
    proc: bool, limits: bool, mainloopInit: bool, sendWake: bool,
    readPid: bool, waitTransient: bool, openLabel: bool, sendLabel: bool,
    readNotifier: bool, addNotifier: bool, mainloop: bool,
    // transient process
    readWake: bool, closeSelf: bool, closeInit: bool,
    failSetns: set<nat>, failCloseNs: set<nat>, clone: bool, sendPid: bool,
    // attached process
    sigmask: bool, setup: bool, readLabel: bool, credentials: bool,
    loadSeccomp: bool, sendNotifier: bool, switchIds: bool, program: int)

  datatype Message = WakeUp | AttachedPid | LabelFd | NotifierFd

  /** Program counter of the initial process: positions in lxc_attach()'s parent branch. */
  type ParentPc = n: nat | n <= 18

  const P_CLOSE_CHILD_END: ParentPc := 0
  const P_MOVE_TO_CGROUP: ParentPc := 1
  const P_CLOSE_SELF: ParentPc := 2
  const P_CLOSE_INIT: ParentPc := 3
  const P_SETUP_PROC: ParentPc := 4
  const P_SETUP_LIMITS: ParentPc := 5
  const P_INIT_MAINLOOP: ParentPc := 6
  const P_SEND_WAKE: ParentPc := 7
  const P_AWAIT_PID: ParentPc := 8
  const P_REAP_TRANSIENT: ParentPc := 9
  const P_OPEN_LABEL: ParentPc := 10
  const P_SEND_LABEL: ParentPc := 11
  const P_AWAIT_NOTIFIER: ParentPc := 12
  const P_ADD_NOTIFIER: ParentPc := 13
  const P_HAND_OVER: ParentPc := 14
  const P_MAINLOOP: ParentPc := 15
  const P_SHUT_DOWN: ParentPc := 16
  const P_REAP: ParentPc := 17
  const P_RETURNED: ParentPc := 18

  datatype TransientPc =
    | TCloseParentEnd | TAwaitWake | TCloseSelf | TCloseInit | TEnter(next: nat)
    | TClone | TSendPid | TFail | TExiting(ok: bool) | TExited(ok: bool)

  datatype AttachedPc =
    | ANotCreated | AStart | ASetup | AAwaitLabel | ACredentials | ALoadSeccomp
    | ASendNotifier | ASwitchIds | AFail | ARunProgram | AExited(code: int)

  /** One queue per direction, and who still holds which end. */
  datatype Socket = Socket(
    toChild: seq<Message>, toParent: seq<Message>, shut: bool,
    parentHolds0: bool, parentHolds1: bool,
    transientHolds0: bool, transientHolds1: bool, attachedHolds1: bool)

  /** What the parent did to the transient process. */
  datatype Setup = Setup(moved: bool, procSet: bool, limitsSet: bool)

  /** The transient process' own copy of the attach context. */
  datatype Context = Context(
    selfOpen: bool, initOpen: bool, entered: nat, closeError: bool, woken: bool)

  /** Whom the clean-up at the end of lxc_attach() still has to wait for. */
  datatype ToCleanUp = Nobody | OfTransient | OfAttached

  /** The parent's local variables. */
  datatype Books = Books(
    gotPid: bool, reapedTransient: bool, toCleanUp: ToCleanUp, labelSent: bool,
    handedOver: bool, ret: int, waitedTransient: nat, waitedAttached: nat)

  datatype State = State(
    parent: ParentPc, transient: TransientPc, attached: AttachedPc,
    sock: Socket, setup: Setup, ctx: Context, books: Books)

  /** Right after fork(): both processes hold both ends of the socket pair. */
  function Init(): State {
    State(P_CLOSE_CHILD_END, TCloseParentEnd, ANotCreated,
          Socket([], [], false, true, true, true, true, false),
          Setup(false, false, false),
          Context(true, true, 0, false, false),
          Books(false, false, OfTransient, false, false, -1, 0, 0))
  }

  // ---- the socket pair -------------------------------------------------

  predicate ParentEndOpen(k: Socket) { k.parentHolds0 || k.transientHolds0 }

  predicate ChildEndOpen(k: Socket) {
    k.parentHolds1 || k.transientHolds1 || k.attachedHolds1
  }

  /** A read returns at once: there is data, or there never will be. */
  predicate ChildReadable(k: Socket) { k.toChild != [] || k.shut || !ParentEndOpen(k) }

  predicate ParentReadable(k: Socket) { k.toParent != [] || k.shut || !ChildEndOpen(k) }

  predicate CanSendToChild(k: Socket) { !k.shut && ChildEndOpen(k) }

  predicate CanSendToParent(k: Socket) { !k.shut && ParentEndOpen(k) }

  predicate Heads(q: seq<Message>, m: Message) { q != [] && q[0] == m }

  function Tail(q: seq<Message>): seq<Message> {
    if q == [] then [] else q[1..]
  }

  // ---- the initial process ---------------------------------------------

  predicate ParentEnabled(c: Options, s: State) {
    if s.parent == P_AWAIT_PID then ParentReadable(s.sock)
    else if s.parent == P_REAP_TRANSIENT then s.transient.TExited?
    else if s.parent == P_AWAIT_NOTIFIER then c.seccomp && c.supervision ==> ParentReadable(s.sock)
    else if s.parent == P_REAP then (s.books.toCleanUp.OfTransient? ==> s.transient.TExited?)
                  && (s.books.toCleanUp.OfAttached? ==> s.attached.AExited?)
    else if s.parent == P_RETURNED then false
    else true
  }

  /** Does the call the parent makes here succeed? */
  predicate ParentOk(c: Options, o: Outcomes, s: State) {
    if s.parent == P_MOVE_TO_CGROUP then c.moveToCgroup ==> o.cgroup
    else if s.parent == P_CLOSE_SELF then o.closeSelfInParent
    else if s.parent == P_CLOSE_INIT then o.closeInitInParent
    else if s.parent == P_SETUP_PROC then o.proc
    else if s.parent == P_SETUP_LIMITS then o.limits
    else if s.parent == P_INIT_MAINLOOP then c.terminal ==> o.mainloopInit
    else if s.parent == P_SEND_WAKE then o.sendWake && CanSendToChild(s.sock)
    // a message that is not the pid is a short read
    else if s.parent == P_AWAIT_PID then o.readPid && Heads(s.sock.toParent, AttachedPid)
    else if s.parent == P_REAP_TRANSIENT then o.waitTransient && s.transient == TExited(true)
    else if s.parent == P_OPEN_LABEL then c.lsmLabel ==> o.openLabel
    else if s.parent == P_SEND_LABEL then c.lsmLabel ==> o.sendLabel && CanSendToChild(s.sock)
    else if s.parent == P_AWAIT_NOTIFIER then
      c.seccomp && c.supervision ==> o.readNotifier && Heads(s.sock.toParent, NotifierFd)
    else if s.parent == P_ADD_NOTIFIER then c.seccomp ==> o.addNotifier
    else if s.parent == P_MAINLOOP then c.terminal ==> o.mainloop
    else true
  }

  function ParentNext(p: ParentPc, ok: bool): ParentPc {
    if !ok then P_SHUT_DOWN else if p < P_RETURNED then p + 1 else p
  }

  function ParentSocket(c: Options, p: ParentPc, ok: bool, k: Socket): (r: Socket)
    ensures r.transientHolds0 == k.transientHolds0 && r.transientHolds1 == k.transientHolds1
    ensures r.attachedHolds1 == k.attachedHolds1
  {
    if p == P_CLOSE_CHILD_END then k.(parentHolds1 := false)
    else if p == P_SEND_WAKE then k.(toChild := if ok then k.toChild + [WakeUp] else k.toChild)
    else if p == P_AWAIT_PID then k.(toParent := Tail(k.toParent))
    else if p == P_SEND_LABEL then k.(toChild := if c.lsmLabel && ok then k.toChild + [LabelFd] else k.toChild)
    else if p == P_AWAIT_NOTIFIER then
      k.(toParent := if c.seccomp && c.supervision then Tail(k.toParent) else k.toParent)
    else if p == P_HAND_OVER then k.(shut := true, parentHolds0 := false)
    else if p == P_SHUT_DOWN then k.(shut := k.shut || k.parentHolds0, parentHolds0 := false)
    else k
  }

  function ParentSetup(c: Options, p: ParentPc, ok: bool, u: Setup): Setup {
    if p == P_MOVE_TO_CGROUP then u.(moved := c.moveToCgroup && ok)
    else if p == P_SETUP_PROC then u.(procSet := ok)
    else if p == P_SETUP_LIMITS then u.(limitsSet := ok)
    else u
  }

  function ParentBooks(c: Options, p: ParentPc, ok: bool, b: Books): Books {
    if p == P_AWAIT_PID then b.(gotPid := ok)
    else if p == P_REAP_TRANSIENT then b.(waitedTransient := b.waitedTransient + 1, reapedTransient := ok,
         toCleanUp := if ok then OfAttached else b.toCleanUp)
    else if p == P_SEND_LABEL then b.(labelSent := c.lsmLabel && ok)
    else if p == P_HAND_OVER then b.(handedOver := true, ret := 0, toCleanUp := Nobody)
    else if p == P_MAINLOOP then
      b.(ret := if ok then b.ret else -1, toCleanUp := if ok then b.toCleanUp else OfAttached)
    else if p == P_REAP then b.(waitedTransient := b.waitedTransient + (if b.toCleanUp.OfTransient? then 1 else 0),
         waitedAttached := b.waitedAttached + (if b.toCleanUp.OfAttached? then 1 else 0))
    else b
  }

  function ParentStep(c: Options, o: Outcomes, s: State): State {
    var ok := ParentOk(c, o, s);
    State(ParentNext(s.parent, ok), s.transient, s.attached,
          ParentSocket(c, s.parent, ok, s.sock), ParentSetup(c, s.parent, ok, s.setup),
          s.ctx, ParentBooks(c, s.parent, ok, s.books))
  }

  // ---- the transient process -------------------------------------------

  predicate TransientEnabled(s: State) {
    match s.transient
    case TAwaitWake => ChildReadable(s.sock)
    case TExited(_) => false
    case _ => true
  }

  predicate TransientOk(c: Options, o: Outcomes, s: State) {
    match s.transient
    // sync_wait() also reports success when read() returns 0
    case TAwaitWake => o.readWake && (s.sock.toChild == [] || Heads(s.sock.toChild, WakeUp))
    case TCloseSelf => o.closeSelf
    case TCloseInit => o.closeInit
    // attach_namespaces(): one setns() per iteration, close errors surface at the end
    case TEnter(i) =>
      if c.viaPidfd then 0 !in o.failSetns && 0 !in o.failCloseNs
      else if i < c.nsFds then i !in o.failSetns
      else !s.ctx.closeError
    case TClone => o.clone
    case TSendPid => o.sendPid && CanSendToParent(s.sock)
    case _ => true
  }

  function TransientNext(c: Options, t: TransientPc, ok: bool): TransientPc {
    if !ok then TFail else
    match t
    case TCloseParentEnd => TAwaitWake
    case TAwaitWake => TCloseSelf
    case TCloseSelf => TCloseInit
    case TCloseInit => TEnter(0)
    case TEnter(i) => if !c.viaPidfd && i < c.nsFds then TEnter(i + 1) else TClone
    case TClone => TSendPid
    case TSendPid => TExiting(true)
    case TFail => TExiting(false)
    case TExiting(b) => TExited(b)
    case TExited(b) => TExited(b)
  }

  function TransientSocket(t: TransientPc, ok: bool, k: Socket): (r: Socket)
    ensures r.parentHolds0 == k.parentHolds0 && r.parentHolds1 == k.parentHolds1
  {
    match t
    case TCloseParentEnd => k.(transientHolds0 := false)
    case TAwaitWake => k.(toChild := Tail(k.toChild))
    case TClone => k.(attachedHolds1 := ok)
    case TSendPid => k.(toParent := if ok then k.toParent + [AttachedPid] else k.toParent)
    case TFail => k.(shut := true)
    case TExiting(_) => k.(transientHolds0 := false, transientHolds1 := false)
    case _ => k
  }

  function TransientContext(c: Options, o: Outcomes, t: TransientPc, ok: bool, k: Socket, x: Context): Context {
    match t
    case TAwaitWake => x.(woken := ok && k.toChild != [])
    case TCloseSelf => x.(selfOpen := !ok)
    case TCloseInit => x.(initOpen := !ok)
    case TEnter(i) =>
      if c.viaPidfd then x.(entered := if 0 in o.failSetns then 0 else 1)
      else if i < c.nsFds && ok then
        x.(entered := x.entered + 1, closeError := x.closeError || i in o.failCloseNs)
      else x
    case _ => x
  }

  function TransientStep(c: Options, o: Outcomes, s: State): State {
    var ok := TransientOk(c, o, s);
    State(s.parent, TransientNext(c, s.transient, ok),
          if s.transient.TClone? && ok then AStart else s.attached,
          TransientSocket(s.transient, ok, s.sock), s.setup,
          TransientContext(c, o, s.transient, ok, s.sock, s.ctx), s.books)
  }

  // ---- the attached process --------------------------------------------

  predicate AttachedEnabled(c: Options, s: State) {
    match s.attached
    case ANotCreated => false
    case AAwaitLabel => c.lsmLabel ==> ChildReadable(s.sock)
    case AExited(_) => false
    case _ => true
  }

  predicate AttachedOk(c: Options, o: Outcomes, s: State) {
    match s.attached
    case AStart => c.terminal ==> o.sigmask
    case ASetup => o.setup
    case AAwaitLabel => c.lsmLabel ==> o.readLabel && Heads(s.sock.toChild, LabelFd)
    case ACredentials => o.credentials
    case ALoadSeccomp => c.seccomp ==> o.loadSeccomp
    case ASendNotifier =>
      c.seccomp && c.supervision ==> o.sendNotifier && CanSendToParent(s.sock)
    case ASwitchIds => o.switchIds
    case _ => true
  }

  function AttachedNext(o: Outcomes, a: AttachedPc, ok: bool): AttachedPc {
    if !ok then AFail else
    match a
    case ANotCreated => ANotCreated
    case AStart => ASetup
    case ASetup => AAwaitLabel
    case AAwaitLabel => ACredentials
    case ACredentials => ALoadSeccomp
    case ALoadSeccomp => ASendNotifier
    case ASendNotifier => ASwitchIds
    case ASwitchIds => ARunProgram
    case AFail => AExited(1)
    case ARunProgram => AExited(o.program)
    case AExited(n) => AExited(n)
  }

  function AttachedSocket(c: Options, a: AttachedPc, ok: bool, k: Socket): (r: Socket)
    ensures r.parentHolds0 == k.parentHolds0 && r.parentHolds1 == k.parentHolds1
    ensures r.transientHolds0 == k.transientHolds0 && r.transientHolds1 == k.transientHolds1
    ensures r.shut == k.shut
  {
    match a
    case AAwaitLabel => k.(toChild := if c.lsmLabel then Tail(k.toChild) else k.toChild)
    case ASendNotifier =>
      k.(toParent := if c.seccomp && c.supervision && ok then k.toParent + [NotifierFd] else k.toParent)
    case ASwitchIds => k.(attachedHolds1 := !ok)
    case AFail => k.(attachedHolds1 := false)
    case _ => k
  }

  function AttachedStep(c: Options, o: Outcomes, s: State): State {
    var ok := AttachedOk(c, o, s);
    State(s.parent, s.transient, AttachedNext(o, s.attached, ok),
          AttachedSocket(c, s.attached, ok, s.sock), s.setup, s.ctx, s.books)
  }

  // ---- runs -------------------------------------------------------------

  predicate Enabled(c: Options, s: State, p: Process) {
    match p
    case Parent => ParentEnabled(c, s)
    case Transient => TransientEnabled(s)
    case Attached => AttachedEnabled(c, s)
  }

  /** Scheduling a process that is blocked or gone changes nothing. */
  function Step(c: Options, o: Outcomes, s: State, p: Process): State {
    if !Enabled(c, s, p) then s
    else match p
      case Parent => ParentStep(c, o, s)
      case Transient => TransientStep(c, o, s)
      case Attached => AttachedStep(c, o, s)
  }

  function RunFrom(c: Options, o: Outcomes, s: State, schedule: seq<Process>): State
    decreases |schedule|
  {
    if schedule == [] then s
    else RunFrom(c, o, Step(c, o, s, schedule[0]), schedule[1..])
  }

  function Run(c: Options, o: Outcomes, schedule: seq<Process>): State {
    RunFrom(c, o, Init(), schedule)
  }
}
