/** What every step of the attach protocol keeps. */
module AttachInvariant {
  import opened AttachProtocol

  predicate AwaitingWake(t: TransientPc) { t.TCloseParentEnd? || t.TAwaitWake? }

  /** The transient process sent the pid, or it called shutdown(). */
  predicate Delivered(t: TransientPc) { t == TExiting(true) || t == TExited(true) }
  predicate Failed(t: TransientPc) { t == TExiting(false) || t == TExited(false) }

  predicate AwaitingLabel(a: AttachedPc) { a.AStart? || a.ASetup? || a.AAwaitLabel? }

  function Namespaces(c: Options): nat { if c.viaPidfd then 1 else c.nsFds }

  /** Everything the parent owes the transient process before it may go ahead. */
  predicate SetupDone(c: Options, u: Setup) {
    (c.moveToCgroup ==> u.moved) && u.procSet && u.limitsSet
  }

  /** The parent's setup calls all succeed. */
  predicate SetupSucceeds(c: Options, o: Outcomes) {
    (c.moveToCgroup ==> o.cgroup) && o.closeSelfInParent && o.closeInitInParent
    && o.proc && o.limits
  }

  /** Which setup is complete at which point of the parent. */
  predicate SetupSoFar(c: Options, o: Outcomes, p: ParentPc, u: Setup, handedOver: bool) {
    && ((P_CLOSE_SELF <= p <= P_SETUP_LIMITS) ==> c.moveToCgroup ==> u.moved)
    && (p == P_SETUP_LIMITS ==> u.procSet)
    && ((P_INIT_MAINLOOP <= p <= P_MAINLOOP) || handedOver ==> SetupDone(c, u))
    && (SetupSucceeds(c, o) && (P_SHUT_DOWN <= p <= P_RETURNED) ==> SetupDone(c, u))
  }

  predicate WakeMeansSetup(c: Options, s: State) {
    WakeUp in s.sock.toChild || s.ctx.woken ==> SetupDone(c, s.setup)
  }

  /** Which ends of the socket pair each process holds. */
  predicate ParentEnds(s: State) {
    && s.sock.parentHolds1 == (s.parent == P_CLOSE_CHILD_END)
    && s.sock.parentHolds0 == !(s.books.handedOver || s.parent == P_REAP || s.parent == P_RETURNED)
    && (s.books.handedOver ==> P_MAINLOOP <= s.parent <= P_RETURNED)
    && (s.parent == P_MAINLOOP ==> s.books.handedOver)
  }

  predicate TransientEnds(t: TransientPc, k: Socket) {
    && k.transientHolds0 == t.TCloseParentEnd?
    && k.transientHolds1 == !t.TExited?
  }

  predicate AttachedEnds(a: AttachedPc, k: Socket) {
    k.attachedHolds1 == !(a.ANotCreated? || a.ARunProgram? || a.AExited?)
  }

  /** Only the parent and a failing transient process shut the socket down. */
  predicate ShutBy(t: TransientPc, k: Socket) {
    k.shut <==> !k.parentHolds0 || Failed(t)
  }

  predicate Holders(s: State) {
    && ParentEnds(s) && TransientEnds(s.transient, s.sock)
    && AttachedEnds(s.attached, s.sock) && ShutBy(s.transient, s.sock)
  }

  /** How far the transient process is. */
  predicate Entering(c: Options, t: TransientPc, x: Context) {
    && (AwaitingWake(t) || t.TCloseSelf? || t.TCloseInit? ==> x.entered == 0)
    && (t.TEnter? && c.viaPidfd ==> t.next == 0 && x.entered == 0)
    && (t.TEnter? && !c.viaPidfd ==> x.entered == t.next <= c.nsFds)
    && (t.TClone? || t.TSendPid? || Delivered(t) ==> x.entered == Namespaces(c))
  }

  /** The transient process closes its /proc descriptors before it enters anything. */
  predicate Barrier(t: TransientPc, x: Context) {
    && (t.TCloseInit? || t.TEnter? || x.entered > 0 ==> !x.selfOpen)
    && (t.TEnter? || x.entered > 0 ==> !x.initOpen)
  }

  /** The transient process' own calls up to and including the first setns() succeed. */
  predicate ReachesSetns(c: Options, o: Outcomes) {
    o.readWake && o.closeSelf && o.closeInit && Namespaces(c) > 0 && 0 !in o.failSetns
  }

  /** Which of its own calls have succeeded so far. */
  predicate OwnCalls(c: Options, o: Outcomes, t: TransientPc, x: Context) {
    && (t.TCloseSelf? || t.TCloseInit? || t.TEnter? ==> o.readWake)
    && (t.TCloseInit? || t.TEnter? ==> o.closeSelf)
    && (t.TEnter? ==> o.closeInit)
    && (x.entered > 0 ==> ReachesSetns(c, o))
  }

  /** The attached process exists once the transient process has cloned it. */
  predicate Created(t: TransientPc, a: AttachedPc) {
    && (AwaitingWake(t) || t.TCloseSelf? || t.TCloseInit? || t.TEnter? || t.TClone? ==>
          a.ANotCreated?)
    && (t.TSendPid? || Delivered(t) ==> !a.ANotCreated?)
  }

  /** The wake-up message in the queue to the children. */
  predicate WakeQueue(s: State) {
    && ((P_CLOSE_CHILD_END <= s.parent <= P_SEND_WAKE) ==>
          s.sock.toChild == [] && AwaitingWake(s.transient))
    && (s.parent == P_AWAIT_PID && AwaitingWake(s.transient) ==> s.sock.toChild == [WakeUp])
    && (AwaitingWake(s.transient) ==>
          !s.ctx.woken && (s.sock.toChild == [] || s.sock.toChild == [WakeUp]))
    && (!AwaitingWake(s.transient) ==> WakeUp !in s.sock.toChild)
  }

  /** The label descriptor in the queue to the children. */
  predicate LabelQueue(c: Options, s: State) {
    && ((P_AWAIT_PID <= s.parent <= P_SEND_LABEL) && !AwaitingWake(s.transient) ==>
          s.sock.toChild == [])
    && (c.lsmLabel && (P_AWAIT_NOTIFIER <= s.parent <= P_HAND_OVER) && AwaitingLabel(s.attached) ==>
          s.sock.toChild == [LabelFd])
  }

  /** The transient process goes on without the message only if the socket is dead. */
  predicate MessageRead(s: State) {
    && (!AwaitingWake(s.transient) && !s.transient.TFail? && !s.ctx.woken ==> s.sock.shut)
    && (Delivered(s.transient) ==> s.ctx.woken)
  }

  /** Where the attached pid is. */
  predicate PidOnItsWay(s: State) {
    && (AttachedPid in s.sock.toParent || s.books.gotPid ==> Delivered(s.transient))
    && (s.parent == P_AWAIT_PID && Delivered(s.transient) ==> AttachedPid in s.sock.toParent)
    && ((P_REAP_TRANSIENT <= s.parent <= P_MAINLOOP) || s.books.handedOver ==> s.books.gotPid)
  }

  /** What the parent will return and whom it still waits for. */
  predicate Bookkeeping(c: Options, s: State) {
    var b := s.books;
    && ((P_CLOSE_CHILD_END <= s.parent <= P_REAP_TRANSIENT) ==>
          !b.reapedTransient && b.waitedTransient == 0 && !b.handedOver)
    && (b.reapedTransient ==> b.gotPid && s.transient == TExited(true) && b.waitedTransient == 1)
    && ((P_OPEN_LABEL <= s.parent <= P_MAINLOOP) || b.handedOver ==> b.reapedTransient)
    && (s.parent == P_MAINLOOP ==> b.ret == 0)
    && (if b.handedOver && b.ret == 0 then b.toCleanUp.Nobody?
        else b.ret == -1 && b.toCleanUp == if b.reapedTransient then OfAttached else OfTransient)
    && (c.lsmLabel && ((P_AWAIT_NOTIFIER <= s.parent <= P_HAND_OVER) || b.handedOver) ==> b.labelSent)
  }

  /** Whom the parent has waited for. */
  predicate Waits(s: State) {
    var b := s.books;
    && b.waitedAttached == (if s.parent == P_RETURNED && b.toCleanUp.OfAttached? then 1 else 0)
    && (s.parent == P_RETURNED && b.toCleanUp.OfAttached? ==> s.attached.AExited?)
    && (s.parent == P_RETURNED && b.toCleanUp.OfTransient? ==>
          b.waitedTransient >= 1 && s.transient.TExited?)
  }

  ghost predicate Inv(c: Options, o: Outcomes, s: State) {
    && SetupSoFar(c, o, s.parent, s.setup, s.books.handedOver) && WakeMeansSetup(c, s)
    && Holders(s) && Entering(c, s.transient, s.ctx) && OwnCalls(c, o, s.transient, s.ctx)
    && Barrier(s.transient, s.ctx) && Created(s.transient, s.attached) && WakeQueue(s)
    && LabelQueue(c, s) && MessageRead(s) && PidOnItsWay(s) && Bookkeeping(c, s) && Waits(s)
  }

  lemma ParentKeepsSetup(c: Options, o: Outcomes, s: State)
    requires ParentEnabled(c, s)
    requires SetupSoFar(c, o, s.parent, s.setup, s.books.handedOver)
    requires WakeMeansSetup(c, s) && ParentEnds(s) && WakeQueue(s)
    ensures var t := ParentStep(c, o, s);
      SetupSoFar(c, o, t.parent, t.setup, t.books.handedOver) && WakeMeansSetup(c, t)
  {
  }

  lemma ParentKeepsWakeQueue(c: Options, o: Outcomes, s: State)
    requires ParentEnabled(c, s)
    requires WakeQueue(s) && PidOnItsWay(s) && ParentEnds(s)
    ensures WakeQueue(ParentStep(c, o, s))
  {
  }

  lemma ParentKeepsLabelQueue(c: Options, o: Outcomes, s: State)
    requires ParentEnabled(c, s)
    requires WakeQueue(s) && LabelQueue(c, s) && PidOnItsWay(s) && ParentEnds(s)
    ensures LabelQueue(c, ParentStep(c, o, s))
  {
  }

  lemma ParentKeepsMessageRead(c: Options, o: Outcomes, s: State)
    requires ParentEnabled(c, s)
    requires MessageRead(s)
    ensures MessageRead(ParentStep(c, o, s))
  {
  }

  lemma ParentKeepsPid(c: Options, o: Outcomes, s: State)
    requires ParentEnabled(c, s)
    requires PidOnItsWay(s) && WakeQueue(s) && MessageRead(s) && ParentEnds(s)
    ensures PidOnItsWay(ParentStep(c, o, s))
  {
  }

  lemma ParentKeepsBooks(c: Options, o: Outcomes, s: State)
    requires ParentEnabled(c, s)
    requires Bookkeeping(c, s) && Waits(s) && PidOnItsWay(s) && ParentEnds(s)
    ensures var t := ParentStep(c, o, s); Bookkeeping(c, t) && Waits(t)
  {
  }

  lemma TransientKeepsSetup(c: Options, o: Outcomes, s: State)
    requires TransientEnabled(s)
    requires WakeMeansSetup(c, s)
    ensures var t := TransientStep(c, o, s); WakeMeansSetup(c, t)
  {
  }

  lemma TransientKeepsWakeQueue(c: Options, o: Outcomes, s: State)
    requires TransientEnabled(s)
    requires WakeQueue(s) && ParentEnds(s) && TransientEnds(s.transient, s.sock) && ShutBy(s.transient, s.sock)
    ensures WakeQueue(TransientStep(c, o, s))
  {
    var k, t := s.sock, TransientStep(c, o, s);
    if s.transient.TAwaitWake? {
      assert k.toChild == [] || k.toChild == [WakeUp];
      assert t.sock.toChild == [];
    } else {
      assert t.sock.toChild == k.toChild && (AwaitingWake(t.transient) ==> AwaitingWake(s.transient));
    }
  }

  lemma TransientKeepsLabelQueue(c: Options, o: Outcomes, s: State)
    requires TransientEnabled(s)
    requires WakeQueue(s) && LabelQueue(c, s) && PidOnItsWay(s) && ParentEnds(s)
    requires TransientEnds(s.transient, s.sock) && ShutBy(s.transient, s.sock)
    ensures LabelQueue(c, TransientStep(c, o, s))
  {
  }

  lemma TransientKeepsMessageRead(c: Options, o: Outcomes, s: State)
    requires TransientEnabled(s)
    requires MessageRead(s) && ShutBy(s.transient, s.sock) && TransientEnds(s.transient, s.sock)
    ensures MessageRead(TransientStep(c, o, s))
  {
  }

  lemma TransientKeepsPid(c: Options, o: Outcomes, s: State)
    requires TransientEnabled(s)
    requires PidOnItsWay(s)
    ensures PidOnItsWay(TransientStep(c, o, s))
  {
  }

  lemma TransientKeepsBarrier(c: Options, o: Outcomes, s: State)
    requires TransientEnabled(s)
    requires Barrier(s.transient, s.ctx) && Entering(c, s.transient, s.ctx)
    ensures var t := TransientStep(c, o, s); Barrier(t.transient, t.ctx)
  {
  }

  lemma TransientKeepsBooks(c: Options, o: Outcomes, s: State)
    requires TransientEnabled(s)
    requires Bookkeeping(c, s) && Waits(s) && Created(s.transient, s.attached)
    ensures var t := TransientStep(c, o, s); Bookkeeping(c, t) && Waits(t)
  {
  }

  lemma AttachedKeepsWakeQueue(c: Options, o: Outcomes, s: State)
    requires AttachedEnabled(c, s)
    requires WakeQueue(s) && Created(s.transient, s.attached)
    ensures WakeQueue(AttachedStep(c, o, s))
  {
  }

  lemma AttachedKeepsLabelQueue(c: Options, o: Outcomes, s: State)
    requires AttachedEnabled(c, s)
    requires LabelQueue(c, s) && Created(s.transient, s.attached)
    ensures LabelQueue(c, AttachedStep(c, o, s))
  {
  }

  lemma AttachedKeepsMessages(c: Options, o: Outcomes, s: State)
    requires AttachedEnabled(c, s)
    requires MessageRead(s) && PidOnItsWay(s)
    ensures var t := AttachedStep(c, o, s); MessageRead(t) && PidOnItsWay(t)
  {
  }

  lemma ParentKeepsEnds(c: Options, o: Outcomes, s: State)
    requires ParentEnabled(c, s)
    requires ParentEnds(s)
    ensures ParentEnds(ParentStep(c, o, s))
  {
  }

  lemma ParentKeepsShut(c: Options, o: Outcomes, s: State)
    requires ParentEnabled(c, s)
    requires ParentEnds(s) && ShutBy(s.transient, s.sock)
    ensures var t := ParentStep(c, o, s); ShutBy(t.transient, t.sock)
  {
    ParentShuts(c, s.parent, ParentOk(c, o, s), s.transient, s.sock);
  }

  lemma ParentShuts(c: Options, p: ParentPc, ok: bool, t: TransientPc, k: Socket)
    requires ShutBy(t, k)
    ensures ShutBy(t, ParentSocket(c, p, ok, k))
  {
  }

  lemma TransientKeepsEnds(c: Options, o: Outcomes, s: State)
    requires TransientEnabled(s)
    requires TransientEnds(s.transient, s.sock)
    ensures var t := TransientStep(c, o, s); TransientEnds(t.transient, t.sock)
  {
  }

  lemma TransientKeepsShut(c: Options, o: Outcomes, s: State)
    requires TransientEnabled(s)
    requires TransientEnds(s.transient, s.sock) && ShutBy(s.transient, s.sock)
    ensures var t := TransientStep(c, o, s); ShutBy(t.transient, t.sock)
  {
  }

  lemma TransientKeepsCreated(c: Options, o: Outcomes, s: State)
    requires TransientEnabled(s)
    requires AttachedEnds(s.attached, s.sock) && Created(s.transient, s.attached)
    ensures var t := TransientStep(c, o, s); AttachedEnds(t.attached, t.sock) && Created(t.transient, t.attached)
  {
  }

  lemma TransientKeepsEntering(c: Options, o: Outcomes, s: State)
    requires TransientEnabled(s)
    requires Entering(c, s.transient, s.ctx)
    ensures var t := TransientStep(c, o, s); Entering(c, t.transient, t.ctx)
  {
  }

  lemma AttachedKeepsEnds(c: Options, o: Outcomes, s: State)
    requires AttachedEnabled(c, s)
    requires AttachedEnds(s.attached, s.sock)
    ensures var t := AttachedStep(c, o, s); AttachedEnds(t.attached, t.sock)
  {
  }

  lemma TransientKeepsOwnCalls(c: Options, o: Outcomes, s: State)
    requires TransientEnabled(s)
    requires Entering(c, s.transient, s.ctx) && OwnCalls(c, o, s.transient, s.ctx)
    ensures var t := TransientStep(c, o, s); OwnCalls(c, o, t.transient, t.ctx)
  {
  }

  lemma ParentKeeps(c: Options, o: Outcomes, s: State)
    requires Inv(c, o, s) && ParentEnabled(c, s)
    ensures Inv(c, o, ParentStep(c, o, s))
  {
    ParentKeepsSetup(c, o, s);
    ParentKeepsEnds(c, o, s);
    ParentKeepsShut(c, o, s);
    ParentKeepsWakeQueue(c, o, s);
    ParentKeepsLabelQueue(c, o, s);
    ParentKeepsMessageRead(c, o, s);
    ParentKeepsPid(c, o, s);
    ParentKeepsBooks(c, o, s);
  }

  lemma TransientKeeps(c: Options, o: Outcomes, s: State)
    requires Inv(c, o, s) && TransientEnabled(s)
    ensures Inv(c, o, TransientStep(c, o, s))
  {
    TransientKeepsSetup(c, o, s);
    TransientKeepsEnds(c, o, s);
    TransientKeepsShut(c, o, s);
    TransientKeepsCreated(c, o, s);
    TransientKeepsOwnCalls(c, o, s);
    TransientKeepsEntering(c, o, s);
    TransientKeepsWakeQueue(c, o, s);
    TransientKeepsLabelQueue(c, o, s);
    TransientKeepsMessageRead(c, o, s);
    TransientKeepsPid(c, o, s);
    TransientKeepsBarrier(c, o, s);
    TransientKeepsBooks(c, o, s);
  }

  lemma AttachedKeeps(c: Options, o: Outcomes, s: State)
    requires Inv(c, o, s) && AttachedEnabled(c, s)
    ensures Inv(c, o, AttachedStep(c, o, s))
  {
    AttachedKeepsEnds(c, o, s);
    AttachedKeepsWakeQueue(c, o, s);
    AttachedKeepsLabelQueue(c, o, s);
    AttachedKeepsMessages(c, o, s);
  }

  lemma StepKeeps(c: Options, o: Outcomes, s: State, p: Process)
    requires Inv(c, o, s)
    ensures Inv(c, o, Step(c, o, s, p))
  {
    if Enabled(c, s, p) {
      match p
      case Parent => ParentKeeps(c, o, s);
      case Transient => TransientKeeps(c, o, s);
      case Attached => AttachedKeeps(c, o, s);
    }
  }

  lemma {:induction false} RunKeeps(c: Options, o: Outcomes, s: State, schedule: seq<Process>)
    requires Inv(c, o, s)
    ensures Inv(c, o, RunFrom(c, o, s, schedule))
    decreases |schedule|
  {
    if schedule != [] {
      StepKeeps(c, o, s, schedule[0]);
      RunKeeps(c, o, Step(c, o, s, schedule[0]), schedule[1..]);
    }
  }

  /** Every state of every run satisfies the invariant. */
  lemma Reachable(c: Options, o: Outcomes, schedule: seq<Process>)
    ensures Inv(c, o, Run(c, o, schedule))
  {
    RunKeeps(c, o, Init(), schedule);
  }
}
