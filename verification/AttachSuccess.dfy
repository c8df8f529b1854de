/** When lxc_attach() returns 0: for which outcomes it can, and for which it always does. */
module AttachSuccess {
  import opened AttachProtocol
  import opened AttachInvariant
  import opened AttachTheorems
  import opened AttachUnprepared
  import opened Schedules

  predicate Supervised(c: Options) { c.seccomp && c.supervision }

  /** Every call that the parent is asked for succeeds. */
  predicate ParentSucceeds(c: Options, o: Outcomes) {
    && SetupSucceeds(c, o) && (c.terminal ==> o.mainloopInit && o.mainloop) && o.sendWake && o.readPid
    && o.waitTransient && (c.lsmLabel ==> o.openLabel && o.sendLabel)
    && (Supervised(c) ==> o.readNotifier) && (c.seccomp ==> o.addNotifier)
  }

  predicate TransientSucceeds(c: Options, o: Outcomes) { ReachesClone(c, o) && o.sendPid }

  /** The attached process gets as far as sending the notifier that the parent waits for. */
  predicate NotifierComes(c: Options, o: Outcomes) {
    Supervised(c) ==>
      && (c.terminal ==> o.sigmask) && o.setup && (c.lsmLabel ==> o.readLabel) && o.credentials
      && o.loadSeccomp && o.sendNotifier
  }

  predicate CanSucceed(c: Options, o: Outcomes) {
    ParentSucceeds(c, o) && TransientSucceeds(c, o) && NotifierComes(c, o)
  }

  /**
   * Besides, the attached process does not go away before the label is sent, and the
   * label keeps it from sending the notifier before the parent has read the pid.
   */
  predicate MustSucceed(c: Options, o: Outcomes) {
    && CanSucceed(c, o)
    && (c.lsmLabel ==> (c.terminal ==> o.sigmask) && o.setup)
    && (Supervised(c) ==> c.lsmLabel)
  }

  predicate AttachedSucceeds(c: Options, o: Outcomes) {
    && (c.terminal ==> o.sigmask) && o.setup && (c.lsmLabel ==> o.readLabel) && o.credentials
    && (c.seccomp ==> o.loadSeccomp) && (Supervised(c) ==> o.sendNotifier) && o.switchIds
  }

  predicate ReturnedZero(s: State) { s.parent == P_RETURNED && s.books.ret == 0 }

  // ---- what a return of 0 means about the calls ------------------------------

  /** The parent's calls before a position. */
  predicate ParentPassed(c: Options, o: Outcomes, p: ParentPc) {
    && (p > P_MOVE_TO_CGROUP && c.moveToCgroup ==> o.cgroup)
    && (p > P_CLOSE_SELF ==> o.closeSelfInParent) && (p > P_CLOSE_INIT ==> o.closeInitInParent)
    && (p > P_SETUP_PROC ==> o.proc) && (p > P_SETUP_LIMITS ==> o.limits)
    && (p > P_INIT_MAINLOOP && c.terminal ==> o.mainloopInit) && (p > P_SEND_WAKE ==> o.sendWake)
    && (p > P_AWAIT_PID ==> o.readPid) && (p > P_REAP_TRANSIENT ==> o.waitTransient)
    && (p > P_OPEN_LABEL && c.lsmLabel ==> o.openLabel) && (p > P_SEND_LABEL && c.lsmLabel ==> o.sendLabel)
    && (p > P_AWAIT_NOTIFIER && Supervised(c) ==> o.readNotifier)
    && (p > P_ADD_NOTIFIER && c.seccomp ==> o.addNotifier)
  }

  predicate ParentCame(c: Options, o: Outcomes, s: State) {
    && (s.parent <= P_MAINLOOP ==> ParentPassed(c, o, s.parent))
    && (s.books.handedOver ==> ParentPassed(c, o, P_MAINLOOP))
    && (s.books.ret == 0 && s.parent >= P_SHUT_DOWN ==> c.terminal ==> o.mainloop)
  }

  predicate TransientCame(c: Options, o: Outcomes, t: TransientPc, x: Context) {
    && EnteredSoFar(c, o, t, x) && (t.TSendPid? || Delivered(t) ==> ReachesClone(c, o))
    && (Delivered(t) ==> o.sendPid)
  }

  /** The attached process' calls before the notifier. */
  predicate AttachedCame(c: Options, o: Outcomes, a: AttachedPc) {
    match a
    case ASetup => c.terminal ==> o.sigmask
    case AAwaitLabel => (c.terminal ==> o.sigmask) && o.setup
    case ACredentials => (c.terminal ==> o.sigmask) && o.setup && (c.lsmLabel ==> o.readLabel)
    case ALoadSeccomp =>
      (c.terminal ==> o.sigmask) && o.setup && (c.lsmLabel ==> o.readLabel) && o.credentials
    case ASendNotifier =>
      && (c.terminal ==> o.sigmask) && o.setup && (c.lsmLabel ==> o.readLabel) && o.credentials
      && (c.seccomp ==> o.loadSeccomp)
    case _ => true
  }

  predicate NotifierCame(c: Options, o: Outcomes, s: State) {
    NotifierFd in s.sock.toParent || (P_ADD_NOTIFIER <= s.parent <= P_MAINLOOP) || s.books.handedOver ==>
      NotifierComes(c, o)
  }

  predicate Came(c: Options, o: Outcomes, s: State) {
    && ParentCame(c, o, s) && TransientCame(c, o, s.transient, s.ctx) && AttachedCame(c, o, s.attached)
    && NotifierCame(c, o, s)
  }

  lemma ParentPasses(c: Options, o: Outcomes, s: State)
    requires s.parent < P_MAINLOOP && ParentPassed(c, o, s.parent) && ParentOk(c, o, s)
    ensures ParentPassed(c, o, s.parent + 1)
  {
  }

  lemma ParentComesOn(c: Options, o: Outcomes, s: State)
    requires ParentEnabled(c, s) && ParentEnds(s) && Bookkeeping(c, s) && ParentCame(c, o, s)
    ensures ParentCame(c, o, ParentStep(c, o, s))
  {
    if s.parent < P_MAINLOOP && ParentOk(c, o, s) { ParentPasses(c, o, s); }
    assert s.parent < P_MAINLOOP ==>
      ParentStep(c, o, s).parent == if ParentOk(c, o, s) then s.parent + 1 else P_SHUT_DOWN;
  }

  lemma ParentTakesNotifier(c: Options, o: Outcomes, s: State)
    requires ParentEnabled(c, s) && NotifierCame(c, o, s)
    ensures NotifierCame(c, o, ParentStep(c, o, s))
  {
    var t := ParentStep(c, o, s);
    assert NotifierFd in t.sock.toParent ==> NotifierFd in s.sock.toParent;
  }

  lemma TransientComesOn(c: Options, o: Outcomes, s: State)
    requires TransientEnabled(s) && TransientCame(c, o, s.transient, s.ctx)
    requires OwnCalls(c, o, s.transient, s.ctx) && Entering(c, s.transient, s.ctx)
    ensures var t := TransientStep(c, o, s); TransientCame(c, o, t.transient, t.ctx)
  {
    TransientEntersMore(c, o, s);
  }

  lemma TransientLeavesNotifier(c: Options, o: Outcomes, s: State)
    requires TransientEnabled(s) && NotifierCame(c, o, s)
    ensures NotifierCame(c, o, TransientStep(c, o, s))
  {
  }

  lemma AttachedComesOn(c: Options, o: Outcomes, s: State)
    requires AttachedEnabled(c, s) && AttachedCame(c, o, s.attached)
    ensures AttachedCame(c, o, AttachedStep(c, o, s).attached)
  {
  }

  lemma AttachedSendsNotifier(c: Options, o: Outcomes, s: State)
    requires AttachedEnabled(c, s) && AttachedCame(c, o, s.attached) && NotifierCame(c, o, s)
    ensures NotifierCame(c, o, AttachedStep(c, o, s))
  {
  }

  lemma StepComesOn(c: Options, o: Outcomes, s: State, p: Process)
    requires Inv(c, o, s) && Came(c, o, s)
    ensures Came(c, o, Step(c, o, s, p))
  {
    if Enabled(c, s, p) {
      match p
      case Parent =>
        ParentComesOn(c, o, s);
        ParentTakesNotifier(c, o, s);
      case Transient =>
        TransientComesOn(c, o, s);
        TransientLeavesNotifier(c, o, s);
      case Attached =>
        AttachedComesOn(c, o, s);
        AttachedSendsNotifier(c, o, s);
    }
  }

  lemma {:induction false} RunComesOn(c: Options, o: Outcomes, s: State, schedule: seq<Process>)
    requires Inv(c, o, s) && Came(c, o, s)
    ensures Came(c, o, RunFrom(c, o, s, schedule))
    decreases |schedule|
  {
    if schedule != [] {
      StepKeeps(c, o, s, schedule[0]);
      StepComesOn(c, o, s, schedule[0]);
      RunComesOn(c, o, Step(c, o, s, schedule[0]), schedule[1..]);
    }
  }

  // ---- what the records say --------------------------------------------------

  /** Nothing is noted as done before the call that does it has been made, and has succeeded. */
  predicate Noted(c: Options, o: Outcomes, s: State) {
    && (s.setup.moved ==> c.moveToCgroup && o.cgroup && s.parent > P_MOVE_TO_CGROUP)
    && (s.setup.procSet ==> o.proc && s.parent > P_SETUP_PROC)
    && (s.setup.limitsSet ==> o.limits && s.parent > P_SETUP_LIMITS)
    && (s.books.gotPid ==> o.readPid && s.parent > P_AWAIT_PID)
    && (s.books.labelSent ==> c.lsmLabel && o.sendLabel && s.parent > P_SEND_LABEL)
    && (s.books.ret == 0 ==> s.parent > P_HAND_OVER) && (s.books.ret == 0 || s.books.ret == -1)
  }

  lemma ParentNotes(c: Options, o: Outcomes, s: State)
    requires ParentEnabled(c, s) && Noted(c, o, s)
    ensures Noted(c, o, ParentStep(c, o, s))
  {
  }

  lemma {:induction false} RunNotes(c: Options, o: Outcomes, s: State, schedule: seq<Process>)
    requires Noted(c, o, s)
    ensures Noted(c, o, RunFrom(c, o, s, schedule))
    decreases |schedule|
  {
    if schedule != [] {
      if Enabled(c, s, schedule[0]) && schedule[0].Parent? { ParentNotes(c, o, s); }
      RunNotes(c, o, Step(c, o, s, schedule[0]), schedule[1..]);
    }
  }

  /** In every run the records tell of calls that were made and succeeded. */
  lemma RecordsAreTrue(c: Options, o: Outcomes, schedule: seq<Process>)
    ensures Noted(c, o, Run(c, o, schedule))
  {
    RunNotes(c, o, Init(), schedule);
  }

  // ---- a return of 0 ---------------------------------------------------------

  /** In every run, a return of 0 means that all of these calls have succeeded. */
  lemma ZeroMeansSuccess(c: Options, o: Outcomes, schedule: seq<Process>)
    requires ReturnedZero(Run(c, o, schedule))
    ensures CanSucceed(c, o)
  {
    Reachable(c, o, []);
    Reachable(c, o, schedule);
    RunComesOn(c, o, Init(), schedule);
  }

  // ---- when 0 is certain -------------------------------------------------------

  predicate SentNotifier(a: AttachedPc) { a.ASwitchIds? || a.ARunProgram? || a.AFail? || a.AExited? }

  /** No process of the two has failed, and nobody has hung up. */
  predicate GoingWell(s: State) {
    && !s.transient.TFail? && !Failed(s.transient) && !s.ctx.closeError
    && (s.parent >= P_SHUT_DOWN ==> s.books.handedOver) && (s.books.handedOver ==> s.books.ret == 0)
    && (!AwaitingWake(s.transient) ==> s.ctx.woken)
  }

  /** The parent finds the messages in the order in which it reads them. */
  predicate InTurn(c: Options, s: State) {
    if s.parent <= P_AWAIT_PID then s.sock.toParent == if Delivered(s.transient) then [AttachedPid] else []
    else if s.parent <= P_AWAIT_NOTIFIER then
      s.sock.toParent == if Supervised(c) && SentNotifier(s.attached) then [NotifierFd] else []
    else Supervised(c) ==> SentNotifier(s.attached)
  }

  /** The label is read after it is sent, and kept until then. */
  predicate LabelInTurn(c: Options, s: State) {
    c.lsmLabel ==>
      && (s.parent <= P_SEND_LABEL ==> s.attached.ANotCreated? || AwaitingLabel(s.attached))
      && (s.parent > P_SEND_LABEL && AwaitingLabel(s.attached) ==> s.sock.toChild == [LabelFd])
  }

  /** What becomes of the attached process. */
  predicate AttachedFate(c: Options, o: Outcomes, a: AttachedPc) {
    match a
    case ASwitchIds =>
      && (c.terminal ==> o.sigmask) && o.setup && (c.lsmLabel ==> o.readLabel) && o.credentials
      && (c.seccomp ==> o.loadSeccomp) && (Supervised(c) ==> o.sendNotifier)
    case ARunProgram => AttachedSucceeds(c, o)
    case AFail => !AttachedSucceeds(c, o)
    case AExited(n) => n == if AttachedSucceeds(c, o) then o.program else 1
    case _ => AttachedCame(c, o, a)
  }

  predicate OnTrack(c: Options, o: Outcomes, s: State) {
    GoingWell(s) && InTurn(c, s) && LabelInTurn(c, s) && AttachedFate(c, o, s.attached)
  }

  lemma ParentGoesWell(c: Options, o: Outcomes, s: State)
    requires MustSucceed(c, o) && Inv(c, o, s) && OnTrack(c, o, s) && ParentEnabled(c, s)
    ensures s.parent < P_SHUT_DOWN ==> ParentStep(c, o, s).parent == s.parent + 1
    ensures GoingWell(ParentStep(c, o, s))
  {
  }

  lemma ParentInTurn(c: Options, o: Outcomes, s: State)
    requires MustSucceed(c, o) && Inv(c, o, s) && OnTrack(c, o, s) && ParentEnabled(c, s)
    ensures InTurn(c, ParentStep(c, o, s))
  {
    ParentGoesWell(c, o, s);
  }

  lemma ParentLabelInTurn(c: Options, o: Outcomes, s: State)
    requires MustSucceed(c, o) && Inv(c, o, s) && OnTrack(c, o, s) && ParentEnabled(c, s)
    ensures LabelInTurn(c, ParentStep(c, o, s))
  {
    ParentGoesWell(c, o, s);
  }

  lemma TransientGoesWell(c: Options, o: Outcomes, s: State)
    requires MustSucceed(c, o) && Inv(c, o, s) && OnTrack(c, o, s) && TransientEnabled(s)
    ensures GoingWell(TransientStep(c, o, s))
  {
  }

  lemma TransientInTurn(c: Options, o: Outcomes, s: State)
    requires MustSucceed(c, o) && Inv(c, o, s) && OnTrack(c, o, s) && TransientEnabled(s)
    ensures var t := TransientStep(c, o, s); InTurn(c, t) && LabelInTurn(c, t) && AttachedFate(c, o, t.attached)
  {
    TransientGoesWell(c, o, s);
  }

  lemma AttachedGoesWell(c: Options, o: Outcomes, s: State)
    requires MustSucceed(c, o) && Inv(c, o, s) && OnTrack(c, o, s) && AttachedEnabled(c, s)
    ensures AttachedFate(c, o, AttachedStep(c, o, s).attached)
  {
  }

  lemma AttachedInTurn(c: Options, o: Outcomes, s: State)
    requires MustSucceed(c, o) && Inv(c, o, s) && OnTrack(c, o, s) && AttachedEnabled(c, s)
    ensures var t := AttachedStep(c, o, s); GoingWell(t) && InTurn(c, t) && LabelInTurn(c, t)
  {
  }

  lemma StepStaysOnTrack(c: Options, o: Outcomes, s: State, p: Process)
    requires MustSucceed(c, o) && Inv(c, o, s) && OnTrack(c, o, s)
    ensures OnTrack(c, o, Step(c, o, s, p))
  {
    if Enabled(c, s, p) {
      match p
      case Parent =>
        ParentGoesWell(c, o, s);
        ParentInTurn(c, o, s);
        ParentLabelInTurn(c, o, s);
      case Transient =>
        TransientGoesWell(c, o, s);
        TransientInTurn(c, o, s);
      case Attached =>
        AttachedGoesWell(c, o, s);
        AttachedInTurn(c, o, s);
    }
  }

  lemma {:induction false} RunStaysOnTrack(c: Options, o: Outcomes, s: State, schedule: seq<Process>)
    requires MustSucceed(c, o) && Inv(c, o, s) && OnTrack(c, o, s)
    ensures OnTrack(c, o, RunFrom(c, o, s, schedule))
    decreases |schedule|
  {
    if schedule != [] {
      StepKeeps(c, o, s, schedule[0]);
      StepStaysOnTrack(c, o, s, schedule[0]);
      RunStaysOnTrack(c, o, Step(c, o, s, schedule[0]), schedule[1..]);
    }
  }

  /**
   * Then every fair run ends with 0 and the attached process handed over, which has run
   * the program to its end if its own calls succeed, and exited with 1 otherwise.
   */
  lemma EveryFairRunSucceeds(c: Options, o: Outcomes, rounds: seq<seq<Process>>)
    requires MustSucceed(c, o) && (forall r <- rounds :: Round(r)) && |rounds| >= 37 + c.nsFds
    ensures var s := Run(c, o, Concat(rounds));
      && Finished(s) && ReturnedZero(s) && s.books.handedOver
      && s.attached == AExited(if AttachedSucceeds(c, o) then o.program else 1)
  {
    EveryFairRunEnds(c, o, rounds);
    Reachable(c, o, []);
    Reachable(c, o, Concat(rounds));
    RunStaysOnTrack(c, o, Init(), Concat(rounds));
  }

  // ---- and that these are the exact conditions ----------------------------------------

  lemma ThreeSteps(c: Options, o: Outcomes, s: State, p: Process)
    ensures RunFrom(c, o, s, Steps(p, 3)) == Step(c, o, Step(c, o, Step(c, o, s, p), p), p)
  {
    var s1 := Step(c, o, s, p);
    var s2 := Step(c, o, s1, p);
    RunOneByOne(c, o, s, p, 3);
    RunOneByOne(c, o, s1, p, 2);
    RunOneByOne(c, o, s2, p, 1);
    assert Steps(p, 0) == [];
  }

  lemma FourSteps(c: Options, o: Outcomes, s: State, p: Process)
    ensures RunFrom(c, o, s, Steps(p, 4)) == Step(c, o, Step(c, o, Step(c, o, Step(c, o, s, p), p), p), p)
  {
    RunOneByOne(c, o, s, p, 4);
    ThreeSteps(c, o, Step(c, o, s, p), p);
  }

  lemma SixSteps(c: Options, o: Outcomes, s: State, p: Process)
    ensures RunFrom(c, o, s, Steps(p, 6)) ==
      Step(c, o, Step(c, o, Step(c, o, Step(c, o, Step(c, o, Step(c, o, s, p), p), p), p), p), p)
  {
    RunOneByOne(c, o, s, p, 6);
    RunOneByOne(c, o, Step(c, o, s, p), p, 5);
    FourSteps(c, o, Step(c, o, Step(c, o, s, p), p), p);
  }

  /** The parent has given up. */
  predicate GaveUp(s: State) { s.parent >= P_SHUT_DOWN && !s.books.handedOver && s.books.ret == -1 }

  lemma {:induction false} StaysGivenUp(c: Options, o: Outcomes, s: State, schedule: seq<Process>)
    requires GaveUp(s)
    ensures GaveUp(RunFrom(c, o, s, schedule))
    decreases |schedule|
  {
    if schedule != [] { StaysGivenUp(c, o, Step(c, o, s, schedule[0]), schedule[1..]); }
  }

  /** From where the parent has given up, some run goes on to a return of -1. */
  lemma ReturnsAnError(c: Options, o: Outcomes, a: seq<Process>) returns (schedule: seq<Process>)
    requires GaveUp(Run(c, o, a))
    ensures var s := Run(c, o, schedule); s.parent == P_RETURNED && s.books.ret == -1
  {
    var s, rounds := Run(c, o, a), seq(37 + c.nsFds, i => OneEach());
    Reachable(c, o, a);
    RankAtMost(c, s);
    RoundsFinish(c, o, s, rounds);
    StaysGivenUp(c, o, s, Concat(rounds));
    RunInTwo(c, o, Init(), a, Concat(rounds));
    schedule := a + Concat(rounds);
  }

  /** The parent on its way to the wake-up message; nobody else has moved. */
  predicate Waking(s: State) {
    && s.parent <= P_AWAIT_PID && s.transient == TCloseParentEnd && s.attached == ANotCreated && s.ctx == Init().ctx
    && s.sock.toChild == (if s.parent == P_AWAIT_PID then [WakeUp] else []) && s.sock.toParent == []
    && !s.sock.shut && s.sock.parentHolds0 && s.sock.transientHolds1
  }

  lemma WakingStep(c: Options, o: Outcomes, s: State)
    requires Waking(s) && s.parent < P_AWAIT_PID && ParentSucceeds(c, o)
    ensures var t := Step(c, o, s, Parent); Waking(t) && t.parent == s.parent + 1
  {
  }

  lemma {:induction false} WakesUp(c: Options, o: Outcomes, s: State, n: nat)
    requires Waking(s) && s.parent + n == P_AWAIT_PID && ParentSucceeds(c, o)
    ensures var t := RunFrom(c, o, s, Steps(Parent, n)); Waking(t) && t.parent == P_AWAIT_PID
    decreases n
  {
    if n > 0 {
      RunOneByOne(c, o, s, Parent, n);
      WakingStep(c, o, s);
      WakesUp(c, o, Step(c, o, s, Parent), n - 1);
    }
  }

  lemma TransientWakes(c: Options, o: Outcomes, s: State)
    requires Waking(s) && s.parent == P_AWAIT_PID && ReachesClone(c, o)
    ensures var t := RunFrom(c, o, s, Steps(Transient, 4));
      && t.transient == TEnter(0) && !t.ctx.closeError && t.parent == P_AWAIT_PID && t.attached == ANotCreated
      && t.sock.toParent == [] && t.sock.toChild == []
  {
    var s1 := Step(c, o, s, Transient);
    var s2 := Step(c, o, s1, Transient);
    var s3 := Step(c, o, s2, Transient);
    assert s1.transient == TAwaitWake && s2.transient == TCloseSelf && s3.transient == TCloseInit;
    FourSteps(c, o, s, Transient);
  }

  /** The attached process has been cloned, its pid has not been sent, the parent waits for it. */
  predicate Cloned(s: State) {
    && s.parent == P_AWAIT_PID && s.transient == TSendPid && s.attached == AStart
    && s.sock.toParent == [] && s.sock.toChild == []
  }

  function ToWake(): seq<Process> { Steps(Parent, 8) }

  function ToEnter(): seq<Process> { ToWake() + Steps(Transient, 4) }

  function ToClone(c: Options): seq<Process> { ToEnter() + Steps(Transient, EnterSteps(c) + 1) }

  lemma ClonesFrom(c: Options, o: Outcomes, s: State)
    requires s.transient == TEnter(0) && !s.ctx.closeError && s.parent == P_AWAIT_PID && s.attached == ANotCreated
    requires s.sock.toParent == [] && s.sock.toChild == [] && ReachesClone(c, o)
    ensures Cloned(RunFrom(c, o, s, Steps(Transient, EnterSteps(c) + 1)))
  {
    var a, b := Steps(Transient, EnterSteps(c)), Steps(Transient, 1);
    EntersThemAll(c, o, s);
    assert Steps(Transient, EnterSteps(c) + 1) == a + b;
    RunInTwo(c, o, s, a, b);
    RunOneByOne(c, o, RunFrom(c, o, s, a), Transient, 1);
    assert Steps(Transient, 0) == [];
  }

  lemma ReachesCloned(c: Options, o: Outcomes)
    requires ParentSucceeds(c, o) && ReachesClone(c, o)
    ensures Cloned(Run(c, o, ToClone(c)))
  {
    WakesUp(c, o, Init(), 8);
    TransientWakes(c, o, Run(c, o, ToWake()));
    RunInTwo(c, o, Init(), ToWake(), Steps(Transient, 4));
    ClonesFrom(c, o, Run(c, o, ToEnter()));
    RunInTwo(c, o, Init(), ToEnter(), Steps(Transient, EnterSteps(c) + 1));
  }

  // the pid overtaken by the notifier

  /** The attached process alone, up to the notifier. */
  predicate Notifying(c: Options, s: State, n: nat) {
    && s.parent == P_AWAIT_PID && !s.sock.shut && ParentEndOpen(s.sock) && 1 <= n <= 6
    && AttachedRank(s.attached) == n + 3 && s.sock.toParent == [] && !c.lsmLabel
  }

  lemma {:induction false} NotifierOvertakes(c: Options, o: Outcomes, s: State, n: nat)
    requires Supervised(c) && NotifierComes(c, o) && Notifying(c, s, n)
    ensures var t := RunFrom(c, o, s, Steps(Attached, n)); t.parent == P_AWAIT_PID && t.sock.toParent == [NotifierFd]
    decreases n
  {
    RunOneByOne(c, o, s, Attached, n);
    var t := Step(c, o, s, Attached);
    if n == 1 {
      assert Steps(Attached, 0) == [];
    } else {
      assert Notifying(c, t, n - 1);
      NotifierOvertakes(c, o, t, n - 1);
    }
  }

  lemma OvertakenFrom(c: Options, o: Outcomes, s: State)
    requires CanSucceed(c, o) && Supervised(c) && !c.lsmLabel && Cloned(s) && Inv(c, o, s)
    ensures GaveUp(RunFrom(c, o, s, Steps(Attached, 6) + Steps(Parent, 1)))
  {
    NotifierOvertakes(c, o, s, 6);
    RunInTwo(c, o, s, Steps(Attached, 6), Steps(Parent, 1));
    RunKeeps(c, o, s, Steps(Attached, 6));
    NoPidNoSuccess(c, o, RunFrom(c, o, s, Steps(Attached, 6)));
  }

  lemma NoPidNoSuccess(c: Options, o: Outcomes, s: State)
    requires s.parent == P_AWAIT_PID && s.sock.toParent == [NotifierFd] && Inv(c, o, s)
    ensures GaveUp(RunFrom(c, o, s, Steps(Parent, 1)))
  {
    RunOneByOne(c, o, s, Parent, 1);
    assert Steps(Parent, 0) == [];
  }

  /** Without a label to wait for, the notifier can reach the parent before the pid. */
  lemma OvertakenPidFails(c: Options, o: Outcomes) returns (a: seq<Process>)
    requires CanSucceed(c, o) && Supervised(c) && !c.lsmLabel
    ensures GaveUp(Run(c, o, a))
  {
    var b := Steps(Attached, 6) + Steps(Parent, 1);
    ReachesCloned(c, o);
    Reachable(c, o, ToClone(c));
    OvertakenFrom(c, o, Run(c, o, ToClone(c)));
    RunInTwo(c, o, Init(), ToClone(c), b);
    a := ToClone(c) + b;
  }

  // the label lost

  /** The pid is there, and the transient process is gone. */
  predicate PidSent(s: State) {
    && s.parent == P_AWAIT_PID && s.transient == TExited(true)
    && s.sock.toParent == [AttachedPid] && s.sock.toChild == []
  }

  lemma SendsPid(c: Options, o: Outcomes, s: State)
    requires Cloned(s) && Inv(c, o, s) && o.sendPid
    ensures var t := RunFrom(c, o, s, Steps(Transient, 3)); PidSent(t) && t.attached == AStart
  {
    var s1 := Step(c, o, s, Transient);
    var s2 := Step(c, o, s1, Transient);
    assert s1.transient == TExiting(true) && s2.transient == TExited(true);
    ThreeSteps(c, o, s, Transient);
  }

  function ToPid(c: Options): seq<Process> { ToClone(c) + Steps(Transient, 3) }

  lemma ReachesPidSent(c: Options, o: Outcomes)
    requires ParentSucceeds(c, o) && TransientSucceeds(c, o)
    ensures var s := Run(c, o, ToPid(c)); PidSent(s) && s.attached == AStart
  {
    ReachesCloned(c, o);
    Reachable(c, o, ToClone(c));
    SendsPid(c, o, Run(c, o, ToClone(c)));
    RunInTwo(c, o, Init(), ToClone(c), Steps(Transient, 3));
  }

  lemma AttachedGoesAway(c: Options, o: Outcomes, s: State)
    requires PidSent(s) && s.attached == AStart && !((c.terminal ==> o.sigmask) && o.setup)
    ensures var t := RunFrom(c, o, s, Steps(Attached, 3)); PidSent(t) && t.attached == AExited(1)
  {
    var s1 := Step(c, o, s, Attached);
    var s2 := Step(c, o, s1, Attached);
    if c.terminal && !o.sigmask {
      assert s1.attached == AFail && s2.attached == AExited(1);
    } else {
      assert s1.attached == ASetup && s2.attached == AFail;
    }
    ThreeSteps(c, o, s, Attached);
  }

  lemma NobodyTakesTheLabel(c: Options, o: Outcomes, s: State)
    requires PidSent(s) && s.attached == AExited(1) && Inv(c, o, s) && ParentSucceeds(c, o) && c.lsmLabel
    ensures GaveUp(RunFrom(c, o, s, Steps(Parent, 4)))
  {
    var s1 := Step(c, o, s, Parent);
    var s2 := Step(c, o, s1, Parent);
    var s3 := Step(c, o, s2, Parent);
    assert s1.parent == P_REAP_TRANSIENT && s2.parent == P_OPEN_LABEL && s3.parent == P_SEND_LABEL;
    assert s3.sock == s1.sock && !ChildEndOpen(s3.sock);
    FourSteps(c, o, s, Parent);
  }

  /** An attached process that fails early can be gone before the label is sent. */
  lemma LostLabelFails(c: Options, o: Outcomes) returns (a: seq<Process>)
    requires CanSucceed(c, o) && c.lsmLabel && !((c.terminal ==> o.sigmask) && o.setup)
    ensures GaveUp(Run(c, o, a))
  {
    ReachesPidSent(c, o);
    AttachedGoesAway(c, o, Run(c, o, ToPid(c)));
    var b := ToPid(c) + Steps(Attached, 3);
    RunInTwo(c, o, Init(), ToPid(c), Steps(Attached, 3));
    Reachable(c, o, b);
    NobodyTakesTheLabel(c, o, Run(c, o, b));
    RunInTwo(c, o, Init(), b, Steps(Parent, 4));
    a := b + Steps(Parent, 4);
  }

  // a run that succeeds

  /** The label is sent, and the parent waits for the notifier. */
  predicate LabelSent(c: Options, s: State) {
    && s.parent == P_AWAIT_NOTIFIER && s.sock.toParent == []
    && s.sock.toChild == if c.lsmLabel then [LabelFd] else []
  }

  lemma SendsLabel(c: Options, o: Outcomes, s: State)
    requires PidSent(s) && s.attached == AStart && Inv(c, o, s) && ParentSucceeds(c, o)
    ensures var t := RunFrom(c, o, s, Steps(Parent, 4)); LabelSent(c, t) && t.attached == AStart
  {
    var s1 := Step(c, o, s, Parent);
    var s2 := Step(c, o, s1, Parent);
    var s3 := Step(c, o, s2, Parent);
    assert s1.parent == P_REAP_TRANSIENT && s2.parent == P_OPEN_LABEL && s3.parent == P_SEND_LABEL;
    FourSteps(c, o, s, Parent);
  }

  /** The attached process on its way to the notifier while the parent waits for it. */
  predicate Answering(c: Options, s: State, n: nat) {
    && s.parent == P_AWAIT_NOTIFIER && !s.sock.shut && ParentEndOpen(s.sock) && 1 <= n <= 6
    && AttachedRank(s.attached) == n + 3 && s.sock.toParent == []
    && (c.lsmLabel && n >= 4 ==> s.sock.toChild == [LabelFd])
  }

  lemma {:induction false} NotifierArrives(c: Options, o: Outcomes, s: State, n: nat)
    requires Supervised(c) && NotifierComes(c, o) && Answering(c, s, n)
    ensures var t := RunFrom(c, o, s, Steps(Attached, n));
      t.parent == P_AWAIT_NOTIFIER && t.sock.toParent == [NotifierFd]
    decreases n
  {
    RunOneByOne(c, o, s, Attached, n);
    var t := Step(c, o, s, Attached);
    if n == 1 {
      assert Steps(Attached, 0) == [];
    } else {
      assert Answering(c, t, n - 1);
      NotifierArrives(c, o, t, n - 1);
    }
  }

  /** How many steps of the attached process the parent waits for. */
  function NotifierSteps(c: Options): nat { if Supervised(c) then 6 else 0 }

  predicate Answered(c: Options, s: State) {
    s.parent == P_AWAIT_NOTIFIER && (Supervised(c) ==> s.sock.toParent == [NotifierFd])
  }

  lemma AnswersParent(c: Options, o: Outcomes, s: State)
    requires LabelSent(c, s) && s.attached == AStart && Inv(c, o, s) && NotifierComes(c, o)
    ensures Answered(c, RunFrom(c, o, s, Steps(Attached, NotifierSteps(c))))
  {
    if Supervised(c) {
      NotifierArrives(c, o, s, 6);
    } else {
      assert Steps(Attached, 0) == [];
    }
  }

  lemma HandsOver(c: Options, o: Outcomes, s: State)
    requires Answered(c, s) && Inv(c, o, s) && ParentSucceeds(c, o)
    ensures ReturnedZero(RunFrom(c, o, s, Steps(Parent, 6)))
  {
    var s1 := Step(c, o, s, Parent);
    var s2 := Step(c, o, s1, Parent);
    var s3 := Step(c, o, s2, Parent);
    var s4 := Step(c, o, s3, Parent);
    var s5 := Step(c, o, s4, Parent);
    assert s1.parent == P_ADD_NOTIFIER && s2.parent == P_HAND_OVER && s3.parent == P_MAINLOOP;
    assert s3.books.ret == 0 && s3.books.toCleanUp == Nobody;
    assert s4.parent == P_SHUT_DOWN && s5.parent == P_REAP && s5.books == s3.books;
    SixSteps(c, o, s, Parent);
  }

  function ToLabel(c: Options): seq<Process> { ToPid(c) + Steps(Parent, 4) }

  function ToNotifier(c: Options): seq<Process> { ToLabel(c) + Steps(Attached, NotifierSteps(c)) }

  lemma ReachesLabelSent(c: Options, o: Outcomes)
    requires ParentSucceeds(c, o) && TransientSucceeds(c, o)
    ensures var s := Run(c, o, ToLabel(c)); LabelSent(c, s) && s.attached == AStart
  {
    ReachesPidSent(c, o);
    Reachable(c, o, ToPid(c));
    SendsLabel(c, o, Run(c, o, ToPid(c)));
    RunInTwo(c, o, Init(), ToPid(c), Steps(Parent, 4));
  }

  lemma ReachesZero(c: Options, o: Outcomes)
    requires CanSucceed(c, o)
    ensures ReturnedZero(Run(c, o, ToNotifier(c) + Steps(Parent, 6)))
  {
    ReachesLabelSent(c, o);
    Reachable(c, o, ToLabel(c));
    AnswersParent(c, o, Run(c, o, ToLabel(c)));
    RunInTwo(c, o, Init(), ToLabel(c), Steps(Attached, NotifierSteps(c)));
    Reachable(c, o, ToNotifier(c));
    HandsOver(c, o, Run(c, o, ToNotifier(c)));
    RunInTwo(c, o, Init(), ToNotifier(c), Steps(Parent, 6));
  }

  /** lxc_attach() can return 0, in some interleaving, exactly for these outcomes. */
  lemma CanReturnZeroExactlyWhen(c: Options, o: Outcomes)
    ensures (exists schedule :: ReturnedZero(Run(c, o, schedule))) <==> CanSucceed(c, o)
  {
    if schedule :| ReturnedZero(Run(c, o, schedule)) { ZeroMeansSuccess(c, o, schedule); }
    if CanSucceed(c, o) { ReachesZero(c, o); }
  }

  lemma CanFail(c: Options, o: Outcomes) returns (schedule: seq<Process>)
    requires !MustSucceed(c, o)
    ensures var s := Run(c, o, schedule); s.parent == P_RETURNED && s.books.ret != 0
  {
    if !CanSucceed(c, o) {
      var rounds := seq(37 + c.nsFds, i => OneEach());
      EveryFairRunEnds(c, o, rounds);
      schedule := Concat(rounds);
      if ReturnedZero(Run(c, o, schedule)) { ZeroMeansSuccess(c, o, schedule); }
    } else if Supervised(c) && !c.lsmLabel {
      var a := OvertakenPidFails(c, o);
      schedule := ReturnsAnError(c, o, a);
    } else {
      var a := LostLabelFails(c, o);
      schedule := ReturnsAnError(c, o, a);
    }
  }

  /** And whenever it returns, in every interleaving, it returns 0 exactly for these. */
  lemma ReturnsZeroExactlyWhen(c: Options, o: Outcomes)
    ensures (forall schedule :: var s := Run(c, o, schedule); s.parent == P_RETURNED ==> s.books.ret == 0)
            <==> MustSucceed(c, o)
  {
    if MustSucceed(c, o) {
      forall schedule ensures var s := Run(c, o, schedule); s.parent == P_RETURNED ==> s.books.ret == 0 {
        Reachable(c, o, []);
        RunStaysOnTrack(c, o, Init(), schedule);
      }
    } else {
      var schedule := CanFail(c, o);
    }
  }
}
