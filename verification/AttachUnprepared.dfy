/** When the attached process runs the program although the parent's setup has failed. */
module AttachUnprepared {
  import opened AttachProtocol
  import opened AttachInvariant
  import opened AttachTheorems
  import opened Schedules

  predicate EntersAll(c: Options, o: Outcomes) {
    if c.viaPidfd then 0 !in o.failSetns && 0 !in o.failCloseNs
    else forall i | 0 <= i < c.nsFds :: i !in o.failSetns && i !in o.failCloseNs
  }

  /** The transient process' own calls up to and including clone() succeed. */
  predicate ReachesClone(c: Options, o: Outcomes) {
    o.readWake && o.closeSelf && o.closeInit && EntersAll(c, o) && o.clone
  }

  /** The attached process' own calls succeed, and none of them needs the parent. */
  predicate ReachesProgram(c: Options, o: Outcomes) {
    && (c.terminal ==> o.sigmask) && o.setup && !c.lsmLabel && o.credentials
    && (c.seccomp ==> o.loadSeccomp && !c.supervision) && o.switchIds
  }

  /** The program runs in a process that was not set up. */
  predicate RunsUnprepared(c: Options, s: State) {
    s.attached.ARunProgram? && !SetupDone(c, s.setup)
  }

  // ---- only then -----------------------------------------------------------

  /** A parent whose setup fails never writes to the socket, and a child it has not woken finds it dead. */
  predicate Silent(c: Options, o: Outcomes, s: State) {
    && !SetupDone(c, s.setup) && !s.setup.limitsSet
    && (if s.parent <= P_SETUP_LIMITS then FailureAhead(c, o, s.parent) else s.parent >= P_SHUT_DOWN)
    && s.sock.toChild == [] && !s.ctx.woken && s.books.ret == -1
    && (!s.attached.ANotCreated? ==> s.sock.shut)
  }

  /** Which namespaces the transient process has been able to enter. */
  predicate EnteredSoFar(c: Options, o: Outcomes, t: TransientPc, x: Context) {
    && (t.TEnter? && !c.viaPidfd ==>
          forall i | 0 <= i < t.next :: i !in o.failSetns && (i in o.failCloseNs ==> x.closeError))
    && (t.TClone? ==> o.readWake && o.closeSelf && o.closeInit && EntersAll(c, o))
  }

  /** How far the attached process can be. */
  predicate CameSoFar(c: Options, o: Outcomes, a: AttachedPc) {
    match a
    case ASetup => c.terminal ==> o.sigmask
    case AAwaitLabel => (c.terminal ==> o.sigmask) && o.setup
    case ACredentials => (c.terminal ==> o.sigmask) && o.setup && !c.lsmLabel
    case ALoadSeccomp => (c.terminal ==> o.sigmask) && o.setup && !c.lsmLabel && o.credentials
    case ASendNotifier =>
      && (c.terminal ==> o.sigmask) && o.setup && !c.lsmLabel && o.credentials
      && (c.seccomp ==> o.loadSeccomp)
    case ASwitchIds =>
      && (c.terminal ==> o.sigmask) && o.setup && !c.lsmLabel && o.credentials
      && (c.seccomp ==> o.loadSeccomp && !c.supervision)
    case ARunProgram => ReachesProgram(c, o)
    case _ => true
  }

  predicate Lost(c: Options, o: Outcomes, s: State) {
    && Silent(c, o, s) && EnteredSoFar(c, o, s.transient, s.ctx) && CameSoFar(c, o, s.attached)
    && (!s.attached.ANotCreated? ==> ReachesClone(c, o))
  }

  lemma ParentStaysSilent(c: Options, o: Outcomes, s: State)
    requires ParentEnabled(c, s) && Silent(c, o, s)
    ensures Silent(c, o, ParentStep(c, o, s))
  {
  }

  lemma TransientStaysSilent(c: Options, o: Outcomes, s: State)
    requires TransientEnabled(s) && Silent(c, o, s) && MessageRead(s)
    ensures Silent(c, o, TransientStep(c, o, s))
  {
  }

  lemma AttachedStaysSilent(c: Options, o: Outcomes, s: State)
    requires AttachedEnabled(c, s) && Silent(c, o, s)
    ensures Silent(c, o, AttachedStep(c, o, s))
  {
  }

  lemma TransientEntersMore(c: Options, o: Outcomes, s: State)
    requires TransientEnabled(s) && EnteredSoFar(c, o, s.transient, s.ctx)
    requires OwnCalls(c, o, s.transient, s.ctx) && Entering(c, s.transient, s.ctx)
    ensures var t := TransientStep(c, o, s); EnteredSoFar(c, o, t.transient, t.ctx)
  {
  }

  lemma AttachedComesFurther(c: Options, o: Outcomes, s: State)
    requires AttachedEnabled(c, s) && Silent(c, o, s) && CameSoFar(c, o, s.attached)
    ensures CameSoFar(c, o, AttachedStep(c, o, s).attached)
  {
  }

  lemma StepStaysLost(c: Options, o: Outcomes, s: State, p: Process)
    requires Inv(c, o, s) && Lost(c, o, s)
    ensures Lost(c, o, Step(c, o, s, p))
  {
    if Enabled(c, s, p) {
      match p
      case Parent => ParentStaysSilent(c, o, s);
      case Transient =>
        TransientStaysSilent(c, o, s);
        TransientEntersMore(c, o, s);
      case Attached =>
        AttachedStaysSilent(c, o, s);
        AttachedComesFurther(c, o, s);
    }
  }

  lemma {:induction false} RunStaysLost(c: Options, o: Outcomes, s: State, schedule: seq<Process>)
    requires Inv(c, o, s) && Lost(c, o, s)
    ensures Lost(c, o, RunFrom(c, o, s, schedule))
    decreases |schedule|
  {
    if schedule != [] {
      StepKeeps(c, o, s, schedule[0]);
      StepStaysLost(c, o, s, schedule[0]);
      RunStaysLost(c, o, Step(c, o, s, schedule[0]), schedule[1..]);
    }
  }

  /** After a failed setup lxc_attach() returns -1 in every run, whatever became of the attached process. */
  lemma FailedSetupIsReported(c: Options, o: Outcomes, schedule: seq<Process>)
    requires !SetupSucceeds(c, o)
    ensures var s := Run(c, o, schedule); !SetupDone(c, s.setup) && s.books.ret == -1 && s.books.waitedAttached == 0
  {
    Reachable(c, o, []);
    RunStaysLost(c, o, Init(), schedule);
    Reachable(c, o, schedule);
  }

  lemma UnpreparedOnlyIf(c: Options, o: Outcomes, schedule: seq<Process>)
    requires RunsUnprepared(c, Run(c, o, schedule))
    ensures !SetupSucceeds(c, o) && ReachesClone(c, o) && ReachesProgram(c, o)
  {
    Reachable(c, o, schedule);
    if !SetupSucceeds(c, o) {
      Reachable(c, o, []);
      RunStaysLost(c, o, Init(), schedule);
    }
  }

  // ---- and then indeed -----------------------------------------------------

  /** Nobody else has moved since the parent hung up. */
  predicate HungUp(c: Options, s: State) {
    s.sock.shut && s.sock.toChild == [] && !SetupDone(c, s.setup)
  }

  lemma {:induction false} EntersTheRest(c: Options, o: Outcomes, s: State, i: nat)
    requires EntersAll(c, o) && s.transient == TEnter(i)
    requires !c.viaPidfd && i <= c.nsFds && !s.ctx.closeError
    ensures var t := RunFrom(c, o, s, Steps(Transient, c.nsFds - i + 1)); t == s.(transient := TClone, ctx := t.ctx)
    decreases c.nsFds - i
  {
    RunOneByOne(c, o, s, Transient, c.nsFds - i + 1);
    var t := Step(c, o, s, Transient);
    if i < c.nsFds {
      EntersTheRest(c, o, t, i + 1);
    } else {
      assert Steps(Transient, 0) == [];
    }
  }

  function EnterSteps(c: Options): nat { if c.viaPidfd then 1 else c.nsFds + 1 }

  lemma EntersThemAll(c: Options, o: Outcomes, s: State)
    requires EntersAll(c, o) && s.transient == TEnter(0) && !s.ctx.closeError
    ensures var t := RunFrom(c, o, s, Steps(Transient, EnterSteps(c))); t == s.(transient := TClone, ctx := t.ctx)
  {
    if c.viaPidfd {
      RunOneByOne(c, o, s, Transient, 1);
      assert Steps(Transient, 0) == [];
    } else {
      EntersTheRest(c, o, s, 0);
    }
  }

  /** End of file lets the transient process go on to its first namespace. */
  lemma PassesTheBarrier(c: Options, o: Outcomes, s: State)
    requires Doomed(c, o, s) && s.parent == P_REAP && o.readWake && o.closeSelf && o.closeInit
    ensures var t := RunFrom(c, o, s, Steps(Transient, 4));
      HungUp(c, t) && t.transient == TEnter(0) && !t.ctx.closeError
  {
    var s1 := Step(c, o, s, Transient);
    var s2 := Step(c, o, s1, Transient);
    var s3 := Step(c, o, s2, Transient);
    var s4 := Step(c, o, s3, Transient);
    assert s1.transient == TAwaitWake && s2.transient == TCloseSelf && s3.transient == TCloseInit;
    assert s4.transient == TEnter(0) && HungUp(c, s4);
    RunOneByOne(c, o, s, Transient, 4);
    RunOneByOne(c, o, s1, Transient, 3);
    RunOneByOne(c, o, s2, Transient, 2);
    RunOneByOne(c, o, s3, Transient, 1);
    assert Steps(Transient, 0) == [];
  }

  lemma CloneStarts(c: Options, o: Outcomes, s: State)
    requires HungUp(c, s) && s.transient == TClone && o.clone
    ensures var t := RunFrom(c, o, s, Steps(Transient, 1)); HungUp(c, t) && t.attached == AStart
  {
    RunOneByOne(c, o, s, Transient, 1);
    assert Steps(Transient, 0) == [];
  }

  /** The attached process alone gets through to the program. */
  lemma {:induction false} GetsThrough(c: Options, o: Outcomes, s: State, n: nat)
    requires HungUp(c, s) && ReachesProgram(c, o) && AttachedRank(s.attached) == n + 2 && 1 <= n <= 7
    ensures RunsUnprepared(c, RunFrom(c, o, s, Steps(Attached, n)))
    decreases n
  {
    RunOneByOne(c, o, s, Attached, n);
    var t := Step(c, o, s, Attached);
    if n == 1 {
      assert t.attached == ARunProgram && Steps(Attached, 0) == [];
    } else {
      GetsThrough(c, o, t, n - 1);
    }
  }

  /** The parent fails and hangs up, then the transient process and then the attached one run. */
  function UnpreparedRun(c: Options): seq<Process> {
    Steps(Parent, 17)
    + (Steps(Transient, 4) + (Steps(Transient, EnterSteps(c)) + (Steps(Transient, 1) + Steps(Attached, 7))))
  }

  lemma UnpreparedIf(c: Options, o: Outcomes)
    requires !SetupSucceeds(c, o) && ReachesClone(c, o) && ReachesProgram(c, o)
    ensures RunsUnprepared(c, Run(c, o, UnpreparedRun(c)))
  {
    var a, b := Steps(Parent, 17), Steps(Transient, 4);
    var rest := Steps(Transient, EnterSteps(c)) + (Steps(Transient, 1) + Steps(Attached, 7));
    ParentHangsUp(c, o, Init(), 17);
    RunInTwo(c, o, Init(), a, b + rest);
    var s := RunFrom(c, o, Init(), a);
    PassesTheBarrier(c, o, s);
    RunInTwo(c, o, s, b, rest);
    RunsFromBarrier(c, o, RunFrom(c, o, s, b));
  }

  lemma RunsFromBarrier(c: Options, o: Outcomes, s: State)
    requires HungUp(c, s) && s.transient == TEnter(0) && !s.ctx.closeError
    requires ReachesClone(c, o) && ReachesProgram(c, o)
    ensures RunsUnprepared(c, RunFrom(c, o, s,
              Steps(Transient, EnterSteps(c)) + (Steps(Transient, 1) + Steps(Attached, 7))))
  {
    var a, b, d := Steps(Transient, EnterSteps(c)), Steps(Transient, 1), Steps(Attached, 7);
    EntersThemAll(c, o, s);
    RunInTwo(c, o, s, a, b + d);
    var t := RunFrom(c, o, s, a);
    CloneStarts(c, o, t);
    RunInTwo(c, o, t, b, d);
    GetsThrough(c, o, RunFrom(c, o, t, b), 7);
  }

  /**
   * The program runs in a process that the parent has not set up, in some interleaving,
   * exactly when the parent's setup fails, all calls of the two children succeed, and
   * neither a security label nor a supervised seccomp notifier needs the parent.
   */
  lemma RunsUnpreparedExactlyWhen(c: Options, o: Outcomes)
    ensures (exists schedule :: RunsUnprepared(c, Run(c, o, schedule)))
            <==> !SetupSucceeds(c, o) && ReachesClone(c, o) && ReachesProgram(c, o)
  {
    if schedule :| RunsUnprepared(c, Run(c, o, schedule)) {
      UnpreparedOnlyIf(c, o, schedule);
    }
    if !SetupSucceeds(c, o) && ReachesClone(c, o) && ReachesProgram(c, o) {
      UnpreparedIf(c, o);
    }
  }

  lemma {:induction false} ExitIsFinal(c: Options, o: Outcomes, s: State, schedule: seq<Process>)
    requires Inv(c, o, s) && s.attached.AExited?
    ensures RunFrom(c, o, s, schedule).attached == s.attached
    decreases |schedule|
  {
    if schedule != [] {
      StepKeeps(c, o, s, schedule[0]);
      ExitIsFinal(c, o, Step(c, o, s, schedule[0]), schedule[1..]);
    }
  }

  function OneEach(): seq<Process> { [Parent, Transient, Attached] }

  /**
   * A plain attach whose rlimit setup fails: once all processes have ended, the program has
   * run to its end in the container and lxc_attach() has returned -1.
   */
  lemma ProgramRunsAfterFailure()
    ensures exists schedule ::
      var s := Run(PlainAttach(), LimitsFail(), schedule);
      && Finished(s) && s.attached == AExited(LimitsFail().program) && s.books.ret == -1
      && !SetupDone(PlainAttach(), s.setup)
  {
    var c, o := PlainAttach(), LimitsFail();
    var a, rounds := UnpreparedRun(c) + [Attached], seq(37, i => OneEach());
    UnpreparedIf(c, o);
    RunInTwo(c, o, Init(), UnpreparedRun(c), [Attached]);
    RunEnds(c, o, a, rounds);
  }

  lemma RunEnds(c: Options, o: Outcomes, a: seq<Process>, rounds: seq<seq<Process>>)
    requires !SetupSucceeds(c, o) && Run(c, o, a).attached.AExited?
    requires (forall r <- rounds :: Round(r)) && |rounds| >= 37 + c.nsFds
    ensures var s := Run(c, o, a + Concat(rounds));
      Finished(s) && s.attached == Run(c, o, a).attached && s.books.ret == -1 && !SetupDone(c, s.setup)
  {
    Reachable(c, o, a);
    EndsFrom(c, o, Run(c, o, a), rounds);
    RunInTwo(c, o, Init(), a, Concat(rounds));
    FailedSetupIsReported(c, o, a + Concat(rounds));
  }

  lemma EndsFrom(c: Options, o: Outcomes, s: State, rounds: seq<seq<Process>>)
    requires Inv(c, o, s) && s.attached.AExited?
    requires (forall r <- rounds :: Round(r)) && |rounds| >= 37 + c.nsFds
    ensures var t := RunFrom(c, o, s, Concat(rounds)); Finished(t) && t.attached == s.attached
  {
    ExitIsFinal(c, o, s, Concat(rounds));
    RankAtMost(c, s);
    RoundsFinish(c, o, s, rounds);
  }

  lemma RankAtMost(c: Options, s: State)
    ensures Rank(c, s) <= 37 + c.nsFds
  {
  }
}
