/** What holds of every run of lxc_attach(): ordering, progress and reaping. */
module AttachTheorems {
  import opened AttachProtocol
  import opened AttachInvariant
  import opened Schedules

  // ---- ordering ----------------------------------------------------------

  /** A namespace is entered only after the parent's setup of the transient process. */
  predicate Ordered(c: Options, s: State) {
    s.ctx.entered > 0 ==> SetupDone(c, s.setup)
  }

  /**
   * Both /proc directory descriptors are closed before the first namespace is
   * entered, and a transient process that read the wake-up message never runs
   * ahead of the parent.
   */
  lemma BarrierBeforeNamespaces(c: Options, o: Outcomes, schedule: seq<Process>)
    ensures var s := Run(c, o, schedule);
      && (s.ctx.entered > 0 ==> !s.ctx.selfOpen && !s.ctx.initOpen)
      && (s.ctx.woken ==> SetupDone(c, s.setup))
  {
    Reachable(c, o, schedule);
  }

  lemma {:induction false} RunInTwo(c: Options, o: Outcomes, s: State, a: seq<Process>, b: seq<Process>)
    ensures RunFrom(c, o, s, a + b) == RunFrom(c, o, RunFrom(c, o, s, a), b)
    decreases |a|
  {
    if a == [] {
      assert a + b == b;
    } else {
      assert (a + b)[1..] == a[1..] + b;
      RunInTwo(c, o, Step(c, o, s, a[0]), a[1..], b);
    }
  }

  /** One of the parent's setup calls at or after p fails. */
  predicate FailureAhead(c: Options, o: Outcomes, p: ParentPc) {
    || (p <= P_MOVE_TO_CGROUP && c.moveToCgroup && !o.cgroup)
    || (p <= P_CLOSE_SELF && !o.closeSelfInParent)
    || (p <= P_CLOSE_INIT && !o.closeInitInParent)
    || (p <= P_SETUP_PROC && !o.proc)
    || (p <= P_SETUP_LIMITS && !o.limits)
  }

  /** The parent is running into a failure; nobody else has moved yet. */
  predicate Doomed(c: Options, o: Outcomes, s: State) {
    && s.transient == TCloseParentEnd && s.ctx == Init().ctx && s.books.toCleanUp == OfTransient
    && s.sock.toChild == [] && !s.setup.limitsSet
    && (if s.parent == P_REAP then s.sock.shut && !s.sock.parentHolds0
        else s.sock.parentHolds0
             && (s.parent == P_SHUT_DOWN || (s.parent <= P_SETUP_LIMITS && FailureAhead(c, o, s.parent))))
  }

  lemma DoomedStep(c: Options, o: Outcomes, s: State)
    requires Doomed(c, o, s)
    ensures Doomed(c, o, Step(c, o, s, Parent))
    ensures s.parent == P_REAP || Step(c, o, s, Parent).parent > s.parent
  {
  }

  function Steps(p: Process, n: nat): seq<Process> { seq(n, i => p) }

  /** With a failing setup the parent hangs up before it sends the wake-up message. */
  lemma {:induction false} ParentHangsUp(c: Options, o: Outcomes, s: State, n: nat)
    requires Doomed(c, o, s) && s.parent + n >= P_REAP
    ensures var t := RunFrom(c, o, s, Steps(Parent, n)); Doomed(c, o, t) && t.parent == P_REAP
    decreases n
  {
    if n > 0 {
      DoomedStep(c, o, s);
      assert Steps(Parent, n)[1..] == Steps(Parent, n - 1);
      ParentHangsUp(c, o, Step(c, o, s, Parent), n - 1);
    }
  }

  /** After that the transient process takes end of file for the go-ahead. */
  lemma EndOfFileEntersNamespace(c: Options, o: Outcomes, s: State)
    requires Doomed(c, o, s) && s.parent == P_REAP && ReachesSetns(c, o)
    ensures var t := RunFrom(c, o, s, Steps(Transient, 5));
      t.ctx.entered == 1 && !t.ctx.woken && !SetupDone(c, t.setup)
  {
    var s1 := Step(c, o, s, Transient);
    var s2 := Step(c, o, s1, Transient);
    var s3 := Step(c, o, s2, Transient);
    var s4 := Step(c, o, s3, Transient);
    var s5 := Step(c, o, s4, Transient);
    assert s1.transient == TAwaitWake && TransientEnabled(s1);
    assert s2.transient == TCloseSelf && s3.transient == TCloseInit && s4.transient == TEnter(0);
    RunOneByOne(c, o, s, Transient, 5);
    RunOneByOne(c, o, s1, Transient, 4);
    RunOneByOne(c, o, s2, Transient, 3);
    RunOneByOne(c, o, s3, Transient, 2);
    RunOneByOne(c, o, s4, Transient, 1);
  }

  lemma RunOneByOne(c: Options, o: Outcomes, s: State, p: Process, n: nat)
    requires n > 0
    ensures RunFrom(c, o, s, Steps(p, n)) == RunFrom(c, o, Step(c, o, s, p), Steps(p, n - 1))
  {
    assert Steps(p, n)[1..] == Steps(p, n - 1);
  }

  /**
   * sync_wait() takes end of file for the go-ahead, so the ordering is not
   * unconditional.  It holds in every interleaving exactly when the parent's
   * setup succeeds, or when the transient process would fail on its own before
   * the first setns().
   */
  lemma OrderingHoldsExactlyWhen(c: Options, o: Outcomes)
    ensures (forall schedule :: Ordered(c, Run(c, o, schedule)))
            <==> SetupSucceeds(c, o) || !ReachesSetns(c, o)
  {
    if SetupSucceeds(c, o) || !ReachesSetns(c, o) {
      forall schedule ensures Ordered(c, Run(c, o, schedule)) {
        Reachable(c, o, schedule);
      }
    } else {
      var a, b := Steps(Parent, 17), Steps(Transient, 5);
      ParentHangsUp(c, o, Init(), 17);
      EndOfFileEntersNamespace(c, o, RunFrom(c, o, Init(), a));
      RunInTwo(c, o, Init(), a, b);
      assert !Ordered(c, Run(c, o, a + b));
    }
  }

  /** An attach without options in which every call but the parent's rlimit setup succeeds. */
  function LimitsFail(): Outcomes {
    Outcomes(true, true, true, true, false, true, true, true, true, true, true, true, true, true,
             true, true, true, {}, {}, true, true, true, true, true, true, true, true, true, 0)
  }

  function PlainAttach(): Options {
    Options(false, false, false, false, false, true, 0)
  }

  /** One such run: the parent fails and hangs up, then the transient process enters the namespaces. */
  lemma OrderingCanFail()
    ensures !Ordered(PlainAttach(), Run(PlainAttach(), LimitsFail(), Steps(Parent, 17) + Steps(Transient, 5)))
  {
    var c, o := PlainAttach(), LimitsFail();
    ParentHangsUp(c, o, Init(), 17);
    EndOfFileEntersNamespace(c, o, RunFrom(c, o, Init(), Steps(Parent, 17)));
    RunInTwo(c, o, Init(), Steps(Parent, 17), Steps(Transient, 5));
  }

  // ---- progress ----------------------------------------------------------

  predicate Finished(s: State) {
    && s.parent == P_RETURNED && s.transient.TExited?
    && (s.attached.ANotCreated? || s.attached.AExited?)
  }

  lemma ParentNotStuck(c: Options, o: Outcomes, s: State)
    requires Inv(c, o, s) && s.transient.TExited? && !AttachedEnabled(c, s)
    ensures s.parent == P_RETURNED || ParentEnabled(c, s)
  {
  }

  lemma ChildrenNotStuck(c: Options, o: Outcomes, s: State)
    requires Inv(c, o, s) && !ParentEnabled(c, s) && !s.transient.TExited?
    ensures TransientEnabled(s)
  {
  }

  /** No state of any run has a live process and every process blocked. */
  lemma NoDeadlock(c: Options, o: Outcomes, s: State)
    requires Inv(c, o, s)
    ensures Finished(s) <==> !Enabled(c, s, Parent) && !Enabled(c, s, Transient) && !Enabled(c, s, Attached)
  {
    if !Enabled(c, s, Parent) && !Enabled(c, s, Transient) && !Enabled(c, s, Attached) {
      if !s.transient.TExited? {
        ChildrenNotStuck(c, o, s);
      } else {
        ParentNotStuck(c, o, s);
      }
    }
  }

  function TransientRank(c: Options, t: TransientPc): nat {
    match t
    case TCloseParentEnd => c.nsFds + 9
    case TAwaitWake => c.nsFds + 8
    case TCloseSelf => c.nsFds + 7
    case TCloseInit => c.nsFds + 6
    case TEnter(i) => 5 + if i < c.nsFds then c.nsFds - i else 0
    case TClone => 4
    case TSendPid => 3
    case TFail => 2
    case TExiting(_) => 1
    case TExited(_) => 0
  }

  function AttachedRank(a: AttachedPc): nat {
    match a
    case ANotCreated => 10
    case AStart => 9
    case ASetup => 8
    case AAwaitLabel => 7
    case ACredentials => 6
    case ALoadSeccomp => 5
    case ASendNotifier => 4
    case ASwitchIds => 3
    case AFail => 1
    case ARunProgram => 1
    case AExited(_) => 0
  }

  /** How many steps can still follow. */
  function Rank(c: Options, s: State): nat {
    P_RETURNED - s.parent + TransientRank(c, s.transient) + AttachedRank(s.attached)
  }

  lemma ParentLowersRank(c: Options, o: Outcomes, s: State)
    requires ParentEnabled(c, s)
    ensures Rank(c, ParentStep(c, o, s)) < Rank(c, s)
  {
  }

  lemma TransientLowersRank(c: Options, o: Outcomes, s: State)
    requires TransientEnabled(s) && Created(s.transient, s.attached)
    ensures Rank(c, TransientStep(c, o, s)) < Rank(c, s)
  {
  }

  lemma AttachedLowersRank(c: Options, o: Outcomes, s: State)
    requires AttachedEnabled(c, s)
    ensures Rank(c, AttachedStep(c, o, s)) < Rank(c, s)
  {
  }

  lemma StepLowersRank(c: Options, o: Outcomes, s: State, p: Process)
    requires Enabled(c, s, p)
    requires Created(s.transient, s.attached)
    ensures Rank(c, Step(c, o, s, p)) < Rank(c, s)
  {
    match p
    case Parent => ParentLowersRank(c, o, s);
    case Transient => TransientLowersRank(c, o, s);
    case Attached => AttachedLowersRank(c, o, s);
  }

  /** A run either takes a step, which lowers the rank, or nobody it schedules can move. */
  lemma {:induction false} RunLowersRank(c: Options, o: Outcomes, s: State, schedule: seq<Process>)
    requires Inv(c, o, s)
    ensures var t := RunFrom(c, o, s, schedule);
      || Rank(c, t) < Rank(c, s)
      || (t == s && forall p <- schedule :: !Enabled(c, s, p))
    decreases |schedule|
  {
    if schedule != [] {
      var p := schedule[0];
      StepKeeps(c, o, s, p);
      RunLowersRank(c, o, Step(c, o, s, p), schedule[1..]);
      if Enabled(c, s, p) {
        StepLowersRank(c, o, s, p);
      } else {
        assert schedule == [p] + schedule[1..];
      }
    }
  }

  /** A round gives each process at least one turn. */
  predicate Round(r: seq<Process>) { Parent in r && Transient in r && Attached in r }

  lemma {:induction false} RoundsFinish(c: Options, o: Outcomes, s: State, rounds: seq<seq<Process>>)
    requires Inv(c, o, s) && (forall r <- rounds :: Round(r)) && |rounds| >= Rank(c, s)
    ensures Finished(RunFrom(c, o, s, Concat(rounds)))
    decreases |rounds|
  {
    NoDeadlock(c, o, s);
    if rounds == [] {
      assert !Enabled(c, s, Parent);
    } else {
      var r := rounds[0];
      assert Round(r);
      RunInTwo(c, o, s, r, Concat(rounds[1..]));
      RunKeeps(c, o, s, r);
      RunLowersRank(c, o, s, r);
      if Finished(s) {
        StaysFinished(c, o, s, Concat(rounds));
      } else {
        RoundsFinish(c, o, RunFrom(c, o, s, r), rounds[1..]);
      }
    }
  }

  lemma {:induction false} StaysFinished(c: Options, o: Outcomes, s: State, schedule: seq<Process>)
    requires Finished(s)
    ensures RunFrom(c, o, s, schedule) == s
    decreases |schedule|
  {
    if schedule != [] {
      assert !Enabled(c, s, schedule[0]);
      StaysFinished(c, o, s, schedule[1..]);
    }
  }

  /**
   * Every fair run ends: lxc_attach() returns and both children exit, after at
   * most 37 plus the number of namespace descriptors rounds.
   */
  lemma EveryFairRunEnds(c: Options, o: Outcomes, rounds: seq<seq<Process>>)
    requires forall r <- rounds :: Round(r)
    requires |rounds| >= 37 + c.nsFds
    ensures Finished(Run(c, o, Concat(rounds)))
  {
    RoundsFinish(c, o, Init(), rounds);
  }

  // ---- reaping -----------------------------------------------------------

  /**
   * When lxc_attach() returns, the transient process has exited and been waited
   * for.  If the parent got the attached pid and reaped the transient process it
   * either hands the attached process over unreaped and returns 0, or returns an
   * error having waited for it exactly once; otherwise it returns an error
   * without ever having touched the attached process.
   */
  lemma ReturnsWithChildrenAccountedFor(c: Options, o: Outcomes, schedule: seq<Process>)
    ensures var s := Run(c, o, schedule); var b := s.books;
      s.parent == P_RETURNED ==>
        && s.transient.TExited? && b.waitedTransient >= 1
        && (if b.gotPid && b.reapedTransient then
              && b.waitedTransient == 1
              && (if b.ret == 0 then b.handedOver && b.waitedAttached == 0
                  else b.ret == -1 && b.waitedAttached == 1 && s.attached.AExited?)
            else b.ret == -1 && !b.handedOver && b.waitedAttached == 0)
  {
    Reachable(c, o, schedule);
  }

  /**
   * A successful return means the transient process was woken by the parent, the
   * parent's setup was complete, all namespaces were entered behind the barrier
   * and the label descriptor, if any, was sent.
   */
  lemma SuccessMeansAttached(c: Options, o: Outcomes, schedule: seq<Process>)
    ensures var s := Run(c, o, schedule);
      s.parent == P_RETURNED && s.books.ret == 0 ==>
        && s.ctx.woken && SetupDone(c, s.setup)
        && s.ctx.entered == Namespaces(c) && !s.attached.ANotCreated?
        && (c.lsmLabel ==> s.books.labelSent)
        && !s.sock.parentHolds0 && !s.sock.parentHolds1
  {
    Reachable(c, o, schedule);
  }
}
