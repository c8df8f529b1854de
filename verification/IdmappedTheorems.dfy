/** Safety, its exact limits, success and progress of the idmapped-mount exchange. */
module IdmappedTheorems {
  import opened IdmappedMounts
  import opened IdmappedInvariant

  /** The child has attached only mounts the parent has idmapped. */
  predicate Safe(s: State) { s.attached <= s.idmapped }

  // ---- no notification is ever left behind -------------------------------------

  predicate KeepsItsAcks(e: Entry) { e.idmapped && e.optional ==> !e.ack.Interrupted? }

  /** No optional entry gives up waiting while its notification stays in the queue. */
  predicate NoLostAck(c: Config) {
    forall i, j | 0 <= i < |c.sources| && 0 <= j < |c.sources[i].entries| ::
      KeepsItsAcks(c.sources[i].entries[j])
  }

  predicate InStep(s: State) {
    match s.child.pc
    case CEntry => s.taken == |s.sent| || s.parent.PReturned?
    case CAwaitAck => s.taken + 1 == |s.sent|
    case CMount => s.taken == |s.sent|
    case _ => true
  }

  lemma SentLastIsIdmapped(c: Config, s: State)
    requires Inv(c, s) && s.child.pc.CMount? && s.taken == |s.sent|
    ensures Mount(s.child.src, s.child.pos) in s.idmapped
  {
    assert s.mntSeq == |s.sent|;
  }

  lemma EntryStaysInStep(c: Config, s: State)
    requires s.child.pc.CEntry? && InStep(s) && Safe(s)
    ensures var t := ChildStep(c, s); InStep(t) && Safe(t)
  {
  }

  lemma AckStaysInStep(c: Config, s: State)
    requires NoLostAck(c) && s.child.pc.CAwaitAck? && ChildEnabled(c, s) && Current(c, s) && InStep(s) && Safe(s)
    ensures var t := ChildStep(c, s); InStep(t) && Safe(t)
  {
    assert KeepsItsAcks(EntryAt(c, s.child));
  }

  lemma MountStaysInStep(c: Config, s: State)
    requires s.child.pc.CMount? && Inv(c, s) && InStep(s) && Safe(s)
    ensures var t := ChildStep(c, s); InStep(t) && Safe(t)
  {
    SentLastIsIdmapped(c, s);
  }

  lemma ParentStaysInStep(c: Config, s: State)
    requires InStep(s) && Safe(s)
    ensures var t := ParentStep(c, s); InStep(t) && Safe(t)
  {
  }

  lemma StepStaysInStep(c: Config, s: State, p: Process)
    requires NoLostAck(c) && Inv(c, s) && InStep(s) && Safe(s)
    ensures var t := Step(c, s, p); InStep(t) && Safe(t)
  {
    if Enabled(c, s, p) {
      if p.TheParent? {
        ParentStaysInStep(c, s);
      } else {
        match s.child.pc
        case CEntry => EntryStaysInStep(c, s);
        case CAwaitAck => AckStaysInStep(c, s);
        case CMount => MountStaysInStep(c, s);
        case _ =>
      }
    }
  }

  lemma {:induction false} RunStaysInStep(c: Config, s: State, schedule: seq<Process>)
    requires NoLostAck(c) && Inv(c, s) && InStep(s) && Safe(s)
    ensures Safe(RunFrom(c, s, schedule))
    decreases |schedule|
  {
    if schedule != [] {
      StepStaysInStep(c, s, schedule[0]);
      StepKeeps(c, s, schedule[0]);
      RunStaysInStep(c, Step(c, s, schedule[0]), schedule[1..]);
    }
  }

  /**
   * Whatever else fails, on either side and in any interleaving, a mount is
   * attached only after the parent has idmapped that very mount, provided no
   * optional entry abandons a notification in the queue.
   */
  lemma AttachedMeansIdmapped(c: Config, schedule: seq<Process>)
    requires NoLostAck(c)
    ensures Safe(Run(c, schedule))
  {
    RunStaysInStep(c, Init(), schedule);
  }

  // ---- exactly when it can go wrong ----------------------------------------------

  /** The parent idmaps the entry's mount and gets its notification out. */
  predicate Healthy(e: Entry) { e.idmap && e.notify }

  /** Among the mounts sent, number n is one that the parent will answer. */
  predicate Answered(c: Config, sent: seq<Mount>, n: nat) {
    n < |sent| && Known(c, sent[n]) && Healthy(EntryOf(c, sent[n]))
  }

  function Left(c: Config, k: Child): nat {
    if k.src < |c.sources| && k.pos <= |c.sources[k.src].entries|
    then |c.sources[k.src].entries| - k.pos else 0
  }

  function SourcesLeft(c: Config, k: Child): nat {
    if k.src <= |c.sources| then |c.sources| - k.src else 0
  }

  /**
   * Counting alone, with no parent, no queue and no interleaving: does the child
   * come to an entry that it attaches with a number that is due (its own counter
   * equals the notifications taken) although fewer notifications were taken than
   * descriptors sent?  The count stops where the parent would fail.
   */
  predicate Overtakes(c: Config, k: Child, sent: seq<Mount>, taken: nat)
    decreases SourcesLeft(c, k), Left(c, k), 2
  {
    var a := EntryAct(c, k, false);
    if a.Finish? then false
    else if a.Send? then OvertakesAtAck(c, ChildNext(k, Send), sent + [Mount(k.src, k.pos)], taken)
    else k.src < |c.sources| && Overtakes(c, ChildNext(k, a), sent, taken)
  }

  /** The same, from the point where the descriptors of this entry have been sent. */
  predicate OvertakesAtAck(c: Config, k: Child, sent: seq<Mount>, taken: nat)
    decreases SourcesLeft(c, k), Left(c, k), 1
  {
    AtEntry(c, k) &&
    var e := EntryAt(c, k);
    match e.ack
    case Interrupted => e.optional && Overtakes(c, ChildNext(k, Skip), sent, taken)
    case Rejected => e.optional && Answered(c, sent, taken) && Overtakes(c, ChildNext(k, Skip), sent, taken + 1)
    case Received =>
      taken == k.mntSeq && Answered(c, sent, taken) && OvertakesAtMount(c, ChildNext(k, Accept), sent, taken + 1)
  }

  /** The same, from the point where the notification has been accepted. */
  predicate OvertakesAtMount(c: Config, k: Child, sent: seq<Mount>, taken: nat)
    decreases SourcesLeft(c, k), Left(c, k), 0
  {
    AtEntry(c, k) &&
    var e := EntryAt(c, k);
    || (e.mount && taken < |sent|)
    || ((e.mount || e.optional) && Overtakes(c, ChildNext(k, Skip), sent, taken))
  }

  /** Overtaking from where the child stands. */
  predicate OvertakesFrom(c: Config, s: State) {
    match s.child.pc
    case CEntry => Overtakes(c, s.child, s.sent, s.taken)
    case CAwaitAck => OvertakesAtAck(c, s.child, s.sent, s.taken)
    case CMount => OvertakesAtMount(c, s.child, s.sent, s.taken)
    case _ => false
  }

  /** Every mount that the parent is done with is one that it answers. */
  predicate Served(c: Config, s: State) {
    && (forall i | 0 <= i < s.mntSeq :: Answered(c, s.sent, i))
    && (s.parent.PNotify? ==> Known(c, s.parent.mount) && EntryOf(c, s.parent.mount).idmap)
  }

  lemma ChildKeepsServed(c: Config, s: State)
    requires Served(c, s)
    ensures Served(c, ChildStep(c, s))
  {
    var t := ChildStep(c, s);
    assert t.mntSeq == s.mntSeq && t.parent == s.parent && |s.sent| <= |t.sent|;
    forall i | 0 <= i < t.mntSeq ensures Answered(c, t.sent, i) {
      assert Answered(c, s.sent, i) && t.sent[i] == s.sent[i];
    }
  }

  lemma ParentKeepsServed(c: Config, s: State)
    requires Served(c, s) && Working(s)
    ensures Served(c, ParentStep(c, s))
  {
    var t := ParentStep(c, s);
    forall i | 0 <= i < t.mntSeq ensures Answered(c, t.sent, i) {
      assert i < s.mntSeq ==> Answered(c, s.sent, i);
    }
  }

  /**
   * The child can still attach something: after the parent has returned only with a
   * notification that is already there.
   */
  predicate StillMoving(s: State) {
    s.parent.PReturned? ==> s.child.pc.CMount? || (s.child.pc.CAwaitAck? && s.toChild != [])
  }

  lemma EntryStepFollowsCount(c: Config, s: State)
    requires s.child.pc.CEntry? && StillMoving(ChildStep(c, s))
    ensures OvertakesFrom(c, ChildStep(c, s)) ==> StillMoving(s) && OvertakesFrom(c, s)
  {
  }

  lemma AckStepFollowsCount(c: Config, s: State)
    requires s.child.pc.CAwaitAck? && ChildEnabled(c, s) && StillMoving(ChildStep(c, s))
    requires Current(c, s) && ToChild(s) && Served(c, s)
    ensures OvertakesFrom(c, ChildStep(c, s)) ==> StillMoving(s) && OvertakesFrom(c, s)
  {
    assert s.toChild != [] ==> s.toChild[0] == s.taken && Answered(c, s.sent, s.taken);
  }

  lemma MountStepFollowsCount(c: Config, s: State)
    requires s.child.pc.CMount? && Current(c, s)
    ensures StillMoving(ChildStep(c, s)) && OvertakesFrom(c, ChildStep(c, s)) ==> OvertakesFrom(c, s)
    ensures ChildAct(c, s).Attach? && s.taken < |s.sent| ==> OvertakesFrom(c, s)
  {
  }

  /** Being unsafe, now or later, means overtaking from the start. */
  predicate CountDecides(c: Config, s: State) {
    && Served(c, s)
    && ((StillMoving(s) && OvertakesFrom(c, s)) || !Safe(s) ==> OvertakesFrom(c, Init()))
  }

  lemma MountStepDecides(c: Config, s: State)
    requires Inv(c, s) && CountDecides(c, s) && s.child.pc.CMount?
    ensures CountDecides(c, ChildStep(c, s))
  {
    ChildKeepsServed(c, s);
    MountStepFollowsCount(c, s);
    if s.taken == |s.sent| { SentLastIsIdmapped(c, s); }
  }

  lemma EntryStepDecides(c: Config, s: State)
    requires CountDecides(c, s) && s.child.pc.CEntry?
    ensures CountDecides(c, ChildStep(c, s))
  {
    ChildKeepsServed(c, s);
    if StillMoving(ChildStep(c, s)) { EntryStepFollowsCount(c, s); }
  }

  lemma AckStepDecides(c: Config, s: State)
    requires Inv(c, s) && CountDecides(c, s) && s.child.pc.CAwaitAck? && ChildEnabled(c, s)
    ensures CountDecides(c, ChildStep(c, s))
  {
    ChildKeepsServed(c, s);
    if StillMoving(ChildStep(c, s)) { AckStepFollowsCount(c, s); }
  }

  lemma ChildStepDecides(c: Config, s: State)
    requires Inv(c, s) && CountDecides(c, s) && ChildEnabled(c, s)
    ensures CountDecides(c, ChildStep(c, s))
  {
    match s.child.pc
    case CEntry => EntryStepDecides(c, s);
    case CAwaitAck => AckStepDecides(c, s);
    case CMount => MountStepDecides(c, s);
    case _ => ChildKeepsServed(c, s);
  }

  lemma ParentStepDecides(c: Config, s: State)
    requires Inv(c, s) && CountDecides(c, s) && ParentEnabled(s)
    ensures CountDecides(c, ParentStep(c, s))
  {
    ParentKeepsServed(c, s);
  }

  lemma {:induction false} RunDecides(c: Config, s: State, schedule: seq<Process>)
    requires Inv(c, s) && CountDecides(c, s)
    ensures CountDecides(c, RunFrom(c, s, schedule))
    decreases |schedule|
  {
    if schedule != [] {
      var p := schedule[0];
      StepKeeps(c, s, p);
      if Enabled(c, s, p) {
        if p.TheChild? { ChildStepDecides(c, s); } else { ParentStepDecides(c, s); }
      }
      RunDecides(c, Step(c, s, p), schedule[1..]);
    }
  }

  // ---- a lazy parent shows it ------------------------------------------------------

  /** The parent has worked off exactly the mounts whose notifications were taken. */
  predicate Lazy(c: Config, s: State) {
    && Inv(c, s) && s.parent.PReceive? && s.mntSeq == s.taken && s.toChild == []
    && (forall m <- s.idmapped :: exists i :: 0 <= i < s.taken && s.sent[i] == m)
    && !s.child.pc.CReturned? && !s.child.pc.CSendEnd?
  }

  /** Three steps of the parent deliver the next notification. */
  lemma ParentDelivers(c: Config, s: State) returns (t: State)
    requires Lazy(c, s) && Answered(c, s.sent, s.taken)
    ensures t == RunFrom(c, s, [TheParent, TheParent, TheParent])
    ensures Inv(c, t) && t.parent.PReceive? && t.mntSeq == s.taken + 1 && t.toChild == [s.taken]
    ensures t.child == s.child && t.sent == s.sent && t.taken == s.taken && t.attached == s.attached
    ensures t.idmapped == s.idmapped + {s.sent[s.taken]}
  {
    var m := s.sent[s.taken];
    var s1 := Step(c, s, TheParent);
    assert s.toParent[0] == Descriptors(m) && s1.parent == PIdmap(m);
    var s2 := Step(c, s1, TheParent);
    t := Step(c, s2, TheParent);
    StepKeeps(c, s, TheParent);
    StepKeeps(c, s1, TheParent);
    StepKeeps(c, s2, TheParent);
    RunThree(c, s, TheParent, TheParent, TheParent);
  }

  lemma RunThree(c: Config, s: State, p: Process, q: Process, r: Process)
    ensures RunFrom(c, s, [p, q, r]) == Step(c, Step(c, Step(c, s, p), q), r)
  {
    var s1 := Step(c, s, p);
    RunOne(c, s, p, [q, r]);
    RunOne(c, s1, q, [r]);
    RunOne(c, Step(c, s1, q), r, []);
    assert [p, q, r] == [p] + [q, r] && [q, r] == [q] + [r] && [r] == [r] + [];
  }

  lemma {:induction false} RunInTwo(c: Config, s: State, a: seq<Process>, b: seq<Process>)
    ensures RunFrom(c, s, a + b) == RunFrom(c, RunFrom(c, s, a), b)
    decreases |a|
  {
    if a == [] {
      assert a + b == b;
    } else {
      assert (a + b)[1..] == a[1..] + b;
      RunInTwo(c, Step(c, s, a[0]), a[1..], b);
    }
  }

  lemma RunOne(c: Config, s: State, p: Process, b: seq<Process>)
    ensures RunFrom(c, s, [p] + b) == RunFrom(c, Step(c, s, p), b)
  {
    assert ([p] + b)[1..] == b;
  }

  /** From a lazy state that overtakes, a schedule to an unsafe state. */
  lemma {:induction false} LazyEntry(c: Config, s: State) returns (schedule: seq<Process>)
    requires Lazy(c, s) && s.child.pc.CEntry? && OvertakesFrom(c, s)
    ensures !Safe(RunFrom(c, s, schedule))
    decreases SourcesLeft(c, s.child), Left(c, s.child), 2
  {
    var t := Step(c, s, TheChild);
    StepKeeps(c, s, TheChild);
    if EntryAct(c, s.child, false).Send? {
      assert forall i | 0 <= i < s.taken :: t.sent[i] == s.sent[i];
      schedule := LazyAck(c, t);
    } else {
      schedule := LazyEntry(c, t);
    }
    RunOne(c, s, TheChild, schedule);
    schedule := [TheChild] + schedule;
  }

  lemma {:induction false} LazyAck(c: Config, s: State) returns (schedule: seq<Process>)
    requires Lazy(c, s) && s.child.pc.CAwaitAck? && OvertakesFrom(c, s)
    ensures !Safe(RunFrom(c, s, schedule))
    decreases SourcesLeft(c, s.child), Left(c, s.child), 1
  {
    var e := EntryAt(c, s.child);
    if e.ack.Interrupted? {
      var t := Step(c, s, TheChild);
      StepKeeps(c, s, TheChild);
      schedule := LazyEntry(c, t);
      RunOne(c, s, TheChild, schedule);
      schedule := [TheChild] + schedule;
    } else {
      var t := ParentDelivers(c, s);
      var u := Step(c, t, TheChild);
      StepKeeps(c, t, TheChild);
      LazyAfterDelivery(c, s, t, u);
      if e.ack.Rejected? {
        schedule := LazyEntry(c, u);
      } else {
        schedule := LazyMount(c, u);
      }
      RunOne(c, t, TheChild, schedule);
      RunInTwo(c, s, [TheParent, TheParent, TheParent], [TheChild] + schedule);
      schedule := [TheParent, TheParent, TheParent] + ([TheChild] + schedule);
    }
  }

  lemma LazyAfterDelivery(c: Config, s: State, t: State, u: State)
    requires Lazy(c, s) && s.child.pc.CAwaitAck? && OvertakesFrom(c, s) && !EntryAt(c, s.child).ack.Interrupted?
    requires t.parent.PReceive? && t.mntSeq == s.taken + 1 && t.toChild == [s.taken]
    requires t.child == s.child && t.sent == s.sent && t.taken == s.taken && s.taken < |s.sent|
    requires t.idmapped == s.idmapped + {s.sent[s.taken]}
    requires u == Step(c, t, TheChild) && Inv(c, u)
    ensures Lazy(c, u) && OvertakesFrom(c, u) && SourcesLeft(c, u.child) == SourcesLeft(c, s.child)
    ensures if EntryAt(c, s.child).ack.Rejected?
            then u.child.pc.CEntry? && Left(c, u.child) < Left(c, s.child)
            else u.child.pc.CMount? && Left(c, u.child) == Left(c, s.child)
  {
    assert u.idmapped == t.idmapped && u.sent == s.sent && u.taken == s.taken + 1;
  }

  lemma {:induction false} LazyMount(c: Config, s: State) returns (schedule: seq<Process>)
    requires Lazy(c, s) && s.child.pc.CMount? && OvertakesFrom(c, s)
    ensures !Safe(RunFrom(c, s, schedule))
    decreases SourcesLeft(c, s.child), Left(c, s.child), 0
  {
    var t := Step(c, s, TheChild);
    StepKeeps(c, s, TheChild);
    if EntryAt(c, s.child).mount && s.taken < |s.sent| {
      var m := Mount(s.child.src, s.child.pos);
      assert m in t.attached;
      assert m !in s.idmapped;
      schedule := [];
    } else {
      schedule := LazyEntry(c, t);
    }
    RunOne(c, s, TheChild, schedule);
    schedule := [TheChild] + schedule;
  }

  /**
   * For every configuration and whatever fails on either side, mounts are attached
   * only after being idmapped in every interleaving exactly when counting descriptors
   * and notifications along the entries never lets the child get ahead.
   */
  lemma SafeExactlyWhenCountsAgree(c: Config)
    ensures (forall schedule :: Safe(Run(c, schedule))) <==> !Overtakes(c, Init().child, [], 0)
  {
    if Overtakes(c, Init().child, [], 0) {
      var schedule := LazyEntry(c, Init());
      assert !Safe(Run(c, schedule));
    } else {
      forall schedule ensures Safe(Run(c, schedule)) {
        RunDecides(c, Init(), schedule);
      }
    }
  }

  // ---- one configuration that goes wrong -------------------------------------------

  function GoodEntry(optional: bool, ack: AckOutcome): Entry {
    Entry(true, true, optional, true, true, true, ack, true, true, true)
  }

  /** An optional entry that is interrupted while waiting, and a second entry. */
  function InterruptedFirst(): Config {
    Config([Source([GoodEntry(true, Interrupted), GoodEntry(false, Received)], true, true)], true)
  }

  lemma InterruptedFirstOvertakes()
    ensures Overtakes(InterruptedFirst(), Init().child, [], 0)
  {
    var c := InterruptedFirst();
    var k0 := Init().child;
    var k1 := ChildNext(k0, Send);
    var k2 := ChildNext(k1, Skip);
    var k3 := ChildNext(k2, Send);
    var k4 := ChildNext(k3, Accept);
    var m0, m1 := Mount(0, 0), Mount(0, 1);
    assert [] + [m0] == [m0] && [m0] + [m1] == [m0, m1];
    assert OvertakesAtMount(c, k4, [m0, m1], 1);
    assert OvertakesAtAck(c, k3, [m0, m1], 0);
    assert Overtakes(c, k2, [m0], 0);
    assert OvertakesAtAck(c, k1, [m0], 0);
  }

  /** The second mount is attached on the strength of the notification for the first. */
  lemma SafetyCanFail()
    ensures exists schedule :: !Safe(Run(InterruptedFirst(), schedule))
  {
    InterruptedFirstOvertakes();
    SafeExactlyWhenCountsAgree(InterruptedFirst());
  }

  /** The same two entries, but the parent cannot idmap the first. */
  function UnmappableFirst(): Config {
    Config([Source([GoodEntry(true, Interrupted).(idmap := false), GoodEntry(false, Received)], true, true)], true)
  }

  /** Then the parent is gone before it could notify, and nothing goes wrong. */
  lemma FailingParentCanSave(schedule: seq<Process>)
    ensures Safe(Run(UnmappableFirst(), schedule))
  {
    var c := UnmappableFirst();
    var k0 := Init().child;
    var k1 := ChildNext(k0, Send);
    var k2 := ChildNext(k1, Skip);
    var k3 := ChildNext(k2, Send);
    var m0, m1 := Mount(0, 0), Mount(0, 1);
    assert [] + [m0] == [m0] && [m0] + [m1] == [m0, m1];
    assert !OvertakesAtAck(c, k3, [m0, m1], 0);
    assert !Overtakes(c, k2, [m0], 0);
    assert !OvertakesAtAck(c, k1, [m0], 0);
    SafeExactlyWhenCountsAgree(c);
  }
}
