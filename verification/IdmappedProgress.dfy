/** When the idmapped-mount exchange succeeds, and that it always comes to an end. */
module IdmappedProgress {
  import opened IdmappedMounts
  import opened IdmappedInvariant
  import opened IdmappedTheorems
  import opened Schedules

  // ---- success -------------------------------------------------------------------

  /** A parent that nothing fails for returns only after the child has. */
  predicate ParentStays(s: State) { s.parent.PReturned? ==> s.child.pc.CReturned? }

  predicate EntryWell(e: Entry) {
    e.parsed && e.supported && e.userns && e.send && e.ack.Received? && e.mount && e.idmap && e.notify
  }

  /** Nothing fails on either side. */
  predicate AllWell(c: Config) {
    && c.endMarker
    && (forall i | 0 <= i < |c.sources| :: c.sources[i].opens && c.sources[i].endsWell)
    && (forall i, j | 0 <= i < |c.sources| && 0 <= j < |c.sources[i].entries| ::
          EntryWell(c.sources[i].entries[j]))
  }

  /** How many of the first n entries are idmapped. */
  function Count(entries: seq<Entry>, n: nat): nat
    requires n <= |entries|
  {
    if n == 0 then 0 else Count(entries, n - 1) + if entries[n - 1].idmapped then 1 else 0
  }

  function CountSource(c: Config, i: nat): nat
    requires i < |c.sources|
  {
    Count(c.sources[i].entries, |c.sources[i].entries|)
  }

  /** How many entries of the first n sources are idmapped. */
  function CountSources(c: Config, n: nat): nat
    requires n <= |c.sources|
  {
    if n == 0 then 0 else CountSources(c, n - 1) + CountSource(c, n - 1)
  }

  /** At most one source holds idmapped entries. */
  predicate OneSource(c: Config) {
    forall i, j | 0 <= i < j < |c.sources| :: CountSource(c, i) == 0 || CountSource(c, j) == 0
  }

  lemma {:induction false} EarlierSources(c: Config, n: nat)
    requires n <= |c.sources|
    ensures CountSources(c, n) == 0 <==> forall i | 0 <= i < n :: CountSource(c, i) == 0
    decreases n
  {
    if n > 0 { EarlierSources(c, n - 1); }
  }

  lemma {:induction false} CountGrows(entries: seq<Entry>, m: nat, n: nat)
    requires m <= n <= |entries|
    ensures Count(entries, m) <= Count(entries, n)
    decreases n
  {
    if m < n { CountGrows(entries, m, n - 1); }
  }

  /** No source before n holds idmapped entries together with an earlier one. */
  predicate NoClash(c: Config, n: nat)
    requires n <= |c.sources|
  {
    forall i | 0 <= i < n :: CountSources(c, i) == 0 || CountSource(c, i) == 0
  }

  lemma NoClashIsOneSource(c: Config)
    ensures NoClash(c, |c.sources|) <==> OneSource(c)
  {
    forall j | 0 <= j < |c.sources|
      ensures CountSources(c, j) == 0 <==> forall i | 0 <= i < j :: CountSource(c, i) == 0
    {
      EarlierSources(c, j);
    }
  }

  /** The counters while everything goes well. */
  predicate Counting(c: Config, s: State) {
    var k := s.child;
    k.src <= |c.sources| && NoClash(c, k.src) &&
    if k.src == |c.sources| then k.pc.CEntry? && s.taken == |s.sent|
    else
      var entries := c.sources[k.src].entries;
      k.pos <= |entries| &&
      var here, earlier := Count(entries, k.pos), CountSources(c, k.src);
      var more := if k.pc.CMount? then 1 else 0;
      && k.mntSeq == here + more && s.taken == earlier + here + more
      && |s.sent| == s.taken + (if k.pc.CAwaitAck? then 1 else 0)
      && (earlier > 0 ==> here + more == 0)
      && (!k.pc.CEntry? ==> k.pos < |entries| && entries[k.pos].idmapped)
  }

  predicate Outcome(c: Config, s: State) {
    match s.child.pc
    case CSendEnd(ok) => ok == OneSource(c)
    case CReturned(ok) => ok == OneSource(c)
    case _ => Counting(c, s)
  }

  ghost predicate AllAttachedBefore(c: Config, s: State) {
    forall m: Mount | Known(c, m) && EntryOf(c, m).idmapped ::
      (if s.child.pc.CSendEnd? || s.child.pc.CReturned? then s.child.pc.ok else Before(m, s.child)) ==>
        m in s.attached
  }

  lemma LastStepCounts(c: Config, s: State)
    requires AllWell(c) && s.child.pc.CEntry? && Counting(c, s) && s.child.src == |c.sources|
    ensures Outcome(c, ChildStep(c, s))
  {
    NoClashIsOneSource(c);
  }

  lemma NextSourceCounts(c: Config, s: State)
    requires AllWell(c) && s.child.pc.CEntry? && Counting(c, s)
    requires s.child.src < |c.sources| && s.child.pos == |c.sources[s.child.src].entries|
    ensures Counting(c, ChildStep(c, s))
  {
    var k, t := s.child, ChildStep(c, s);
    assert EntryAct(c, k, s.parent.PReturned?) == NextSource;
    assert t.child == Child(CEntry, k.src + 1, 0, 0) && t.taken == s.taken && t.sent == s.sent;
    assert CountSources(c, k.src + 1) == CountSources(c, k.src) + CountSource(c, k.src);
  }

  lemma BoundaryStepCounts(c: Config, s: State)
    requires AllWell(c) && s.child.pc.CEntry? && Counting(c, s) && !AtEntry(c, s.child)
    ensures Outcome(c, ChildStep(c, s))
  {
    if s.child.src == |c.sources| {
      LastStepCounts(c, s);
    } else {
      NextSourceCounts(c, s);
    }
  }

  lemma EntryStepCounts(c: Config, s: State)
    requires AllWell(c) && !s.parent.PReturned? && s.child.pc.CEntry? && Counting(c, s) && AtEntry(c, s.child)
    ensures Outcome(c, ChildStep(c, s))
  {
    assert EntryWell(EntryAt(c, s.child));
  }

  /** Idmapped entries in an earlier source as well: the numbers differ. */
  lemma ClashStops(c: Config, s: State)
    requires AllWell(c) && s.child.pc.CAwaitAck? && Counting(c, s) && ToChild(s) && s.toChild != []
    requires CountSources(c, s.child.src) > 0
    ensures ChildAct(c, s) == StopTaking && !OneSource(c)
  {
    var k := s.child;
    var entries := c.sources[k.src].entries;
    assert EntryWell(EntryAt(c, k));
    CountGrows(entries, k.pos + 1, |entries|);
    NoClashIsOneSource(c);
    assert !NoClash(c, |c.sources|);
  }

  lemma NoClashAccepts(c: Config, s: State)
    requires AllWell(c) && s.child.pc.CAwaitAck? && Counting(c, s) && ToChild(s) && s.toChild != []
    requires CountSources(c, s.child.src) == 0
    ensures ChildAct(c, s) == Accept && Counting(c, ChildStep(c, s))
  {
    assert EntryWell(EntryAt(c, s.child));
    assert s.toChild[0] == s.taken == s.child.mntSeq;
  }

  lemma AckStepCounts(c: Config, s: State)
    requires AllWell(c) && ParentStays(s) && s.child.pc.CAwaitAck? && Counting(c, s) && ChildEnabled(c, s)
    requires ToChild(s)
    ensures Outcome(c, ChildStep(c, s))
  {
    assert EntryWell(EntryAt(c, s.child));
    if CountSources(c, s.child.src) > 0 {
      ClashStops(c, s);
    } else {
      NoClashAccepts(c, s);
    }
  }

  lemma MountStepCounts(c: Config, s: State)
    requires AllWell(c) && s.child.pc.CMount? && Counting(c, s)
    ensures Outcome(c, ChildStep(c, s))
  {
    assert EntryWell(EntryAt(c, s.child));
  }

  lemma ChildStepAttaches(c: Config, s: State)
    requires AllWell(c) && ChildEnabled(c, s) && Outcome(c, s) && AllAttachedBefore(c, s) && ParentStays(s)
    ensures AllAttachedBefore(c, ChildStep(c, s))
  {
    var t, here := ChildStep(c, s), Mount(s.child.src, s.child.pos);
    assert s.attached <= t.attached;
    forall m: Mount | Known(c, m) && EntryOf(c, m).idmapped
      ensures (if t.child.pc.CSendEnd? || t.child.pc.CReturned? then t.child.pc.ok else Before(m, t.child))
              ==> m in t.attached
    {
      assert EntryWell(EntryOf(c, m));
      if m != here && !s.child.pc.CSendEnd? && !t.child.pc.CSendEnd? {
        assert Before(m, t.child) ==> Before(m, s.child);
      }
    }
  }

  ghost predicate GoingWell(c: Config, s: State) {
    Inv(c, s) && Outcome(c, s) && AllAttachedBefore(c, s) && ParentStays(s)
  }

  lemma ChildStepGoesWell(c: Config, s: State)
    requires AllWell(c) && GoingWell(c, s) && ChildEnabled(c, s)
    ensures Outcome(c, ChildStep(c, s)) && ParentStays(ChildStep(c, s))
  {
    match s.child.pc
    case CEntry => if AtEntry(c, s.child) { EntryStepCounts(c, s); } else { BoundaryStepCounts(c, s); }
    case CAwaitAck => AckStepCounts(c, s);
    case CMount => MountStepCounts(c, s);
    case _ =>
  }

  lemma ParentStepGoesWell(c: Config, s: State)
    requires AllWell(c) && GoingWell(c, s) && ParentEnabled(s)
    ensures var t := ParentStep(c, s); Outcome(c, t) && AllAttachedBefore(c, t) && ParentStays(t)
  {
    if s.parent.PIdmap? || s.parent.PNotify? {
      assert Known(c, s.sent[s.mntSeq]) && EntryWell(EntryOf(c, s.sent[s.mntSeq]));
    }
  }

  lemma {:induction false} RunGoesWell(c: Config, s: State, schedule: seq<Process>)
    requires AllWell(c) && GoingWell(c, s)
    ensures GoingWell(c, RunFrom(c, s, schedule))
    decreases |schedule|
  {
    if schedule != [] {
      var p := schedule[0];
      StepKeeps(c, s, p);
      if Enabled(c, s, p) {
        if p.TheChild? {
          ChildStepGoesWell(c, s);
          ChildStepAttaches(c, s);
        } else {
          ParentStepGoesWell(c, s);
        }
      }
      RunGoesWell(c, Step(c, s, p), schedule[1..]);
    }
  }

  /**
   * When nothing fails, the child succeeds exactly when at most one source holds
   * idmapped entries; then every idmapped entry is idmapped and attached.
   */
  lemma SucceedsExactlyWithOneSource(c: Config, schedule: seq<Process>)
    requires AllWell(c)
    ensures var s := Run(c, schedule); s.child.pc.CReturned? ==>
      && (s.child.pc.ok <==> OneSource(c))
      && (s.child.pc.ok ==> forall m: Mount | Known(c, m) && EntryOf(c, m).idmapped ::
            m in s.attached && m in s.idmapped)
  {
    assert NoLostAck(c) by {
      forall i, j | 0 <= i < |c.sources| && 0 <= j < |c.sources[i].entries|
        ensures KeepsItsAcks(c.sources[i].entries[j])
      {
        assert EntryWell(c.sources[i].entries[j]);
      }
    }
    AttachedMeansIdmapped(c, schedule);
    RunGoesWell(c, Init(), schedule);
  }

  // ---- progress -------------------------------------------------------------------

  predicate Finished(s: State) { s.child.pc.CReturned? && s.parent.PReturned? }

  /** The child waits only for a notification that is on its way. */
  lemma NoDeadlock(c: Config, s: State)
    requires Inv(c, s)
    ensures Finished(s) <==> !ChildEnabled(c, s) && !ParentEnabled(s)
  {
  }

  /** Entries and sources still ahead of the child. */
  function Ahead(c: Config, k: Child): nat
    decreases SourcesLeft(c, k)
  {
    if k.src >= |c.sources| then 0
    else 1 + Left(c, k) + Ahead(c, Child(CEntry, k.src + 1, 0, 0))
  }

  function ChildRank(c: Config, k: Child): nat {
    match k.pc
    case CEntry => 10 * Ahead(c, k) + 7
    case CAwaitAck => 10 * Ahead(c, k) + 3
    case CMount => 10 * Ahead(c, k) + 2
    case CSendEnd(_) => 5
    case CReturned(_) => 0
  }

  function Rank(c: Config, s: State): nat {
    ChildRank(c, s.child) + 3 * |s.toParent| +
    match s.parent
    case PReceive => 1
    case PIdmap(_) => 3
    case PNotify(_) => 2
    case PReturned(_) => 0
  }

  lemma ChildStepLowersRank(c: Config, s: State)
    requires Inv(c, s) && ChildEnabled(c, s)
    ensures Rank(c, ChildStep(c, s)) < Rank(c, s)
  {
  }

  lemma ParentStepLowersRank(c: Config, s: State)
    requires ParentEnabled(s)
    ensures Rank(c, ParentStep(c, s)) < Rank(c, s)
  {
  }

  /** A run either takes a step, which lowers the rank, or nobody it schedules can move. */
  lemma {:induction false} RunLowersRank(c: Config, s: State, schedule: seq<Process>)
    requires Inv(c, s)
    ensures var t := RunFrom(c, s, schedule);
      || Rank(c, t) < Rank(c, s)
      || (t == s && forall p <- schedule :: !Enabled(c, s, p))
    decreases |schedule|
  {
    if schedule != [] {
      var p := schedule[0];
      StepKeeps(c, s, p);
      RunLowersRank(c, Step(c, s, p), schedule[1..]);
      if Enabled(c, s, p) {
        if p.TheChild? { ChildStepLowersRank(c, s); } else { ParentStepLowersRank(c, s); }
      } else {
        assert schedule == [p] + schedule[1..];
      }
    }
  }

  /** A round gives both sides at least one turn. */
  predicate Round(r: seq<Process>) { TheChild in r && TheParent in r }

  lemma {:induction false} RoundsFinish(c: Config, s: State, rounds: seq<seq<Process>>)
    requires Inv(c, s) && (forall r <- rounds :: Round(r)) && |rounds| >= Rank(c, s)
    ensures Finished(RunFrom(c, s, Concat(rounds)))
    decreases |rounds|
  {
    NoDeadlock(c, s);
    if rounds != [] {
      var r := rounds[0];
      assert Round(r);
      RunInTwo(c, s, r, Concat(rounds[1..]));
      RunKeeps(c, s, r);
      RunLowersRank(c, s, r);
      if Finished(s) {
        StaysFinished(c, s, Concat(rounds));
      } else {
        RoundsFinish(c, RunFrom(c, s, r), rounds[1..]);
      }
    }
  }

  lemma {:induction false} StaysFinished(c: Config, s: State, schedule: seq<Process>)
    requires Finished(s)
    ensures RunFrom(c, s, schedule) == s
    decreases |schedule|
  {
    if schedule != [] {
      assert !Enabled(c, s, schedule[0]);
      StaysFinished(c, s, schedule[1..]);
    }
  }

  /** Every fair run ends with both sides returned, whatever fails on the way. */
  lemma EveryFairRunEnds(c: Config, rounds: seq<seq<Process>>)
    requires forall r <- rounds :: Round(r)
    requires |rounds| >= 10 * Ahead(c, Init().child) + 8
    ensures Finished(Run(c, Concat(rounds)))
  {
    RoundsFinish(c, Init(), rounds);
  }

  /**
   * The parent's loop ends well only at the child's end marker, and by then it has
   * idmapped and acknowledged every mount that was sent.
   */
  lemma ParentEndsAtTheMarker(c: Config, s: State)
    requires Inv(c, s) && ParentEnabled(s)
    ensures var t := ParentStep(c, s);
      t.parent == PReturned(true) <==> s.parent.PReceive? && s.toParent == [End]
    ensures ParentStep(c, s).parent == PReturned(true) ==>
      s.child.pc.CReturned? && s.mntSeq == |s.sent| && forall m <- s.sent :: m in s.idmapped
  {
  }
}
