/** What the results of child and parent say, whatever fails. */
module IdmappedResult {
  import opened IdmappedMounts
  import opened IdmappedInvariant

  // ---- the child -------------------------------------------------------------------

  /** The calls of the entry itself, up to the notification. */
  predicate Announced(e: Entry) {
    e.parsed && e.idmapped && e.supported && e.userns && e.send && e.ack.Received?
  }

  /** All of them. */
  predicate Works(e: Entry) { Announced(e) && e.mount }

  /** The parent has given up, because it could not idmap a mount or announce it. */
  predicate Broke(c: Config, s: State) {
    && s.parent.PReturned? && s.mntSeq < |s.sent| && Known(c, s.sent[s.mntSeq])
    && var e := EntryOf(c, s.sent[s.mntSeq]); !e.idmap || !e.notify
  }

  /** A parent that is gone while the child still works has given up. */
  predicate GoneMeansBroke(c: Config, s: State) { s.parent.PReturned? && !s.child.pc.CReturned? ==> Broke(c, s) }

  lemma StaysBroken(c: Config, s: State, p: Process)
    requires Broke(c, s)
    ensures Broke(c, Step(c, s, p))
  {
    var t := Step(c, s, p);
    assert t.mntSeq == s.mntSeq && s.sent <= t.sent;
  }

  /** A source that the child has left behind. */
  predicate SourceDone(c: Config, i: nat)
    requires i < |c.sources|
  {
    c.sources[i].opens && c.sources[i].endsWell
  }

  /** An entry that the child has left behind: not idmapped, attached, or optional with something that failed. */
  predicate EntryDone(c: Config, s: State, m: Mount)
    requires Known(c, m)
  {
    var e := EntryOf(c, m);
    && e.parsed
    && (e.idmapped ==> e.supported && (m in s.attached || (e.optional && (!Works(e) || Broke(c, s)))))
  }

  /** Everything before the child's position is done, and only what works is attached. */
  ghost predicate Done(c: Config, s: State) {
    && (forall i | 0 <= i < s.child.src && i < |c.sources| :: SourceDone(c, i))
    && (forall m: Mount | Known(c, m) && Before(m, s.child) :: EntryDone(c, s, m))
    && (s.child.pc == CSendEnd(true) || s.child.pc == CReturned(true) ==> s.child.src >= |c.sources|)
    && (s.child.src < |c.sources| && s.child.pos > 0 ==> c.sources[s.child.src].opens)
  }

  predicate AttachedWork(c: Config, s: State) {
    forall m <- s.attached :: Known(c, m) && Works(EntryOf(c, m)) && Before(m, s.child)
  }

  /** The calls of the entry that the child works on. */
  predicate CameTo(c: Config, s: State) {
    && (s.child.pc.CAwaitAck? || s.child.pc.CMount? ==>
          AtEntry(c, s.child) && c.sources[s.child.src].opens
          && var e := EntryAt(c, s.child); e.parsed && e.idmapped && e.supported && e.userns && e.send)
    && (s.child.pc.CMount? ==> EntryAt(c, s.child).ack.Received?)
  }

  lemma ChildComesOn(c: Config, s: State)
    requires CameTo(c, s) && ChildEnabled(c, s)
    ensures CameTo(c, ChildStep(c, s))
  {
  }

  lemma ChildAttachesWorking(c: Config, s: State)
    requires CameTo(c, s) && AttachedWork(c, s) && ChildEnabled(c, s)
    ensures AttachedWork(c, ChildStep(c, s))
  {
  }

  lemma ChildLeavesSources(c: Config, s: State)
    requires Done(c, s) && CameTo(c, s) && ChildEnabled(c, s)
    ensures var t := ChildStep(c, s);
      && (forall i | 0 <= i < t.child.src && i < |c.sources| :: SourceDone(c, i))
      && (t.child.pc == CSendEnd(true) || t.child.pc == CReturned(true) ==> t.child.src >= |c.sources|)
      && (t.child.src < |c.sources| && t.child.pos > 0 ==> c.sources[t.child.src].opens)
  {
  }

  lemma ChildLeavesEntry(c: Config, s: State, m: Mount)
    requires Done(c, s) && CameTo(c, s) && GoneMeansBroke(c, s) && ChildEnabled(c, s)
    requires Known(c, m) && Before(m, ChildStep(c, s).child)
    ensures EntryDone(c, ChildStep(c, s), m)
  {
    var t := ChildStep(c, s);
    if Broke(c, s) { StaysBroken(c, s, TheChild); }
    if Before(m, s.child) {
      assert EntryDone(c, s, m) && s.attached <= t.attached;
    } else {
      assert m == Mount(s.child.src, s.child.pos);
    }
  }

  lemma ChildKeepsDone(c: Config, s: State)
    requires Done(c, s) && CameTo(c, s) && GoneMeansBroke(c, s) && ChildEnabled(c, s)
    ensures Done(c, ChildStep(c, s))
  {
    ChildLeavesSources(c, s);
    forall m: Mount | Known(c, m) && Before(m, ChildStep(c, s).child) ensures EntryDone(c, ChildStep(c, s), m) {
      ChildLeavesEntry(c, s, m);
    }
  }

  lemma ParentKeepsDone(c: Config, s: State)
    requires Done(c, s) && ParentEnabled(s)
    ensures Done(c, ParentStep(c, s))
  {
    var t := ParentStep(c, s);
    assert !Broke(c, s);
    forall m: Mount | Known(c, m) && Before(m, t.child) ensures EntryDone(c, t, m) { assert EntryDone(c, s, m); }
  }

  /** The notification taken last does not have the number that the child has counted. */
  predicate WrongNumber(s: State) { s.taken > 0 && s.taken - 1 != s.child.mntSeq }

  /** What keeps the child from going on where it is. */
  predicate Stopped(c: Config, s: State) {
    s.child.src < |c.sources| &&
    var source := c.sources[s.child.src];
    || !source.opens
    || (s.child.pos >= |source.entries| && !source.endsWell)
    || (s.child.pos < |source.entries| &&
        var e := source.entries[s.child.pos];
        || !e.parsed
        || (e.idmapped && !e.supported)
        || (e.idmapped && !e.optional && (!Works(e) || Broke(c, s)))
        || (Announced(e) && WrongNumber(s)))
  }

  predicate EndIsLost(c: Config, s: State) { !c.endMarker || Broke(c, s) }

  predicate Excused(c: Config, s: State) {
    && (s.child.pc == CSendEnd(false) ==> Stopped(c, s))
    && (s.child.pc == CReturned(false) ==> Stopped(c, s) || EndIsLost(c, s))
    && (s.child.pc == CReturned(true) ==> c.endMarker)
  }

  lemma EntryKeepsExcuse(c: Config, s: State)
    requires s.child.pc.CEntry? && GoneMeansBroke(c, s)
    ensures Excused(c, ChildStep(c, s))
  {
  }

  lemma AckKeepsExcuse(c: Config, s: State)
    requires s.child.pc.CAwaitAck? && GoneMeansBroke(c, s) && CameTo(c, s) && ToChild(s) && ChildEnabled(c, s)
    ensures Excused(c, ChildStep(c, s))
  {
  }

  lemma MountKeepsExcuse(c: Config, s: State)
    requires s.child.pc.CMount? && CameTo(c, s)
    ensures Excused(c, ChildStep(c, s))
  {
  }

  lemma EndKeepsExcuse(c: Config, s: State)
    requires s.child.pc.CSendEnd? && GoneMeansBroke(c, s) && Excused(c, s)
    ensures Excused(c, ChildStep(c, s))
  {
  }

  lemma ChildKeepsExcuse(c: Config, s: State)
    requires Excused(c, s) && GoneMeansBroke(c, s) && CameTo(c, s) && ToChild(s) && ChildEnabled(c, s)
    ensures Excused(c, ChildStep(c, s))
  {
    match s.child.pc
    case CEntry => EntryKeepsExcuse(c, s);
    case CAwaitAck => AckKeepsExcuse(c, s);
    case CMount => MountKeepsExcuse(c, s);
    case CSendEnd(_) => EndKeepsExcuse(c, s);
    case CReturned(_) =>
  }

  lemma ParentKeepsExcuse(c: Config, s: State)
    requires Excused(c, s) && ParentEnabled(s)
    ensures Excused(c, ParentStep(c, s))
  {
    assert !Broke(c, s);
  }

  // ---- the parent ------------------------------------------------------------------

  /** A failed parent has given up, or the child has failed and left no end marker. */
  predicate ParentExcused(c: Config, s: State) {
    && (s.parent == PReturned(false) ==> Broke(c, s) || s.child.pc == CReturned(false))
    && (s.parent == PReturned(true) ==> s.child.pc.CReturned?)
  }

  lemma ChildKeepsParentExcuse(c: Config, s: State)
    requires ParentExcused(c, s) && ChildEnabled(c, s)
    ensures ParentExcused(c, ChildStep(c, s))
  {
    if Broke(c, s) { StaysBroken(c, s, TheChild); }
  }

  lemma ParentKeepsParentExcuse(c: Config, s: State)
    requires ParentExcused(c, s) && Inv(c, s) && ParentEnabled(s)
    ensures ParentExcused(c, ParentStep(c, s))
  {
  }

  // ---- every run -------------------------------------------------------------------

  ghost predicate Accounted(c: Config, s: State) {
    Done(c, s) && AttachedWork(c, s) && CameTo(c, s) && Excused(c, s) && ParentExcused(c, s)
    && GoneMeansBroke(c, s)
  }

  lemma StepKeepsAccounts(c: Config, s: State, p: Process)
    requires Inv(c, s) && Accounted(c, s)
    ensures Accounted(c, Step(c, s, p))
  {
    if Enabled(c, s, p) {
      match p
      case TheChild =>
        ChildComesOn(c, s);
        ChildAttachesWorking(c, s);
        ChildKeepsDone(c, s);
        ChildKeepsExcuse(c, s);
        ChildKeepsParentExcuse(c, s);
      case TheParent =>
        ParentKeepsDone(c, s);
        ParentKeepsExcuse(c, s);
        ParentKeepsParentExcuse(c, s);
    }
  }

  lemma {:induction false} RunKeepsAccounts(c: Config, s: State, schedule: seq<Process>)
    requires Inv(c, s) && Accounted(c, s)
    ensures Accounted(c, RunFrom(c, s, schedule))
    decreases |schedule|
  {
    if schedule != [] {
      StepKeeps(c, s, schedule[0]);
      StepKeepsAccounts(c, s, schedule[0]);
      RunKeepsAccounts(c, Step(c, s, schedule[0]), schedule[1..]);
    }
  }

  lemma AlwaysAccounted(c: Config, schedule: seq<Process>)
    ensures Accounted(c, Run(c, schedule))
  {
    InitKeeps(c);
    RunKeepsAccounts(c, Init(), schedule);
  }

  lemma InitKeeps(c: Config)
    ensures Inv(c, Init()) && Accounted(c, Init())
  {
  }

  /**
   * In every run, whatever fails, success of the child means that all sources were read
   * to a good end, that every entry was understood, and that every idmapped entry is
   * attached unless it is optional and one of its calls, or the parent, failed.
   */
  lemma ChildSuccessMeans(c: Config, schedule: seq<Process>)
    ensures var s := Run(c, schedule);
      s.child.pc == CReturned(true) ==>
        && c.endMarker && (forall source <- c.sources :: source.opens && source.endsWell)
        && forall m: Mount | Known(c, m) :: var e := EntryOf(c, m);
             && e.parsed
             && (e.idmapped ==> e.supported)
             && (e.idmapped && !e.optional ==> m in s.attached)
             && (e.idmapped && m !in s.attached ==> !Works(e) || Broke(c, s))
  {
    AlwaysAccounted(c, schedule);
    var s := Run(c, schedule);
    if s.child.pc == CReturned(true) {
      forall source | source in c.sources ensures source.opens && source.endsWell {
        var i :| 0 <= i < |c.sources| && c.sources[i] == source;
        assert SourceDone(c, i);
      }
      forall m: Mount | Known(c, m) ensures EntryDone(c, s, m) { assert Before(m, s.child); }
    }
  }

  /** Only entries are attached for which all of the child's calls succeed. */
  lemma OnlyWorkingIsAttached(c: Config, schedule: seq<Process>)
    ensures forall m <- Run(c, schedule).attached :: Known(c, m) && Works(EntryOf(c, m))
  {
    AlwaysAccounted(c, schedule);
  }

  /** A failure of the child has one of these reasons, at the entry where it stopped or at the very end. */
  lemma ChildFailureMeans(c: Config, schedule: seq<Process>)
    ensures var s := Run(c, schedule); s.child.pc == CReturned(false) ==> Stopped(c, s) || EndIsLost(c, s)
  {
    AlwaysAccounted(c, schedule);
  }

  /** A failure of the parent means that it gave up on a mount, or that the child had failed before. */
  lemma ParentFailureMeans(c: Config, schedule: seq<Process>)
    ensures var s := Run(c, schedule); s.parent == PReturned(false) ==> Broke(c, s) || s.child.pc == CReturned(false)
  {
    AlwaysAccounted(c, schedule);
  }
}
