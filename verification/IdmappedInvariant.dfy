/** What every step of the idmapped-mount exchange keeps. */
module IdmappedInvariant {
  import opened IdmappedMounts

  /** How many of the sent mounts the parent has taken from the queue. */
  function ParentAt(s: State): nat {
    s.mntSeq + if s.parent.PIdmap? || s.parent.PNotify? then 1 else 0
  }

  /** The messages the parent has not taken yet are the mounts sent last, then the end marker. */
  predicate ToParent(s: State) {
    s.parent.PReturned? || Queued(s.toParent, s.sent, ParentAt(s), s.child.pc)
  }

  predicate Queued(q: seq<Message>, sent: seq<Mount>, n: nat, pc: ChildPc) {
    && n <= |sent| && |q| >= |sent| - n
    && (forall i | 0 <= i < |sent| - n :: q[i] == Descriptors(sent[n + i]))
    && (if |q| == |sent| - n then pc.CReturned? ==> !pc.ok
        else |q| == |sent| - n + 1 && q[|sent| - n] == End && pc.CReturned?)
  }

  lemma FirstTaken(q: seq<Message>, sent: seq<Mount>, n: nat, pc: ChildPc)
    requires Queued(q, sent, n, pc) && q != [] && q[0].Descriptors?
    ensures Queued(q[1..], sent, n + 1, pc)
  {
  }

  /** The parent works on the mounts in the order they were sent. */
  predicate Working(s: State) {
    && ParentAt(s) <= |s.sent|
    && (s.parent.PIdmap? || s.parent.PNotify? ==> s.parent.mount == s.sent[s.mntSeq])
    && (forall i | 0 <= i < s.mntSeq :: s.sent[i] in s.idmapped)
    && (s.parent.PNotify? ==> s.parent.mount in s.idmapped)
  }

  /** Notifications arrive in order, numbered by position in the whole exchange. */
  predicate ToChild(s: State) {
    && s.taken + |s.toChild| == s.mntSeq
    && (forall i | 0 <= i < |s.toChild| :: s.toChild[i] == s.taken + i)
  }

  /** The mount being worked on is the one sent last. */
  predicate Current(c: Config, s: State) {
    && (s.child.pc.CAwaitAck? || s.child.pc.CMount? ==>
       AtEntry(c, s.child) && EntryAt(c, s.child).idmapped && s.sent != []
       && s.sent[|s.sent| - 1] == Mount(s.child.src, s.child.pos))
    && (s.child.pc.CAwaitAck? ==> s.taken < |s.sent|)
  }

  /** Mounts are sent in the order of the entries. */
  predicate Before(m: Mount, k: Child) { m.src < k.src || (m.src == k.src && m.pos < k.pos) }

  predicate InOrder(c: Config, s: State) {
    forall i | 0 <= i < |s.sent| ::
      && Known(c, s.sent[i])
      && (Before(s.sent[i], s.child)
          || (i == |s.sent| - 1 && !s.child.pc.CEntry? && s.sent[i] == Mount(s.child.src, s.child.pos)))
  }

  predicate Inv(c: Config, s: State) {
    ToParent(s) && Working(s) && ToChild(s) && Current(c, s) && InOrder(c, s)
  }

  lemma ChildKeepsToParent(c: Config, s: State)
    requires Inv(c, s) && ChildEnabled(c, s)
    ensures ToParent(ChildStep(c, s))
  {
  }

  lemma ChildKeepsWorking(c: Config, s: State)
    requires Working(s) && ChildEnabled(c, s)
    ensures Working(ChildStep(c, s))
  {
  }

  lemma ChildKeepsToChild(c: Config, s: State)
    requires ToChild(s) && Current(c, s) && ChildEnabled(c, s)
    ensures ToChild(ChildStep(c, s))
  {
  }

  lemma ChildKeepsCurrent(c: Config, s: State)
    requires Current(c, s) && ToChild(s) && s.mntSeq <= |s.sent| && ChildEnabled(c, s)
    ensures Current(c, ChildStep(c, s))
  {
  }

  lemma ChildKeepsInOrder(c: Config, s: State)
    requires InOrder(c, s) && ChildEnabled(c, s)
    ensures InOrder(c, ChildStep(c, s))
  {
  }

  lemma ParentKeepsToParent(c: Config, s: State)
    requires ToParent(s) && ParentEnabled(s)
    ensures ToParent(ParentStep(c, s))
  {
    if s.parent.PReceive? && s.toParent != [] && s.toParent[0].Descriptors? {
      FirstTaken(s.toParent, s.sent, s.mntSeq, s.child.pc);
    }
  }

  lemma ReceiveKeepsWorking(c: Config, s: State)
    requires s.parent.PReceive? && ToParent(s) && Working(s) && ParentEnabled(s)
    ensures Working(ParentStep(c, s))
  {
    if s.toParent != [] && s.toParent[0].Descriptors? {
      assert s.toParent[0] == Descriptors(s.sent[s.mntSeq + 0]);
    }
  }

  lemma IdmapKeepsWorking(c: Config, s: State)
    requires s.parent.PIdmap? && Working(s)
    ensures Working(ParentStep(c, s))
  {
    var t := ParentStep(c, s);
    assert t.sent == s.sent && t.mntSeq == s.mntSeq && s.idmapped <= t.idmapped;
  }

  lemma NotifyKeepsWorking(c: Config, s: State)
    requires s.parent.PNotify? && Working(s)
    ensures Working(ParentStep(c, s))
  {
    var t := ParentStep(c, s);
    assert t.sent == s.sent && t.idmapped == s.idmapped && t.mntSeq <= s.mntSeq + 1;
    assert s.sent[s.mntSeq] in s.idmapped;
  }

  lemma ParentKeepsWorking(c: Config, s: State)
    requires ToParent(s) && Working(s) && ParentEnabled(s)
    ensures Working(ParentStep(c, s))
  {
    if s.parent.PReceive? {
      ReceiveKeepsWorking(c, s);
    } else if s.parent.PIdmap? {
      IdmapKeepsWorking(c, s);
    } else {
      NotifyKeepsWorking(c, s);
    }
  }

  lemma ParentKeepsToChild(c: Config, s: State)
    requires ToChild(s) && ParentEnabled(s)
    ensures ToChild(ParentStep(c, s))
  {
  }

  lemma StepKeeps(c: Config, s: State, p: Process)
    requires Inv(c, s)
    ensures Inv(c, Step(c, s, p))
  {
    if Enabled(c, s, p) {
      match p
      case TheChild =>
        ChildKeepsToParent(c, s);
        ChildKeepsWorking(c, s);
        ChildKeepsToChild(c, s);
        ChildKeepsCurrent(c, s);
        ChildKeepsInOrder(c, s);
      case TheParent =>
        ParentKeepsToParent(c, s);
        ParentKeepsWorking(c, s);
        ParentKeepsToChild(c, s);
    }
  }

  lemma {:induction false} RunKeeps(c: Config, s: State, schedule: seq<Process>)
    requires Inv(c, s)
    ensures Inv(c, RunFrom(c, s, schedule))
    decreases |schedule|
  {
    if schedule != [] {
      StepKeeps(c, s, schedule[0]);
      RunKeeps(c, Step(c, s, schedule[0]), schedule[1..]);
    }
  }
}
