/**
 * The exchange in which the container's child asks its parent to idmap detached
 * mounts.  The child walks the mount sources in order and counts per source; the
 * parent counts over the whole exchange.  Every call that can fail has a recorded
 * outcome in the entry it belongs to; the interleaving is a schedule.
 */
module IdmappedMounts {

  /** What happens when the child waits for the parent's notification. */
  datatype AckOutcome =
    | Received
    | Interrupted  // recvmsg() fails and leaves the message in the queue
    | Rejected     // the message is taken but its credentials are refused

  datatype Entry = Entry(
    parsed: bool,      // both option parsers accept the entry
    idmapped: bool,    // it names a user namespace
    optional: bool,
    supported: bool,   // bind mount, no type, no data, detached mount created
    userns: bool,      // the user namespace can be opened
    send: bool,        // the two descriptors can be sent
    ack: AckOutcome,
    mount: bool,       // attributes, propagation, target and move all succeed
    idmap: bool,       // the parent's mount_setattr()
    notify: bool)      // the parent's notification can be sent

  /** The entries of the configuration, or those of an fstab file. */
  datatype Source = Source(entries: seq<Entry>, opens: bool, endsWell: bool)

  datatype Config = Config(sources: seq<Source>, endMarker: bool)

  /** A detached mount is known by the entry it was created for. */
  datatype Mount = Mount(src: nat, pos: nat)

  datatype Message = Descriptors(mount: Mount) | End

  datatype ChildPc = CEntry | CAwaitAck | CMount | CSendEnd(ok: bool) | CReturned(ok: bool)

  datatype Child = Child(pc: ChildPc, src: nat, pos: nat, mntSeq: nat)

  datatype ParentPc = PReceive | PIdmap(mount: Mount) | PNotify(mount: Mount) | PReturned(ok: bool)

  datatype Process = TheChild | TheParent

  datatype State = State(
    child: Child, parent: ParentPc, mntSeq: nat,
    toParent: seq<Message>, toChild: seq<nat>,
    // history
    sent: seq<Mount>, taken: nat, idmapped: set<Mount>, attached: set<Mount>)

  function Init(): State {
    State(Child(CEntry, 0, 0, 0), PReceive, 0, [], [], [], 0, {}, {})
  }

  // ---- the child -----------------------------------------------------------

  predicate AtEntry(c: Config, k: Child) {
    k.src < |c.sources| && k.pos < |c.sources[k.src].entries|
  }

  function EntryAt(c: Config, k: Child): Entry
    requires AtEntry(c, k)
  {
    c.sources[k.src].entries[k.pos]
  }

  /** What one step of the child amounts to. */
  datatype Act =
    | Finish(ok: bool)      // go on to send the end marker
    | NextSource
    | Skip                  // leave this entry
    | Send
    | SkipTaking            // take the notification and leave this entry
    | StopTaking            // take it and fail: wrong sequence number
    | Accept                // take it and go on
    | Attach

  /** An optional entry is skipped where a required one is an error. */
  function Unless(optional: bool): Act { if optional then Skip else Finish(false) }

  function EntryAct(c: Config, k: Child, parentGone: bool): Act {
    if k.src >= |c.sources| then Finish(true)
    else
      var source := c.sources[k.src];
      if !source.opens then Finish(false)
      else if k.pos >= |source.entries| then if source.endsWell then NextSource else Finish(false)
      else
        var e := source.entries[k.pos];
        if !e.parsed then Finish(false)
        else if !e.idmapped then Skip
        else if !e.supported then Finish(false)
        else if !e.userns || !e.send || parentGone then Unless(e.optional)
        else Send
  }

  function AckAct(e: Entry, mntSeq: nat, toChild: seq<nat>): Act {
    if e.ack.Interrupted? || toChild == [] then Unless(e.optional)
    else if e.ack.Rejected? then if e.optional then SkipTaking else StopTaking
    else if toChild[0] != mntSeq then StopTaking
    else Accept
  }

  function ChildAct(c: Config, s: State): Act {
    match s.child.pc
    case CEntry => EntryAct(c, s.child, s.parent.PReturned?)
    case CAwaitAck => if AtEntry(c, s.child) then AckAct(EntryAt(c, s.child), s.child.mntSeq, s.toChild) else Skip
    case CMount =>
      if AtEntry(c, s.child) && !EntryAt(c, s.child).mount
      then Unless(EntryAt(c, s.child).optional) else Attach
    case CSendEnd(ok) => Finish(ok)
    case CReturned(ok) => Finish(ok)
  }

  predicate ChildEnabled(c: Config, s: State) {
    match s.child.pc
    case CAwaitAck =>
      s.toChild != [] || s.parent.PReturned?
      || (AtEntry(c, s.child) && EntryAt(c, s.child).ack.Interrupted?)
    case CReturned(_) => false
    case _ => true
  }

  function ChildNext(k: Child, a: Act): Child {
    match a
    case Finish(ok) => k.(pc := CSendEnd(ok))
    case NextSource => Child(CEntry, k.src + 1, 0, 0)
    case Skip => k.(pc := CEntry, pos := k.pos + 1)
    case Send => k.(pc := CAwaitAck)
    case SkipTaking => k.(pc := CEntry, pos := k.pos + 1)
    case StopTaking => k.(pc := CSendEnd(false))
    case Accept => k.(pc := CMount, mntSeq := k.mntSeq + 1)
    case Attach => k.(pc := CEntry, pos := k.pos + 1)
  }

  predicate Takes(a: Act) { a.SkipTaking? || a.StopTaking? || a.Accept? }

  /** The end marker is the child's last message; failing to send it is an error. */
  function SendEnd(c: Config, s: State, ok: bool): State {
    var sent := c.endMarker && !s.parent.PReturned?;
    s.(child := s.child.(pc := CReturned(sent && ok)),
       toParent := if sent then s.toParent + [End] else s.toParent)
  }

  function ChildStep(c: Config, s: State): State {
    if s.child.pc.CSendEnd? then SendEnd(c, s, s.child.pc.ok)
    else
      var a := ChildAct(c, s);
      var m := Mount(s.child.src, s.child.pos);
      State(ChildNext(s.child, a), s.parent, s.mntSeq,
            if a.Send? then s.toParent + [Descriptors(m)] else s.toParent,
            if Takes(a) && s.toChild != [] then s.toChild[1..] else s.toChild,
            if a.Send? then s.sent + [m] else s.sent,
            if Takes(a) then s.taken + 1 else s.taken,
            s.idmapped, if a.Attach? then s.attached + {m} else s.attached)
  }

  // ---- the parent -----------------------------------------------------------

  predicate Known(c: Config, m: Mount) {
    m.src < |c.sources| && m.pos < |c.sources[m.src].entries|
  }

  function EntryOf(c: Config, m: Mount): Entry
    requires Known(c, m)
  {
    c.sources[m.src].entries[m.pos]
  }

  predicate ParentEnabled(s: State) {
    match s.parent
    case PReceive => s.toParent != [] || s.child.pc.CReturned?
    case PReturned(_) => false
    case _ => true
  }

  predicate IdmapOk(c: Config, m: Mount) { Known(c, m) && EntryOf(c, m).idmap }
  predicate NotifyOk(c: Config, m: Mount) { Known(c, m) && EntryOf(c, m).notify }

  function ParentNext(c: Config, s: State): ParentPc {
    match s.parent
    case PReceive =>
      if s.toParent == [] then PReturned(false)
      else if s.toParent[0].End? then PReturned(true)
      else PIdmap(s.toParent[0].mount)
    case PIdmap(m) => if IdmapOk(c, m) then PNotify(m) else PReturned(false)
    case PNotify(m) => if NotifyOk(c, m) then PReceive else PReturned(false)
    case PReturned(ok) => PReturned(ok)
  }

  function ParentStep(c: Config, s: State): State {
    var notified := s.parent.PNotify? && NotifyOk(c, s.parent.mount);
    State(s.child, ParentNext(c, s), if notified then s.mntSeq + 1 else s.mntSeq,
          if s.parent.PReceive? && s.toParent != [] then s.toParent[1..] else s.toParent,
          if notified then s.toChild + [s.mntSeq] else s.toChild,
          s.sent, s.taken,
          if s.parent.PIdmap? && IdmapOk(c, s.parent.mount) then s.idmapped + {s.parent.mount} else s.idmapped,
          s.attached)
  }

  // ---- runs -----------------------------------------------------------------

  predicate Enabled(c: Config, s: State, p: Process) {
    match p
    case TheChild => ChildEnabled(c, s)
    case TheParent => ParentEnabled(s)
  }

  function Step(c: Config, s: State, p: Process): State {
    if !Enabled(c, s, p) then s
    else match p
      case TheChild => ChildStep(c, s)
      case TheParent => ParentStep(c, s)
  }

  function RunFrom(c: Config, s: State, schedule: seq<Process>): State
    decreases |schedule|
  {
    if schedule == [] then s else RunFrom(c, Step(c, s, schedule[0]), schedule[1..])
  }

  function Run(c: Config, schedule: seq<Process>): State { RunFrom(c, Init(), schedule) }
}
