# LXC: models and proofs

This project models the parts of LXC whose correctness is hardest to see from
the code, and proves what they promise for all inputs and all runs. It is plain
Dafny 4.11; `dafny verify dfyconfig.toml` checks all of it.

What is modelled:

- **Attaching to a container** (`AttachProtocol`, `AttachInvariant`,
  `AttachTheorems`, `AttachUnprepared`, `AttachSuccess`): the initial, the transient
  and the attached process as a state machine. Each call that can fail has a
  recorded outcome, the interleaving is an arbitrary schedule. Ordering, progress and
  reaping hold over every run, and the result is 0 exactly as options and outcomes say.
- **The AppArmor rule generator** (`AaGlob`, `AaTrie`, `AaRules`, `AaMeaning`,
  `AaRanges`, `AaConfig`, `AaGenerator`, `AaMain`): the whole script, from the
  lines of the configuration to the list of rules. The rules are read as text, by
  a model of AppArmor's glob syntax with its character ranges, and it is shown
  exactly when they deny the paths that the block and allow lines call for.
- **Idmapped mounts** (`IdmappedMounts`, `IdmappedInvariant`, `IdmappedTheorems`,
  `IdmappedProgress`, `IdmappedResult`): the exchange in which the child has detached
  mounts idmapped by the parent, again over every interleaving and every failure, and
  what either side's success or failure says about the calls that were made.
- **Descriptors received over unix sockets** (`UnixFds`, `CommandResponse`): each
  received descriptor is closed once or ends in one response field.
- **Descriptor hand-over at start** (`FdHandover`): what the child sends is what
  the parent waits for, and what the parent makes of it when one descriptor, whose
  loss the child ignores, does not come.
- **strchrnul()** (`Strchrnul`): the word-at-a-time search refines the
  byte-by-byte one, in both word sizes and byte orders.
- **Interface addresses** (`IfAddrSpec`, `IfAddrRecords`, `IfAddrs`): the output list
  and the hash index built from netlink messages, against a linear search through the
  messages, and what each record holds, told by positions of attributes.
- **Overflow checks** (`Overflow`): for every integer width.
- **Mount options** (`MountOptions`, `MountTables`, `MountParsers`, `MountFlags`,
  `MountPairs`): the two parsers, their buffers, exactly where they agree, and bit by
  bit what they make of any list of options.
- **The network device list** (`NetdevSpec`, `NetdevRing`), **the unmount hook**
  (`Unmount`), **id map entries** (`IdMap`), **group entries** (`GroupEntry`),
  **the argument vector of criu** (`CriuArgs`), and **reading a whole file**
  (`FileRead`). `Libc`, `Positions`, `Powers` and `Schedules` have the small things
  they share.

Code that works in place is modelled in place, with classes, arrays and loops
that are proved against functions; the laws are lemmas about those functions.

Some things one would expect do not hold of the code. Each has a lemma that
shows a failing case and one that says exactly when the property does hold:

- A transient process enters namespaces although the parent's setup failed,
  because `sync_wait()` takes end of file for the go-ahead
  (`AttachTheorems.OrderingCanFail`, `AttachTheorems.OrderingHoldsExactlyWhen`). The
  program may even run to its end while `lxc_attach()` returns -1
  (`AttachUnprepared.ProgramRunsAfterFailure`,
  `AttachUnprepared.RunsUnpreparedExactlyWhen`).
- With supervised seccomp and no LSM label, nothing keeps the attached process from
  sending its notifier before its pid has been read, and `lxc_attach()` fails although every
  call succeeds (`AttachSuccess.OvertakenPidFails`,
  `AttachSuccess.ReturnsZeroExactlyWhen`).
- A mount is attached before it is idmapped when an optional entry before it gave
  up waiting and left its notification in the queue
  (`IdmappedTheorems.SafetyCanFail`, `IdmappedTheorems.SafeExactlyWhenCountsAgree`).
- A dash between two next characters of sibling names becomes a range in the
  generated rule: with `a1`, `a-b` and `a9` allowed, `a-b` is denied and `a5` is
  not (`AaRanges.AllowedNameIsDenied`, `AaRanges.OtherNameIsLetThrough`). The rules
  are right exactly when every such range holds just the characters that were
  meant (`AaMain.ScriptIsRightExactlyWhen`, `AaGlob.LiteralExactlyWhen`).
- A block line given twice makes two blocks, because the path is compared with its
  line end and stored without (`AaGenerator.LineEndHidesDuplicate`,
  `AaGenerator.DuplicateIsSeenExactlyWhen`).
- The new mount option parser takes `rootcontext=` for `ro`, and any other longer
  option for the name it begins with (`MountTables.RootcontextIsMisread`,
  `MountTables.LongerOptionIsMisread`,
  `MountOptions.SameEffectExactlyWhenCommon`, `MountOptions.DataAgreeExactlyWhen`).
- A device index of 2^31 or more does not survive the conversion to `int`
  (`NetdevSpec.LargeIndexIsLost`, `NetdevSpec.AddedKeepsOrderExactlyWhen`,
  `NetdevSpec.AddedIsFoundExactlyWhen`). src/lxc/confile.c:5436 rejects indices of
  INT_MAX and more before the lookup, so a caller inside the program never meets
  this case.
- Two commas in a row make the split of a group's members miss one
  (`GroupEntry.TwoCommasMissAMember`, `GroupEntry.SplitFindsMembersExactlyWhen`).
- The order of IFA_ADDRESS and IFA_LOCAL matters for data cut short
  (`IfAddrSpec.ShortLocalShowsTheOrder`, `IfAddrSpec.SwapChangesExactlyWhen`).
- The loss of the devpts descriptor goes unnoticed by the child
  (`FdHandover.DevptsIsLost`, `FdHandover.ArrivesAsAwaitedExactlyWhen`).
- An id map entry may end in a newline, as the code means to allow, only after
  another blank: `IdMap.NewlineNeedsABlank` shows refused entries, and
  `IdMap.TrailFitsExactlyWhen` and `IdMap.NewlineFitsExactlyWhen` say exactly which
  blanks and newlines may follow an accepted one.
- An allow line with a trailing or doubled slash makes the generator break off
  with an exception (`AaMain.Script`, `AaConfig.EmptyComponentExactlyWhen`;
  `AaMain.TrailingSlashBreaksOff` is one such file).
- A mount entry of several bind lines can fill more of criu's argument vector than
  was reserved (`CriuArgs.FiveLinesDoNotFit`, `CriuArgs.FitsExactlyWhen`).

## Model

| member | source | states |
|---|---|---|
| `AttachInvariant.StepKeeps` | src/lxc/attach.c:1549-1825 | Every step of each of the three processes keeps the invariant: queues hold what their sender's position says, descriptors and children are accounted for |
| `AttachInvariant.Reachable` | src/lxc/attach.c:1549-1825 | The invariant holds after every schedule, for all options and outcomes |
| `AttachTheorems.BarrierBeforeNamespaces` | src/lxc/attach.c:724-737 | In every run, both /proc descriptors are closed before the first namespace is entered, and a transient process that read the wake-up never runs ahead of the parent's setup |
| `AttachTheorems.EndOfFileEntersNamespace` | src/lxc/sync.c:18-40 | When the parent hangs up after a failed setup, the transient process goes on and enters a namespace |
| `AttachTheorems.OrderingHoldsExactlyWhen` | src/lxc/attach.c:1555-1725 | Namespaces are entered only after the parent's setup in all interleavings if and only if that setup succeeds or the transient process fails by itself before the first setns() |
| `AttachTheorems.OrderingCanFail` | src/lxc/attach.c:1674-1725 | A concrete run, with a failing rlimit setup, that breaks the ordering |
| `AttachTheorems.NoDeadlock` | src/lxc/attach.c:1549-1825 | In every reachable state some process can move unless all have finished |
| `AttachTheorems.EveryFairRunEnds` | src/lxc/attach.c:1549-1825 | After 37 plus the number of namespace descriptors rounds, whatever fails, lxc_attach() has returned and both children have exited |
| `AttachTheorems.ReturnsWithChildrenAccountedFor` | src/lxc/attach.c:1728-1825 | On return the transient process has been waited for. Once its wait has succeeded, the attached process is handed over unreaped with 0 or waited for exactly once with -1; before that the result is -1 and the attached process, whose pid may have arrived, is not waited for |
| `AttachTheorems.SuccessMeansAttached` | src/lxc/attach.c:1134-1383 | A return of 0 means that setup was complete, all namespaces were entered behind the barrier and the label descriptor was sent |
| `AttachUnprepared.RunsUnpreparedExactlyWhen` | src/lxc/attach.c:1134-1383 | In some interleaving the attached process runs the program without the parent's setup being complete if and only if that setup fails, all calls of the two children succeed, and neither an LSM label nor a supervised seccomp notifier makes it depend on the parent |
| `AttachUnprepared.FailedSetupIsReported` | src/lxc/attach.c:1555-1825 | After a failed setup every run returns -1 and never waits for the attached process |
| `AttachUnprepared.ProgramRunsAfterFailure` | src/lxc/attach.c:1674-1725 | A complete run with a failing rlimit setup: all processes end, the program has run to its end and the result is -1 |
| `AttachSuccess.ZeroMeansSuccess` | src/lxc/attach.c:1549-1825 | A return of 0 means that every call of the parent that the options ask for succeeded, that the transient process got through all of its calls and sent the pid, that the label and the notifier came where they are wanted |
| `AttachSuccess.RecordsAreTrue` | src/lxc/attach.c:1549-1825 | In every run, what is noted as done (cgroup, /proc context, limits, pid, label, result) has been done by a call that succeeded |
| `AttachSuccess.EveryFairRunSucceeds` | src/lxc/attach.c:1549-1825 | When these succeed and no notifier can overtake the pid, every fair run returns 0 with the process handed over, which ends with the status of the program, or with 1 if one of its own calls fails |
| `AttachSuccess.CanReturnZeroExactlyWhen` | src/lxc/attach.c:1549-1825 | Some run returns 0 if and only if these calls succeed |
| `AttachSuccess.ReturnsZeroExactlyWhen` | src/lxc/attach.c:1549-1825 | All returning runs return 0 if and only if, besides, no notifier can overtake the pid and no label can be lost to an attached process that is gone |
| `AttachSuccess.OvertakenPidFails` | src/lxc/attach.c:1549-1825 | With supervision and no label, a run in which the notifier comes before the pid returns an error although every call succeeds |
| `AttachSuccess.LostLabelFails` | src/lxc/attach.c:1549-1825 | A run in which the attached process is gone before its label is sent returns an error |
| `AaTrie.BuildBelow` | config/apparmor/lxc-generate-aa-rules.py:33-65 | The tree below a name is the tree of the allow lines that continue below it |
| `AaTrie.BuildHasThePrefixes` | config/apparmor/lxc-generate-aa-rules.py:40-65 | The tree holds exactly the allowed paths and what leads to them |
| `AaRules.CharRulesMatch` | config/apparmor/lxc-generate-aa-rules.py:68-97 | As globs, the per-character rules of a name match a path exactly when at one of the positions its component agrees so far and goes on with a character outside of the class, ranges included |
| `AaRules.TailRulesMatch` | config/apparmor/lxc-generate-aa-rules.py:98-103 | The rule behind a name matches longer components, or what is below a `stem*` component, and nothing else |
| `AaMeaning.HitsAreDenied` | config/apparmor/lxc-generate-aa-rules.py:86-106 | Some rule of the children hits a component exactly when the tree says that it is denied |
| `AaMeaning.ListRulesDeny` | config/apparmor/lxc-generate-aa-rules.py:86-106 | For every well-shaped tree without a misleading range and every path, some emitted rule matches if and only if the tree denies the path |
| `AaMeaning.MisreadPath` | config/apparmor/lxc-generate-aa-rules.py:68-106 | In every other well-shaped tree there is a path, at the level of such a range, on which rules and tree disagree |
| `AaMeaning.ListRulesDenyExactlyWhen` | config/apparmor/lxc-generate-aa-rules.py:68-106 | So rules and tree agree on all paths if and only if no dash among the next characters of sibling names makes a range of others |
| `AaRules.ReadsLiterallyExactlyWhen` | config/apparmor/lxc-generate-aa-rules.py:68-97 | Every class of a tree is read as the characters collected for it exactly if no dash in it makes a range of others |
| `AaGlob.LiteralExactlyWhen` | config/apparmor/lxc-generate-aa-rules.py:68-97 | Collected characters are read as such exactly if every dash among them that has a neighbour on both sides lies in its own range and the range adds no character |
| `AaRanges.AllowedNameIsDenied` | config/apparmor/lxc-generate-aa-rules.py:68-97 | With a1, a-b and a9 allowed below any directory, a rule denies a-b |
| `AaRanges.OtherNameIsLetThrough` | config/apparmor/lxc-generate-aa-rules.py:68-97 | And no rule denies a5, which is not allowed |
| `AaMeaning.TreeAgreesWithLines` | config/apparmor/lxc-generate-aa-rules.py:40-106 | The tree denies a path exactly when the allow lines, read directly, say so |
| `AaConfig.ComponentsReadBack` | config/apparmor/lxc-generate-aa-rules.py:46-55 | A path written below a block, with any trailing space, is read back as its components |
| `AaGenerator.Generator.AddBlock` | config/apparmor/lxc-generate-aa-rules.py:22-27 | The block is appended without surrounding space unless a stored path equals the given one, space included |
| `AaGenerator.DuplicateIsSeenExactlyWhen` | config/apparmor/lxc-generate-aa-rules.py:22-27 | Giving a path again changes nothing if and only if it has no space around it |
| `AaGenerator.LineEndHidesDuplicate` | config/apparmor/lxc-generate-aa-rules.py:123-134 | The same block line read twice from a file makes two blocks |
| `AaGenerator.Generator.AddAllow` | config/apparmor/lxc-generate-aa-rules.py:40-65 | The line extends the tree of the first block it lies in, and is refused exactly if there is none |
| `AaGenerator.Generator.CollectChars` | config/apparmor/lxc-generate-aa-rules.py:68-77 | The loop yields the distinct next characters of the siblings that agree so far |
| `AaGenerator.Generator.AppendDeny` | config/apparmor/lxc-generate-aa-rules.py:80-83 | A rule is added once |
| `AaGenerator.Generator.GenDenies` | config/apparmor/lxc-generate-aa-rules.py:86-106 | The loops add exactly the rules of the tree, in order and without repetition, or break off exactly if some node has no name |
| `AaGenerator.Generator.Generate` | config/apparmor/lxc-generate-aa-rules.py:109-148 | The finished list has the rules of all blocks; the script breaks off exactly if some node of a block's tree has no name |
| `AaGenerator.GeneratedRulesDenyExactly` | config/apparmor/lxc-generate-aa-rules.py:86-148 | With blocks apart from each other and no misleading range, a path below a block is matched by some rule of the whole list if and only if that block's lines deny it |
| `AaGenerator.GeneratedRulesDenyExactlyWhen` | config/apparmor/lxc-generate-aa-rules.py:86-148 | That holds of all paths below the block if and only if no dash makes such a range in its tree |
| `AaMain.ReadConfig` | config/apparmor/lxc-generate-aa-rules.py:123-137 | The loop over the lines does what the lines ask for one after the other, and stops exactly at an unknown command or an allow line outside of all blocks |
| `AaConfig.EmptyComponentExactlyWhen` | config/apparmor/lxc-generate-aa-rules.py:54-65 | What follows the block in an allow line has an empty component exactly if nothing is left, it ends in a slash or two slashes meet |
| `AaMain.NamedExactlyWhen` | config/apparmor/lxc-generate-aa-rules.py:40-98 | After any file that is read, all nodes have names if and only if no allow line has an empty component |
| `AaMain.Script` | config/apparmor/lxc-generate-aa-rules.py:109-140 | Reading and generating together, for any file: rules come out exactly if the file is read and no allow line has an empty component; for a proper file they agree with it exactly if no dash makes a range of others |
| `AaMain.TrailingSlashBreaksOff` | config/apparmor/lxc-generate-aa-rules.py:98 | A file with one block and one allow line that ends in a slash gives no rules |
| `AaMain.ConfigIsRead` | config/apparmor/lxc-generate-aa-rules.py:40-137 | For every file of comments, blocks and allow lines in any order that suits, reading its text gives each block the tree of all the lines written for it |
| `AaMain.ScriptIsRightExactlyWhen` | config/apparmor/lxc-generate-aa-rules.py:22-148 | For every such file, the finished rules agree with what the file says on every path below every block if and only if no dash makes such a range |
| `AaGenerator.AllowLineExtends` | config/apparmor/lxc-generate-aa-rules.py:40-65 | An allow line written below a block makes the block's tree the tree of one more line |
| `IdmappedInvariant.StepKeeps` | src/lxc/conf.c:2669-2926 | Every step of child and parent keeps the invariant that ties queues, counters and idmapped mounts together |
| `IdmappedTheorems.AttachedMeansIdmapped` | src/lxc/conf.c:2749-2786 | In every run, whatever fails, a mount is attached only after the parent idmapped that very mount, provided that no optional entry abandons a notification |
| `IdmappedTheorems.SafeExactlyWhenCountsAgree` | src/lxc/conf.c:2669-2800 | For every configuration, whatever fails on either side, this holds in all interleavings if and only if counting descriptors and notifications along the entries never lets the child get ahead |
| `IdmappedTheorems.SafetyCanFail` | src/lxc/conf.c:2765-2777 | A configuration with an interrupted optional entry and a run in which the next mount is attached too early |
| `IdmappedTheorems.FailingParentCanSave` | src/lxc/conf.c:3645-3687 | The same entries are safe in all interleavings if the parent cannot idmap the first, because it returns before notifying |
| `IdmappedProgress.SucceedsExactlyWithOneSource` | src/lxc/conf.c:2669-2926 | When nothing fails the child succeeds exactly if at most one source has idmapped entries, and then all of them are idmapped and attached |
| `IdmappedProgress.NoDeadlock` | src/lxc/conf.c:3645-3687 | In every reachable state child or parent can move unless both have returned |
| `IdmappedProgress.EveryFairRunEnds` | src/lxc/conf.c:3645-3687 | Every fair run ends with both sides returned |
| `IdmappedProgress.ParentEndsAtTheMarker` | src/lxc/conf.c:3645-3687 | The parent's loop ends well exactly at the child's end marker, having idmapped every mount that was sent |
| `IdmappedResult.ChildSuccessMeans` | src/lxc/conf.c:2669-2926 | In every run, a child that reports success has opened and finished all sources, parsed every entry and attached every idmapped entry that is not optional |
| `IdmappedResult.OnlyWorkingIsAttached` | src/lxc/conf.c:2669-2926 | Whatever is attached is an idmapped entry of which every call succeeded |
| `IdmappedResult.ChildFailureMeans` | src/lxc/conf.c:2669-2926 | A child that reports failure stopped at a source or entry of which a call failed, or at one for which the parent gave up or counted otherwise |
| `IdmappedResult.ParentFailureMeans` | src/lxc/conf.c:3645-3687 | The parent gives up only after a call of its own failed, or after the child did |
| `UnixFds.OneFlagSet` | src/lxc/af_unix.c:258-302 | After any accepted receive the flag combination is valid, so that the branch for an invalid one is unreachable |
| `UnixFds.UnixFdSet.TakeRights` | src/lxc/af_unix.c:225-307 | Received descriptors are all kept, or the surplus is closed, or all are closed, as the accept flags say |
| `UnixFds.UnixFdSet.TrimRights` | src/lxc/af_unix.c:258-294 | The number of descriptors is accepted exactly as the flags say; the surplus is closed, or all of them with an error |
| `UnixFds.OneOrNone` | src/lxc/af_unix.c:258-294 | Without accept flags, one slot takes one descriptor or none and refuses two |
| `UnixFds.UnixFdSet.RecvFds` | src/lxc/af_unix.c:178-320 | For every message and accept setting, kept and closed descriptors together are those received, each once |
| `UnixFds.UnixFdSet.Put` | src/lxc/af_unix.h:71-100 | Cleanup closes exactly the descriptors still held |
| `UnixFds.ReceivedFlagsSet` | src/lxc/af_unix.h:17-60 | Exactly one RECEIVED flag is set, unless no slot was offered and descriptors came |
| `UnixFds.ReceivedFlagsTell` | src/lxc/af_unix.h:17-60 | What each RECEIVED flag says of the numbers offered and sent |
| `UnixFds.AcceptFlagsTell` | src/lxc/af_unix.c:258-294 | Which numbers of descriptors each accept flag lets in |
| `UnixFds.AcceptNoneTells` | src/lxc/af_unix.c:296-304 | No descriptors, or no slots, are accepted exactly if the caller set no flag at all or said that none will do |
| `UnixFds.RecvOneFd` | src/lxc/af_unix.c:339-367 | The one descriptor is returned, or everything received is closed and the result is an error |
| `UnixFds.RecvTwoFds` | src/lxc/af_unix.c:369-400 | Both descriptors are returned, or everything received is closed and the result is an error |
| `CommandResponse.RequestIsAcceptable` | src/lxc/commands.c:190-225 | The accept flags chosen for every command are valid for the receiver |
| `CommandResponse.FirstReceiveExactlyWhen` | src/lxc/commands.c:190-225 | For every command and message, the first receive succeeds exactly if the number of descriptors is one that the command can come with |
| `CommandResponse.Dispatch` | src/lxc/commands.c:216-338 | For every command: what a response that is accepted returns and which field gets its descriptors; every other one is an error that leaves them in the set |
| `CommandResponse.CmdRspRecv` | src/lxc/commands.c:168-338 | For every command, message and failure: exactly which responses are accepted, what they return and in which field the descriptors are; each descriptor is closed exactly once or owned by that field, and on every error all are closed |
| `CommandResponse.RecvFirst` | src/lxc/commands.c:120-150 | The first receive holds what was accepted or has closed everything |
| `FdHandover.SentIsAwaited` | src/lxc/conf.c:3783-3842 | For every configuration, and a console of host or container, the child sends the kinds of packets in the number and order that the parent awaits |
| `FdHandover.SendTtys` | src/lxc/conf.c:924-955 | One packet for each tty, in order, or an error exactly if one of these sends fails |
| `FdHandover.SendDevices` | src/lxc/network.c:4136-4166 | Name and index of each device, in order, and 0, or -1 exactly if a send fails |
| `FdHandover.SendLate` | src/lxc/conf.c:3826-3842 | All that follows the devpts descriptor is sent in order, or an error is returned exactly if one of these sends fails |
| `FdHandover.SyncFdsChild` | src/lxc/conf.c:3814-3842 | The child's side succeeds exactly if no send but that of the devpts descriptor fails, and what arrives is all the rest |
| `FdHandover.RecvTtys` | src/lxc/conf.c:3689-3731 | The parent gets the child's ttys in order |
| `FdHandover.RecvDevices` | src/lxc/network.c:4168-4199 | The parent gets the child's names and indices in order |
| `FdHandover.SyncFdsParent` | src/lxc/conf.c:3783-3812 | After any success of the child: if all has arrived the parent takes each packet for what it is, leaves none behind and ends with the child's things; if the devpts descriptor is missing, the pair that comes instead is refused and closed, or nothing comes and the receive fails, except that a device name is taken for an answer without a descriptor |
| `FdHandover.RecvDevpts` | src/lxc/conf.c:1453-1469 | Whatever comes next, one descriptor is taken, a message without any gives none, and two are closed with an error |
| `FdHandover.TakeDevpts` | src/lxc/conf.c:3791-3795 | Which of the three happens, going by whether the descriptor has arrived and device names come next |
| `FdHandover.NextPacket` | src/lxc/conf.c:3814-3842 | What can follow the devpts descriptor carries no descriptor exactly if it is a device name, and never just one |
| `FdHandover.DevptsIsLost` | src/lxc/conf.c:1674-1690 | A container with a devpts instance and a tty in which the child reports success and the parent awaits something else |
| `FdHandover.ArrivesAsAwaitedExactlyWhen` | src/lxc/conf.c:1674-1690 | After a success of the child, arrivals match what is awaited exactly if the devpts descriptor was not wanted or could be sent |
| `Strchrnul.MagicBits64` | src/include/strchrnul.c:43-44 | The value of the magic bits for eight-byte words |
| `Strchrnul.MagicBits32` | src/include/strchrnul.c:43-44 | The same for four-byte words |
| `Strchrnul.CharMask64` | src/include/strchrnul.c:47-51 | Doubling puts the character into every byte |
| `Strchrnul.HoleUnchanged64` | src/include/strchrnul.c:93-104 | A hole stays unchanged exactly for a zero byte or a top byte 0x80 |
| `Strchrnul.CharTest64` | src/include/strchrnul.c:106-109 | The xored test fires exactly for the character or a top byte that differs from it by 0x80 |
| `Strchrnul.HoleUnchanged32` | src/include/strchrnul.c:93-104 | The same for four-byte words |
| `Strchrnul.CharTest32` | src/include/strchrnul.c:106-109 | The same for four-byte words |
| `Strchrnul.Suspicious` | src/include/strchrnul.c:91-109 | In either byte order the test misses no word with the character or NUL, and misfires exactly for two values of the most significant byte |
| `Strchrnul.CheckWord` | src/include/strchrnul.c:113-134 | The byte checks find the first hit of a word if it has one |
| `Strchrnul.Find` | src/include/strchrnul.c:9-139 | For every string, alignment and character the result is the first place with the character or NUL |
| `Strchrnul.FirstStopIsUnique` | src/include/strchrnul.c:9-139 | There is only one such place |
| `IfAddrSpec.DumpFollowsMessages` | src/include/netns_ifaddrs.c:168-343 | For every sequence of messages, the records are those of named links and of addresses of known links, in order, each address taking over from the latest link message with its index |
| `IfAddrSpec.AddressInherits` | src/include/netns_ifaddrs.c:261-264 | Flags, index, MTU and, without a label, the name come from that link; an unknown index leaves no record |
| `IfAddrRecords.LinkRecordHolds` | src/include/netns_ifaddrs.c:211-260 | The record of a link: address and broadcast address are those of the last attributes of at most 24 bytes, with index and hardware type, the MTU is the last one given, and there is a record exactly if a name fits |
| `IfAddrRecords.LinkNameHolds` | src/include/netns_ifaddrs.c:218-224 | Each byte of its name is that of the last name that fits and is long enough, else zero |
| `IfAddrRecords.AddressRecordHolds` | src/include/netns_ifaddrs.c:261-325 | The record of an address whose attributes are whole: the address is the last local one, else the first address; the broadcast or destination address is the last broadcast, later address or address moved aside; with family, first 4 or 16 bytes and scope, and nothing for other families |
| `IfAddrRecords.NetmaskHolds` | src/include/netns_ifaddrs.c:322-326 | For any attributes, a record has a netmask and prefix length exactly if it has an address; the mask is of the family and its first prefixlen bits are set and no others |
| `IfAddrRecords.AddressNameHolds` | src/include/netns_ifaddrs.c:309-315 | Each byte of the name is that of the last label that fits and is long enough; without such a label the name is the link's |
| `IfAddrRecords.AddressAware` | src/include/netns_ifaddrs.c:194-318 | An address message shows that the kernel knows target namespaces exactly if it says so and its link is known |
| `IfAddrRecords.ShortLocal` | src/include/netns_ifaddrs.c:271-317 | What a local address cut short leaves in either order |
| `IfAddrRecords.LocalAndDestination` | src/include/netns_ifaddrs.c:271-317 | Full-length local and peer addresses end up as address and destination in either order, each with its family, its first 4 or 16 bytes and its own scope, among any attributes that place none |
| `IfAddrSpec.SwapChangesExactlyWhen` | src/include/netns_ifaddrs.c:101-131 | For data of any length and any family, exactly when the order of the two makes a visible difference |
| `IfAddrSpec.ShortLocalShowsTheOrder` | src/include/netns_ifaddrs.c:271-317 | A whole IPv4 address and an empty local one make a visible difference by their order |
| `IfAddrSpec.MaskHasPrefix` | src/include/netns_ifaddrs.c:133-150 | The netmask has its first prefixlen bits set and no others |
| `IfAddrs.GenNetmask` | src/include/netns_ifaddrs.c:133-150 | The loop fills the array with that mask, also for lengths above 128 |
| `IfAddrs.LatestIsInBucket` | src/include/netns_ifaddrs.c:194-200 | The latest link with an index is found by looking at its bucket only |
| `IfAddrs.ChainIsNewestFirst` | src/include/netns_ifaddrs.c:255-259 | Each hash chain is all links of its residue, newest first |
| `IfAddrs.Storage.FillLink` | src/include/netns_ifaddrs.c:211-254 | The attribute loop builds the record that LinkRecordHolds describes |
| `IfAddrs.Storage.FillAddr` | src/include/netns_ifaddrs.c:261-325 | The same for an address message and its link, as AddressRecordHolds and NetmaskHolds describe it |
| `IfAddrs.Ctx.Lookup` | src/include/netns_ifaddrs.c:194-200 | The walk along the hash chain finds what a search of the whole list would |
| `IfAddrs.Ctx.Insert` | src/include/netns_ifaddrs.c:255-259 | The record becomes the head of its bucket, other buckets stay |
| `IfAddrs.Ctx.Append` | src/include/netns_ifaddrs.c:328-337 | The record becomes the last of the list |
| `IfAddrs.Ctx.Receive` | src/include/netns_ifaddrs.c:168-343 | List, buckets and chains stay in step; the list changes as the message says, or not at all if memory is short |
| `IfAddrs.Ctx.ReceiveAll` | src/include/netns_ifaddrs.c:168-343 | After any sequence of messages the list is that of the messages received |
| `Overflow.LimitsAreTight` | src/lxc/compiler.h:48-51 | type_max and type_min bound the type tightly, for every width and signedness |
| `Overflow.ConvertIsTheCongruentValue` | src/lxc/compiler.h:98-203 | What is stored is the one value of the type congruent to the result |
| `Overflow.UnsignedAddExact` | src/lxc/compiler.h:98-106 | Stores the wrapped sum, reports overflow exactly if the sum is not of the type |
| `Overflow.UnsignedSubExact` | src/lxc/compiler.h:107-115 | The same for the difference |
| `Overflow.UnsignedMulExact` | src/lxc/compiler.h:120-130 | The same for the product, whichever operand is constant |
| `Overflow.TestsReadSigns` | src/lxc/compiler.h:148-173 | The bit tests compare signs, in arithmetic of any width at least that of the type |
| `Overflow.ThroughWord` | src/lxc/compiler.h:133-142 | Computing in a wider unsigned type first makes no difference |
| `Overflow.SignedAddExact` | src/lxc/compiler.h:148-157 | Stores the wrapped sum, reports overflow exactly if the sum is not of the type |
| `Overflow.SignedSubExact` | src/lxc/compiler.h:164-173 | The same for the difference |
| `Overflow.SignedQuotientBounds` | src/lxc/compiler.h:175-203 | Comparing with quotients rounded towards zero is comparing the product, for divisors of either sign |
| `Overflow.SignedMulExact` | src/lxc/compiler.h:191-203 | The same as for the sum, for the product |
| `MountOptions.SameEffectExactlyWhenCommon` | src/lxc/conf.c:1970-2101 | For one option both parsers do the same from every state if and only if it is an exact name that is not ignored or no known name begins it |
| `MountOptions.CommonStringsAgree` | src/lxc/conf.c:2007-2148 | Strings of such options give the same flag word and data |
| `MountOptions.DataAgreeExactlyWhen` | src/lxc/conf.c:2007-2148 | The data of both parsers are equal if and only if no option is left over by one of them only |
| `MountTables.TableIsWellFormed` | src/lxc/conf.c:132-164 | No name of the table begins another, and what the new parser ignores has a legacy flag |
| `MountTables.ParsersAgree` | src/lxc/conf.c:132-177 | The agreement for the program's own tables |
| `MountTables.LongerOptionIsMisread` | src/lxc/conf.c:2049-2051 | Every option that goes on after a table name is data to one parser and that name to the other |
| `MountTables.RootcontextIsMisread` | src/lxc/conf.c:2049-2051 | rootcontext= with any context is data to one parser and ro to the other |
| `MountFlags.AttrsExactlyWhen` | src/lxc/conf.c:2043-2101 | After any options, a bit of the attributes to set is there exactly if it was, or some option's first matching entry has it, does not clear and is neither a bind nor ignored; the same for the attributes to clear and entries that clear |
| `MountFlags.BindExactlyWhen` | src/lxc/conf.c:2053-2066 | A bind mount is asked for exactly by bind or rbind, a recursive one exactly by rbind |
| `MountFlags.MntFlagsExactlyWhen` | src/lxc/conf.c:2043-2101 | Each bit of the flag word is as the last option that decides about it says |
| `MountFlags.LegacyFlagsExactlyWhen` | src/lxc/conf.c:1970-2005 | The same for the legacy parser and exact names |
| `MountFlags.PropagationIsLast` | src/lxc/conf.c:2084-2097 | The propagation is that of the last option that only the propagation table knows, and recursive exactly if one of the four recursive names was among them |
| `MountFlags.PropFlagsExactlyWhen` | src/lxc/conf.c:2084-2097 | The propagation flags are those of all such options |
| `MountFlags.DataAreTheUnknown` | src/lxc/conf.c:2103-2148 | The data are exactly the options that no name of either table begins, in order |
| `MountFlags.LegacyDataAreTheUnknown` | src/lxc/conf.c:2007-2036 | The data of the legacy parser are exactly the options with a value and those that are no name, in order |
| `MountPairs.PairDecides` | src/lxc/conf.c:132-164 | With the program's tables and any options: ro, nosuid, nodev, noexec, noatime, nodiratime and strictatime, with their opposites, decide about their own bits exactly as their names say, to both parsers |
| `MountPairs.IgnoredChangeNothing` | src/lxc/conf.c:132-164 | sync, async, dirsync, lazytime, mand, nomand and remount, and what goes on after them, change nothing in the new parser |
| `MountParsers.Strlcat` | src/include/strlcat.c:16-25 | Appends as much as fits and returns the length aimed at |
| `MountParsers.NextPart` | src/lxc/string_utils.h:186-189 | Yields the next non-empty part |
| `MountParsers.ParseMntopt` | src/lxc/conf.c:1970-2005 | Changes the flags of an exact name, else appends to the data |
| `MountParsers.CollectLegacy` | src/lxc/conf.c:2029-2031 | A buffer the size of the string is never exceeded, and ends with the unknown parts joined by commas |
| `MountParsers.ParseMntoptsLegacy` | src/lxc/conf.c:2007-2036 | All error returns, and otherwise the flags and data the parts ask for |
| `MountParsers.MountOptionsParser.ParseVfsAttr` | src/lxc/conf.c:2043-2101 | Both table loops do what the first matching name asks for, which the lemmas of MountFlags tell field by field |
| `MountParsers.MountOptionsParser.CollectAttrs` | src/lxc/conf.c:2125-2143 | Copying without checks never leaves the buffer |
| `MountParsers.MountOptionsParser.ParseMountAttrs` | src/lxc/conf.c:2103-2148 | All error returns, and otherwise the options and data that MountFlags describes |
| `NetdevSpec.EarlyExitFindsExactly` | src/lxc/confile_utils.c:194-205 | In an increasing list the search that stops early finds an index exactly if it is there |
| `NetdevSpec.AddedKeepsOrderExactlyWhen` | src/lxc/confile_utils.c:161-210 | Allocation keeps the order if and only if the index fits an int or comes after smaller negative ones |
| `NetdevSpec.AddedIsFoundExactlyWhen` | src/lxc/confile_utils.c:161-210 | The new device is found again if and only if its index fits an int |
| `NetdevSpec.LargeIndexIsLost` | src/lxc/confile_utils.c:161-210 | After index 1, index 2^31 is stored out of order as a negative one and is not found again |
| `NetdevSpec.RemovedIsGone` | src/lxc/confile_utils.c:456-473 | Removal takes out the index and nothing else |
| `NetdevSpec.RunIsASortedSet` | src/lxc/confile.c:5436-5441 | Over every run of lookups, allocations and removals below INT_MAX the list is increasing and holds exactly what was allocated and not removed since |
| `NetdevRing.ListAdd` | src/lxc/hlist.h:60-68 | next and prev stay inverse to each other around the ring with the new node |
| `NetdevRing.ListDel` | src/lxc/hlist.h:121-126 | The same without the node, whose own pointers are poisoned |
| `NetdevRing.Netdevs.Search` | src/lxc/confile_utils.c:194-205 | Finds the node, or the one to insert before |
| `NetdevRing.Netdevs.GetByIdx` | src/lxc/confile_utils.c:187-212 | The ring changes as the list does; a failed allocation changes nothing |
| `NetdevRing.Netdevs.RemoveByIdx` | src/lxc/confile_utils.c:456-473 | Removes the first device with the index, and says whether there was one |
| `NetdevRing.Netdevs.FreeNetworks` | src/lxc/confile_utils.c:475-489 | Every device is unlinked once, in order, and the ring is empty |
| `Unmount.DescendantsComeFirst` | hooks/unmount-namespace.c:59-63 | In the sorted order no mount point precedes something below it |
| `Unmount.ReadMounts` | hooks/unmount-namespace.c:78-141 | The growing array loses no entry, and fails exactly if copying or growing fails |
| `Unmount.UnmountAll` | hooks/unmount-namespace.c:205-218 | For every table, every set of mounts in use and every sorted order: what stays mounted are the mounts in use and those above them, and these are reported but for /dev |
| `Unmount.WhatStays` | hooks/unmount-namespace.c:205-218 | The same told from the table alone, without the order; when nothing is in use, nothing stays mounted |
| `Unmount.StrcmpIsAnOrder` | hooks/unmount-namespace.c:59-63 | The comparison is zero exactly for equal places and changes sign with its operands |
| `Unmount.QuietIsDev` | hooks/unmount-namespace.c:68-71 | Failures are quiet exactly for /dev and what is below it |
| `IdMap.DecimalReadsBack` | src/lxc/string_utils.c:594-615 | A printed number is read back, or out of range exactly above ULONG_MAX |
| `IdMap.HexReadsBack` | src/lxc/string_utils.c:594-615 | The same for hexadecimal numbers in either case behind 0x or 0X |
| `IdMap.OctalReadsBack` | src/lxc/string_utils.c:594-615 | The same for octal numbers behind 0 |
| `IdMap.SignsAreRead` | src/lxc/string_utils.c:594-615 | A plus sign changes nothing, a minus sign is refused |
| `IdMap.PartsAreRead` | src/lxc/confile_utils.c:32-151 | Every string made of a type and three words with blanks between is read as the words mean, or fails with the error of the first that is no number |
| `IdMap.AcceptedHasParts` | src/lxc/confile_utils.c:32-151 | Every string that is accepted is made that way |
| `IdMap.RoundTrip` | src/lxc/confile_utils.c:32-151 | Printing with any blanks and parsing gives the same four values |
| `IdMap.NewlineNeedsABlank` | src/lxc/confile_utils.c:122-141 | A newline right behind a decimal range is refused |
| `IdMap.TrailFitsExactlyWhen` | src/lxc/confile_utils.c:122-141 | Blanks and newlines behind any accepted entry change nothing if they start with a blank, and make it fail with EINVAL if they start with a newline |
| `IdMap.NewlineFitsExactlyWhen` | src/lxc/confile_utils.c:32-151 | Every accepted string stays accepted with a newline behind it, with the same values, if and only if it already ends in a blank or a newline |
| `IdMap.ParseErrors` | src/lxc/confile_utils.c:32-151 | A refusal is always EINVAL or ERANGE |
| `IdMap.ParseIdmaps` | src/lxc/confile_utils.c:32-151 | The parser at work on its copy reads exactly that, and leaves the outputs alone on failure |
| `GroupEntry.SplitFindsMembersExactlyWhen` | src/include/getgrgid_r.c:124-128 | The loop finds the members if and only if no two commas meet |
| `GroupEntry.TwoCommasMissAMember` | src/include/getgrgid_r.c:124-128 | The list a,,b is split wrongly |
| `GroupEntry.MembersAreTheMembers` | src/include/getgrgid_r.c:111-132 | Members are comma-free and join to the list again |
| `GroupEntry.CountMembers` | src/include/getgrgid_r.c:111-113 | The counting pass yields the number of slots that SlotsAreMembers describes |
| `GroupEntry.SlotsAreMembers` | src/include/getgrgid_r.c:111-113 | There is room for exactly the members, and none for an empty list |
| `GroupEntry.FoundAreMembersExactlyWhen` | src/include/getgrgid_r.c:111-132 | No member is found in an empty list, and in any other the members are found exactly if no two commas meet |
| `GroupEntry.SplitMembers` | src/include/getgrgid_r.c:123-128 | All writes stay inside the counted space, and pointers and terminators are those of the cuts |
| `GroupEntry.Relocate` | src/include/getgrgid_r.c:439-452 | Nothing is written if the size check fails; otherwise pointers and text lie apart inside the buffer, aligned, and name, password and members are moved by the same distance |
| `GroupEntry.FindMembers` | src/include/getgrgid_r.c:111-132 | Counting and splitting leave the places of the members in the line, none for an empty list, with a null behind them |
| `GroupEntry.GetMembers` | src/include/getgrgid_r.c:423-465 | For every member list, the empty one too: in the caller's buffer pointer i reads member i as split, a null ends the list, and name and password have moved with the text |
| `CriuArgs.HelpersAreNoBinds` | src/lxc/conf.c:2593-2595 | The nesting helpers add no arguments |
| `CriuArgs.FitsExactlyWhen` | src/lxc/criu.c:165-582 | Arguments and final null fit if and only if bind lines in excess of the entries do not use up what is spare |
| `CriuArgs.AlwaysFits` | src/lxc/criu.c:165-582 | With single-line entries they fit for all options and counts |
| `CriuArgs.FiveLinesDoNotFit` | src/lxc/criu.c:249-375 | Five bind lines in one entry are too many for every choice of options |
| `CriuArgs.TightExactlyWhen` | src/lxc/criu.c:165-582 | No slot is left exactly for a dump with terminal, earlier images and in-flight connections skipped |
| `CriuArgs.StaticArgs` | src/lxc/criu.c:165-255 | The counting pass adds up to the reservation |
| `CriuArgs.ArgumentsCount` | src/lxc/criu.c:165-582 | The list of arguments is as long as the filling pass is said to be, for all options and values |
| `CriuArgs.PageServerAdds` | src/lxc/criu.c:165-451 | A page server adds five arguments and five slots, if it has both an address and a port |
| `CriuArgs.ExecArgs.DeclareMounts` | src/lxc/criu.c:349-375 | An option and a value for each line with the bind flag, in order |
| `CriuArgs.ExecArgs.DeclareDump` | src/lxc/criu.c:377-451 | The arguments of a dump, in order |
| `CriuArgs.ExecArgs.DeclareRestore` | src/lxc/criu.c:452-578 | The arguments of a restore, in order |
| `CriuArgs.ExecCriu` | src/lxc/criu.c:165-582 | Whenever they fit by FitsExactlyWhen, with entries of any number of lines, the vector holds all arguments in order and the final null, inside of what is reserved |
| `FileRead.Slurp.BatchRealloc` | src/lxc/file_utils.c:716-723 | The buffer never shrinks, has room for more than the new length and at most one batch more, and is replaced exactly if the number of batches grows |
| `FileRead.Slurp.AppendLine` | src/lxc/file_utils.c:725-732 | The copy with its terminator fits, and the capacity is exactly the batches needed |
| `FileRead.Slurp.ReadFile` | src/lxc/file_utils.c:735-760 | The result is the concatenation of the lines, or nothing for none |

## Left out

- Container start-up, cgroups, storage backends, network setup, the monitor and the command line tools are not modelled: what they do happens inside the kernel, and none of the code above depends on more than the outcome of a system call.
- Attach: opening and closing the individual namespace descriptors (src/lxc/attach.c:546-632) and the terminal loop are outcomes; another process holding the socket is absent.
- Idmapped mounts: mount system calls are outcomes of the entry they belong to.
- AppArmor generator: sorting and printing the list, which change no rule; dictionaries of child nodes are modelled as sequences. Names with glob characters or a backslash other than a final `*`, blocks that begin one another and sibling names that begin one another are outside the translation theorems. A range whose ends are in the wrong order matches nothing in the model; AppArmor may refuse the whole profile.
- AaMain.ConfigIsRead: files that reach the exit with status 1, and allow lines before their block, are covered by `AaMain.ReadConfig` and `AaMain.Script` only.
- CommandResponse.CmdRspRecv: the second receive, of the payload, is an outcome; when it comes up short the source returns a negated errno, the model some negative value.
- UnixFds: ancillary messages other than descriptors and credentials.
- FdHandover.SyncFdsParent: once a device name has been taken for the devpts answer, the two sides disagree about where in the byte stream the next record begins; what the parent reads from then on is not modelled.
- FdHandover.SyncFdsChild: the console is as lxc_setup_console() leaves it on success; its failures end the child before the hand-over.
- Strchrnul.Find: memory ends on a word boundary, as pages do.
- Interface addresses: cutting netlink messages into attributes, statistics, and the bytes of an address that is too short to be asked for its scope.
- Overflow: undefined behaviour of the promoted product of two unsigned short values; the model stores the wrapped value.
- Mount options: the in-place terminators that strtok_r() writes into its copy; parts are cut from a string. Flag words are sets of bit numbers.
- Network devices: the contents of a device besides its index.
- Unmount.UnmountAll: an unmount fails for something mounted below it or because the place is in use, and for no other reason; qsort() may leave any order that the comparison allows.
- IdMap: locale-dependent white space.
- GroupEntry.GetMembers: the fields before the member list are only moved, not split.
- CriuArgs.ExecCriu: what happens once the vector is full is not modelled; the contract covers exactly the options for which it does not fill up. An invalid action and failures on the way, which leave fewer arguments, are not modelled; the texts that depend on the container (paths, device names, the directory) are values given from outside.
- FileRead: `int` overflow of the number of batches.
- Android deployment, BPF headers, bash completion and build scripts: they have no state or arithmetic to state a property of.
