/**
 * The argument vector of criu: how many slots exec_criu() reserves, and how many it
 * fills for the same options.
 */
module CriuArgs {
  import opened Libc
  import opened MountOptions
  import opened MountTables

  datatype Action = Dump | PreDump | Restore

  /** The options that decide about arguments, as flags where only their presence matters. */
  datatype Opts = Opts(action: Action, predumpDir: bool, pageserverAddress: bool, pageserverPort: bool, stop: bool,
                       ttyId: bool, preservesInodes: bool, ghostLimit: bool, skipInFlight: bool,
                       ttys: bool, consoleName: bool, lsm: bool, netdevs: nat, hierarchies: int,
                       verbose: bool, actionScript: bool, entries: seq<seq<string>>, nesting: bool)

  predicate IsDump(o: Opts) {
    o.action == Dump || o.action == PreDump
  }

  predicate PageServer(o: Opts) {
    o.pageserverAddress && o.pageserverPort
  }

  function One(b: bool): nat {
    if b then 1 else 0
  }

  // ---- mount lines ----

  /** The options of both nesting helpers: create=dir,optional */
  function HelperOptions(first: string, second: string): string {
    first + ("," + second)
  }

  /** The option strings of the lines of the two nesting helpers. */
  function NestingHelpers(): seq<string> {
    var options := HelperOptions("create=dir", "optional");
    [options, options]
  }

  /** The option strings of all lines of the mount file; an entry may have any number of lines. */
  function Lines(entries: seq<seq<string>>): seq<string> {
    if entries == [] then [] else Lines(entries[..|entries| - 1]) + entries[|entries| - 1]
  }

  function MountLines(o: Opts): seq<string> {
    Lines(o.entries) + (if o.nesting then NestingHelpers() else [])
  }

  predicate IsBind(options: string) {
    BIND in LegacyFlags(MountOpts(), Parts(options), {})
  }

  function Marks(lines: seq<string>): seq<bool> {
    seq(|lines|, i requires 0 <= i < |lines| => IsBind(lines[i]))
  }

  function Count(marks: seq<bool>): nat {
    if marks == [] then 0 else Count(marks[..|marks| - 1]) + One(marks[|marks| - 1])
  }

  function Binds(lines: seq<string>): nat {
    Count(Marks(lines))
  }

  predicate SingleLines(entries: seq<seq<string>>) {
    forall i | 0 <= i < |entries| :: |entries[i]| <= 1
  }

  lemma {:induction false} CountAdd(a: seq<bool>, b: seq<bool>)
    ensures Count(a + b) == Count(a) + Count(b)
  {
    if b == [] {
      assert a + b == a;
    } else {
      CountAdd(a, b[..|b| - 1]);
      assert (a + b)[..|a + b| - 1] == a + b[..|b| - 1];
    }
  }

  lemma BindsAdd(a: seq<string>, b: seq<string>)
    ensures Binds(a + b) == Binds(a) + Binds(b)
  {
    assert Marks(a + b) == Marks(a) + Marks(b);
    CountAdd(Marks(a), Marks(b));
  }

  lemma {:induction false} CountAtMost(marks: seq<bool>)
    ensures Count(marks) <= |marks|
  {
    if marks != [] {
      CountAtMost(marks[..|marks| - 1]);
    }
  }

  lemma {:induction false} SingleLinesCount(entries: seq<seq<string>>)
    requires SingleLines(entries)
    ensures |Lines(entries)| <= |entries|
  {
    if entries != [] {
      SingleLinesCount(entries[..|entries| - 1]);
    }
  }

  // ---- the two counts ----

  function ReservedForDump(o: Opts): int {
    4 + 2 * One(o.predumpDir) + 5 * One(PageServer(o)) + One(o.action == Dump && !o.stop)
    + 2 * One(o.ttyId) + One(!o.preservesInodes) + 2 * One(o.ghostLimit)
  }

  function Reserved(o: Opts): int {
    23
    + (if IsDump(o) then ReservedForDump(o) else 6 + 2 * One(o.ttys) + 2 * o.netdevs)
    + (if o.hierarchies > 0 then 2 * o.hierarchies else 0)
    + One(o.verbose) + 2 * One(o.actionScript) + 2 * |o.entries|
  }

  const COMMON: nat := 18

  function Hierarchies(o: Opts): nat {
    if o.hierarchies > 0 then o.hierarchies else 0
  }

  function DumpArgs(o: Opts): nat {
    4 + One(o.skipInFlight) + 4 * One(o.ttyId) + 3 * One(o.predumpDir) + 5 * One(PageServer(o))
    + One(!o.preservesInodes) + 2 * One(o.ghostLimit) + One(o.action == Dump && !o.stop)
  }

  function RestoreArgs(o: Opts): nat {
    4 + 2 * One(o.ttys) + 2 * One(o.consoleName) + 2 * One(o.lsm) + 2 * o.netdevs
  }

  function Filled(o: Opts): nat {
    COMMON + 2 * Hierarchies(o) + One(o.verbose) + 2 * One(o.actionScript) + 2 * Binds(MountLines(o))
    + if IsDump(o) then DumpArgs(o) else RestoreArgs(o)
  }

  /** How many slots stay free when every mount entry adds its two arguments. */
  function Spare(o: Opts): int {
    if o.action == Restore then 4 + 2 - 2 * One(o.consoleName) - 2 * One(o.lsm)
    else 4 - One(o.skipInFlight) - 2 * One(o.ttyId) - One(o.predumpDir)
  }

  /** The helpers carry no bind flag. */
  lemma HelpersAreNoBinds()
    ensures Binds(NestingHelpers()) == 0
  {
    var s := HelperOptions("create=dir", "optional");
    TwoParts("create=dir", "optional");
    HelperFlags();
    NeitherBinds(s);
  }

  lemma NeitherBinds(s: string)
    requires !IsBind(s)
    ensures Binds([s, s]) == 0
  {
    assert Marks([s, s]) == [false, false];
    assert [false, false][..1] == [false] && [false][..0] == [];
    assert Count([false]) == 0;
  }

  lemma TwoParts(first: string, second: string)
    requires first != "" && ',' !in first && second != "" && ',' !in second
    ensures Parts(HelperOptions(first, second)) == [first, second]
  {
    FirstPart(first, second);
    FirstPart(second, "");
  }

  lemma NowhereInTheTable(opt: string)
    requires Place(opt) == 28
    ensures FindExact(MountOpts(), opt, 0) == |MountOpts()|
  {
    var k := FindExact(MountOpts(), opt, 0);
    EntryIsSound(0);
    if k < |MountOpts()| { EntryIsSound(k); }
  }

  lemma OptionalIsUnknown()
    ensures LegacyData(MountOpts(), "optional")
  {
    assert Letter("optional", 0) == 'o';
    NowhereInTheTable("optional");
  }

  lemma HelperFlags()
    ensures LegacyFlags(MountOpts(), ["create=dir", "optional"], {}) == {}
  {
    var ps := ["create=dir", "optional"];
    assert ps[..1] == ["create=dir"] && ps[..1][..0] == [];
    assert LegacyData(MountOpts(), "create=dir") by {
      assert "create=dir"[6] == '=';
    }
    OptionalIsUnknown();
  }

  lemma HelpersDoNotCount(o: Opts)
    ensures Binds(MountLines(o)) == Binds(Lines(o.entries))
  {
    if o.nesting {
      HelpersAreNoBinds();
      BindsAdd(Lines(o.entries), NestingHelpers());
    } else {
      assert MountLines(o) == Lines(o.entries);
    }
  }

  /**
   * The filled slots and the final null fit into the reserved ones exactly if bind lines
   * in excess of the entries do not use up more than is spare.
   */
  lemma FitsExactlyWhen(o: Opts)
    ensures Filled(o) + 1 <= Reserved(o) <==> 2 * Binds(Lines(o.entries)) <= 2 * |o.entries| + Spare(o)
    ensures Spare(o) >= 0
  {
    HelpersDoNotCount(o);
  }

  /** With one line in each entry there is always room, for every choice of options. */
  lemma AlwaysFits(o: Opts)
    requires SingleLines(o.entries)
    ensures Filled(o) + 1 <= Reserved(o)
  {
    SingleLinesCount(o.entries);
    CountAtMost(Marks(Lines(o.entries)));
    FitsExactlyWhen(o);
  }

  /** The reservation is tight: a dump that uses everything leaves no slot free. */
  lemma TightExactlyWhen(o: Opts)
    requires SingleLines(o.entries) && Binds(Lines(o.entries)) == |o.entries|
    ensures Filled(o) + 1 == Reserved(o) <==> o.action != Restore && o.skipInFlight && o.ttyId && o.predumpDir
  {
    HelpersDoNotCount(o);
  }

  function BindLines(n: nat): seq<string> { seq(n, i => "bind") }

  lemma BindIsBind()
    ensures IsBind("bind")
  {
    var t, k := MountOpts(), FindExact(MountOpts(), "bind", 0);
    FirstPart("bind", "");
    assert Parts("bind") == ["bind"] && ["bind"][..0] == [];
    EntryIsSound(17);
    assert t[17].name == "bind" && k <= 17;
    EntryIsSound(k);
    assert '=' !in "bind";
  }

  lemma {:induction false} CountTrue(marks: seq<bool>)
    requires forall i | 0 <= i < |marks| :: marks[i]
    ensures Count(marks) == |marks|
  {
    if marks != [] { CountTrue(marks[..|marks| - 1]); }
  }

  /** Five bind lines in a single entry are too many for every choice of options. */
  lemma FiveLinesDoNotFit(o: Opts)
    requires o.entries == [BindLines(5)]
    ensures Filled(o) + 1 > Reserved(o)
  {
    BindIsBind();
    assert o.entries[..0] == [] && Lines(o.entries) == [] + BindLines(5) == BindLines(5);
    CountTrue(Marks(BindLines(5)));
    FitsExactlyWhen(o);
  }

  // ---- filling the vector ----

  /** The values that go with the options. */
  datatype Values = Values(action: string, directory: string, log: string, cgroupRoots: seq<string>,
                           actionScript: string, mounts: seq<string>, initPid: string, freezer: string, ttyId: string,
                           predumpDir: string, address: string, port: string, ghostLimit: string, root: string,
                           inheritFd: string, console: string, lsm: string, external: bool, devices: seq<string>)

  predicate Provides(o: Opts, v: Values) {
    |v.cgroupRoots| == Hierarchies(o) && |v.mounts| == |MountLines(o)| && |v.devices| == o.netdevs
  }

  // What the arguments are, option by option.

  function When(wanted: bool, args: seq<string>): seq<string> {
    if wanted then args else []
  }

  /** Each value behind the option it belongs to. */
  function Each(option: string, values: seq<string>): seq<string> {
    if values == [] then [] else Each(option, values[..|values| - 1]) + [option, values[|values| - 1]]
  }

  function Marked(marks: seq<bool>, values: seq<string>): seq<string>
    requires |marks| == |values|
  {
    if marks == [] then []
    else
      var n := |marks| - 1;
      Marked(marks[..n], values[..n]) + When(marks[n], [values[n]])
  }

  function CommonArgs(v: Values): seq<string> {
    ["criu", v.action] + ["--tcp-established", "--file-locks"] + ["--link-remap", "--manage-cgroups=full"]
    + ["--ext-mount-map", "auto"] + ["--enable-external-sharing", "--enable-external-masters"]
    + ["--enable-fs", "hugetlbfs"] + ["--enable-fs", "tracefs"] + ["-D", v.directory] + ["-o", v.log]
  }

  function TaskArgs(o: Opts, v: Values): seq<string> {
    ["-t", v.initPid] + When(o.skipInFlight, ["--skip-in-flight"]) + ["--freeze-cgroup", v.freezer]
    + When(o.ttyId, ["--ext-mount-map", "/dev/console:console"]) + When(o.ttyId, ["--external", v.ttyId])
  }

  function ImageArgs(o: Opts, v: Values): seq<string> {
    When(o.predumpDir, ["--prev-images-dir", v.predumpDir]) + When(o.predumpDir, ["--track-mem"])
    + When(PageServer(o), ["--page-server"]) + When(PageServer(o), ["--address", v.address])
    + When(PageServer(o), ["--port", v.port])
  }

  function FinalArgs(o: Opts, v: Values): seq<string> {
    When(!o.preservesInodes, ["--force-irmap"]) + When(o.ghostLimit, ["--ghost-limit", v.ghostLimit])
    + When(o.action == Dump && !o.stop, ["--leave-running"])
  }

  function SiblingArgs(o: Opts, v: Values): seq<string> {
    ["--root", v.root] + ["--restore-detached", "--restore-sibling"] + When(o.ttys, ["--inherit-fd", v.inheritFd])
    + When(o.consoleName, ["--ext-mount-map", v.console]) + When(o.lsm, ["--lsm-profile", v.lsm])
  }

  function FirstArgs(o: Opts, v: Values): seq<string> {
    CommonArgs(v) + Each("--cgroup-root", v.cgroupRoots) + When(o.verbose, ["-v4"])
    + When(o.actionScript, ["--action-script", v.actionScript])
  }

  function MountArgs(o: Opts, v: Values): seq<string>
    requires Provides(o, v)
  {
    Each("--ext-mount-map", Marked(Marks(MountLines(o)), v.mounts))
  }

  function ActionArgs(o: Opts, v: Values): seq<string> {
    if IsDump(o) then TaskArgs(o, v) + ImageArgs(o, v) + FinalArgs(o, v)
    else SiblingArgs(o, v) + Each(if v.external then "--external" else "--veth-pair", v.devices)
  }

  /** The whole argument vector, without the final null. */
  function Arguments(o: Opts, v: Values): seq<string>
    requires Provides(o, v)
  {
    FirstArgs(o, v) + MountArgs(o, v) + ActionArgs(o, v)
  }

  lemma {:induction false} EachCount(option: string, values: seq<string>)
    ensures |Each(option, values)| == 2 * |values|
  {
    if values != [] { EachCount(option, values[..|values| - 1]); }
  }

  lemma {:induction false} MarkedCount(marks: seq<bool>, values: seq<string>)
    requires |marks| == |values|
    ensures |Marked(marks, values)| == Count(marks)
  {
    if marks != [] { MarkedCount(marks[..|marks| - 1], values[..|values| - 1]); }
  }

  lemma FirstCount(o: Opts, v: Values)
    requires Provides(o, v)
    ensures |FirstArgs(o, v)| == COMMON + 2 * Hierarchies(o) + One(o.verbose) + 2 * One(o.actionScript)
  {
    EachCount("--cgroup-root", v.cgroupRoots);
  }

  lemma ActionCount(o: Opts, v: Values)
    requires Provides(o, v)
    ensures |ActionArgs(o, v)| == if IsDump(o) then DumpArgs(o) else RestoreArgs(o)
  {
    if IsDump(o) {
      TaskCount(o, v);
      ImageCount(o, v);
      FinalCount(o, v);
    } else {
      SiblingCount(o, v);
      EachCount(if v.external then "--external" else "--veth-pair", v.devices);
    }
  }

  lemma TaskCount(o: Opts, v: Values)
    ensures |TaskArgs(o, v)| == 4 + One(o.skipInFlight) + 4 * One(o.ttyId)
  {
  }

  lemma ImageCount(o: Opts, v: Values)
    ensures |ImageArgs(o, v)| == 3 * One(o.predumpDir) + 5 * One(PageServer(o))
  {
  }

  lemma FinalCount(o: Opts, v: Values)
    ensures |FinalArgs(o, v)| == One(!o.preservesInodes) + 2 * One(o.ghostLimit) + One(o.action == Dump && !o.stop)
  {
  }

  lemma SiblingCount(o: Opts, v: Values)
    ensures |SiblingArgs(o, v)| == 4 + 2 * One(o.ttys) + 2 * One(o.consoleName) + 2 * One(o.lsm)
  {
  }

  lemma MountCount(o: Opts, v: Values)
    requires Provides(o, v)
    ensures |MountArgs(o, v)| == 2 * Binds(MountLines(o))
  {
    MarkedCount(Marks(MountLines(o)), v.mounts);
    EachCount("--ext-mount-map", Marked(Marks(MountLines(o)), v.mounts));
  }

  /** As many as were counted, for all options and values. */
  lemma ArgumentsCount(o: Opts, v: Values)
    requires Provides(o, v)
    ensures |Arguments(o, v)| == |FirstArgs(o, v) + MountArgs(o, v)| + |ActionArgs(o, v)| == Filled(o)
    ensures |MountArgs(o, v)| == 2 * Binds(MountLines(o))
  {
    FirstCount(o, v);
    MountCount(o, v);
    ActionCount(o, v);
  }

  class ExecArgs {
    var argc: nat
    const argv: array<Option<string>>

    /** The slots that are in use hold the list. */
    ghost predicate Has(list: seq<string>)
      reads this, argv
    {
      argc == |list| <= argv.Length && forall i | 0 <= i < argc :: argv[i] == Some(list[i])
    }

    constructor (slots: nat)
      ensures Has([]) && argv.Length == slots && fresh(argv)
    {
      argc := 0;
      argv := new Option<string>[slots](_ => None);
    }

    /** DECLARE_ARG(), which does not check for room. */
    method Declare(arg: string, ghost before: seq<string>)
      requires Has(before) && argc < argv.Length
      modifies `argc, argv
      ensures Has(before + [arg])
    {
      argv[argc] := Some(arg);
      argc := argc + 1;
    }

    method DeclareTwo(first: string, second: string, ghost before: seq<string>)
      requires Has(before) && argc + 2 <= argv.Length
      modifies `argc, argv
      ensures Has(before + [first, second])
    {
      Declare(first, before);
      Declare(second, before + [first]);
      assert before + [first] + [second] == before + [first, second];
    }

    method DeclareIf(wanted: bool, arg: string, ghost before: seq<string>)
      requires Has(before) && argc + |When(wanted, [arg])| <= argv.Length
      modifies `argc, argv
      ensures Has(before + When(wanted, [arg]))
    {
      assert before + [] == before;
      if wanted {
        Declare(arg, before);
      }
    }

    method DeclareTwoIf(wanted: bool, first: string, second: string, ghost before: seq<string>)
      requires Has(before) && argc + |When(wanted, [first, second])| <= argv.Length
      modifies `argc, argv
      ensures Has(before + When(wanted, [first, second]))
    {
      assert before + [] == before;
      if wanted {
        DeclareTwo(first, second, before);
      }
    }

    method DeclareCommon(v: Values)
      requires Has([]) && COMMON <= argv.Length
      modifies `argc, argv
      ensures Has(CommonArgs(v))
    {
      DeclareTwo("criu", v.action, []);
      ghost var list := ["criu", v.action];
      assert [] + list == list;
      DeclareTwo("--tcp-established", "--file-locks", list);
      list := list + ["--tcp-established", "--file-locks"];
      DeclareTwo("--link-remap", "--manage-cgroups=full", list);
      list := list + ["--link-remap", "--manage-cgroups=full"];
      DeclareTwo("--ext-mount-map", "auto", list);
      list := list + ["--ext-mount-map", "auto"];
      DeclareTwo("--enable-external-sharing", "--enable-external-masters", list);
      list := list + ["--enable-external-sharing", "--enable-external-masters"];
      DeclareTwo("--enable-fs", "hugetlbfs", list);
      list := list + ["--enable-fs", "hugetlbfs"];
      DeclareTwo("--enable-fs", "tracefs", list);
      list := list + ["--enable-fs", "tracefs"];
      DeclareTwo("-D", v.directory, list);
      list := list + ["-D", v.directory];
      DeclareTwo("-o", v.log, list);
    }

    /** One option with its value after the other. */
    method DeclareEach(option: string, values: seq<string>, ghost before: seq<string>)
      requires Has(before) && argc + 2 * |values| <= argv.Length
      modifies `argc, argv
      ensures Has(before + Each(option, values))
    {
      assert values[..0] == [] && before + [] == before;
      for i := 0 to |values|
        invariant Has(before + Each(option, values[..i])) && argc == |before| + 2 * i
      {
        EachStep(option, values, i, before);
        EachCount(option, values[..i]);
        DeclareTwo(option, values[i], before + Each(option, values[..i]));
      }
      assert values[..|values|] == values;
    }

    /** What precedes the bind mounts. */
    method DeclareFirst(o: Opts, v: Values)
      requires Provides(o, v) && Has([]) && |FirstArgs(o, v)| <= argv.Length
      modifies `argc, argv
      ensures Has(FirstArgs(o, v))
    {
      FirstCount(o, v);
      EachCount("--cgroup-root", v.cgroupRoots);
      DeclareCommon(v);
      DeclareEach("--cgroup-root", v.cgroupRoots, CommonArgs(v));
      ghost var list := CommonArgs(v) + Each("--cgroup-root", v.cgroupRoots);
      DeclareIf(o.verbose, "-v4", list);
      list := list + When(o.verbose, ["-v4"]);
      DeclareTwoIf(o.actionScript, "--action-script", v.actionScript, list);
    }

    /** One line of the mount file after the other; only bind mounts add arguments. */
    method DeclareMounts(o: Opts, v: Values, ghost before: seq<string>)
      requires Provides(o, v) && Has(before) && argc + 2 * Binds(MountLines(o)) <= argv.Length
      modifies `argc, argv
      ensures Has(before + MountArgs(o, v))
    {
      DeclareMarked(Marks(MountLines(o)), v.mounts, before);
    }

    method DeclareMarked(marks: seq<bool>, mounts: seq<string>, ghost before: seq<string>)
      requires |marks| == |mounts| && Has(before) && argc + 2 * Count(marks) <= argv.Length
      modifies `argc, argv
      ensures Has(before + Each("--ext-mount-map", Marked(marks, mounts)))
    {
      assert before + [] == before;
      for i := 0 to |marks|
        invariant Has(before + Each("--ext-mount-map", Marked(marks[..i], mounts[..i])))
        invariant argc == |before| + 2 * Count(marks[..i])
      {
        CountStep(marks, i);
        MarkedStep(marks, mounts, i, before);
        DeclareTwoIf(marks[i], "--ext-mount-map", mounts[i],
                     before + Each("--ext-mount-map", Marked(marks[..i], mounts[..i])));
      }
      assert marks[..|marks|] == marks && mounts[..|mounts|] == mounts;
    }

    method DeclareTask(o: Opts, v: Values, ghost before: seq<string>)
      requires Has(before) && argc + |TaskArgs(o, v)| <= argv.Length
      modifies `argc, argv
      ensures Has(before + TaskArgs(o, v))
    {
      DeclareTwo("-t", v.initPid, before);
      ghost var list := before + ["-t", v.initPid];
      DeclareIf(o.skipInFlight, "--skip-in-flight", list);
      list := list + When(o.skipInFlight, ["--skip-in-flight"]);
      DeclareTwo("--freeze-cgroup", v.freezer, list);
      list := list + ["--freeze-cgroup", v.freezer];
      DeclareTwoIf(o.ttyId, "--ext-mount-map", "/dev/console:console", list);
      list := list + When(o.ttyId, ["--ext-mount-map", "/dev/console:console"]);
      DeclareTwoIf(o.ttyId, "--external", v.ttyId, list);
      Regroup(before, ["-t", v.initPid], When(o.skipInFlight, ["--skip-in-flight"]), ["--freeze-cgroup", v.freezer],
              When(o.ttyId, ["--ext-mount-map", "/dev/console:console"]), When(o.ttyId, ["--external", v.ttyId]));
    }

    method DeclareImages(o: Opts, v: Values, ghost before: seq<string>)
      requires Has(before) && argc + |ImageArgs(o, v)| <= argv.Length
      modifies `argc, argv
      ensures Has(before + ImageArgs(o, v))
    {
      DeclareTwoIf(o.predumpDir, "--prev-images-dir", v.predumpDir, before);
      ghost var list := before + When(o.predumpDir, ["--prev-images-dir", v.predumpDir]);
      DeclareIf(o.predumpDir, "--track-mem", list);
      list := list + When(o.predumpDir, ["--track-mem"]);
      DeclareIf(PageServer(o), "--page-server", list);
      list := list + When(PageServer(o), ["--page-server"]);
      DeclareTwoIf(PageServer(o), "--address", v.address, list);
      list := list + When(PageServer(o), ["--address", v.address]);
      DeclareTwoIf(PageServer(o), "--port", v.port, list);
      Regroup(before, When(o.predumpDir, ["--prev-images-dir", v.predumpDir]), When(o.predumpDir, ["--track-mem"]),
              When(PageServer(o), ["--page-server"]), When(PageServer(o), ["--address", v.address]),
              When(PageServer(o), ["--port", v.port]));
    }

    method DeclareFinal(o: Opts, v: Values, ghost before: seq<string>)
      requires Has(before) && argc + |FinalArgs(o, v)| <= argv.Length
      modifies `argc, argv
      ensures Has(before + FinalArgs(o, v))
    {
      DeclareIf(!o.preservesInodes, "--force-irmap", before);
      ghost var list := before + When(!o.preservesInodes, ["--force-irmap"]);
      DeclareTwoIf(o.ghostLimit, "--ghost-limit", v.ghostLimit, list);
      list := list + When(o.ghostLimit, ["--ghost-limit", v.ghostLimit]);
      DeclareIf(o.action == Dump && !o.stop, "--leave-running", list);
      Regroup(before, When(!o.preservesInodes, ["--force-irmap"]), When(o.ghostLimit, ["--ghost-limit", v.ghostLimit]),
              When(o.action == Dump && !o.stop, ["--leave-running"]), [], []);
    }

    method DeclareDump(o: Opts, v: Values, ghost before: seq<string>)
      requires IsDump(o) && Has(before) && argc + |ActionArgs(o, v)| <= argv.Length
      modifies `argc, argv
      ensures Has(before + ActionArgs(o, v))
    {
      DeclareTask(o, v, before);
      DeclareImages(o, v, before + TaskArgs(o, v));
      DeclareFinal(o, v, before + TaskArgs(o, v) + ImageArgs(o, v));
      Regroup(before, TaskArgs(o, v), ImageArgs(o, v), FinalArgs(o, v), [], []);
    }

    method DeclareSibling(o: Opts, v: Values, ghost before: seq<string>)
      requires Has(before) && argc + |SiblingArgs(o, v)| <= argv.Length
      modifies `argc, argv
      ensures Has(before + SiblingArgs(o, v))
    {
      DeclareTwo("--root", v.root, before);
      ghost var list := before + ["--root", v.root];
      DeclareTwo("--restore-detached", "--restore-sibling", list);
      list := list + ["--restore-detached", "--restore-sibling"];
      DeclareTwoIf(o.ttys, "--inherit-fd", v.inheritFd, list);
      list := list + When(o.ttys, ["--inherit-fd", v.inheritFd]);
      DeclareTwoIf(o.consoleName, "--ext-mount-map", v.console, list);
      list := list + When(o.consoleName, ["--ext-mount-map", v.console]);
      DeclareTwoIf(o.lsm, "--lsm-profile", v.lsm, list);
      Regroup(before, ["--root", v.root], ["--restore-detached", "--restore-sibling"],
              When(o.ttys, ["--inherit-fd", v.inheritFd]), When(o.consoleName, ["--ext-mount-map", v.console]),
              When(o.lsm, ["--lsm-profile", v.lsm]));
    }

    method DeclareRestore(o: Opts, v: Values, ghost before: seq<string>)
      requires !IsDump(o) && Provides(o, v) && Has(before) && argc + |ActionArgs(o, v)| <= argv.Length
      modifies `argc, argv
      ensures Has(before + ActionArgs(o, v))
    {
      var option := if v.external then "--external" else "--veth-pair";
      EachCount(option, v.devices);
      DeclareSibling(o, v, before);
      DeclareEach(option, v.devices, before + SiblingArgs(o, v));
      Regroup(before, SiblingArgs(o, v), Each(option, v.devices), [], [], []);
    }

    method DeclareAll(o: Opts, v: Values)
      requires Provides(o, v) && Has([]) && |Arguments(o, v)| <= argv.Length
      modifies `argc, argv
      ensures Has(Arguments(o, v))
    {
      ArgumentsCount(o, v);
      DeclareFirst(o, v);
      DeclareMounts(o, v, FirstArgs(o, v));
      if IsDump(o) {
        DeclareDump(o, v, FirstArgs(o, v) + MountArgs(o, v));
      } else {
        DeclareRestore(o, v, FirstArgs(o, v) + MountArgs(o, v));
      }
    }
  }

  lemma Regroup(s: seq<string>, a: seq<string>, b: seq<string>, c: seq<string>, x: seq<string>, y: seq<string>)
    ensures s + a + b == s + (a + b)
    ensures s + a + b + c == s + (a + b + c)
    ensures s + a + b + c + x + y == s + (a + b + c + x + y)
  {
  }

  lemma EachStep(option: string, values: seq<string>, i: nat, before: seq<string>)
    requires i < |values|
    ensures before + Each(option, values[..i + 1]) == before + Each(option, values[..i]) + [option, values[i]]
  {
    assert values[..i + 1][..i] == values[..i];
  }

  lemma EachMore(option: string, values: seq<string>, value: string)
    ensures Each(option, values + [value]) == Each(option, values) + [option, value]
  {
    assert (values + [value])[..|values|] == values;
  }

  lemma MarkedStep(marks: seq<bool>, mounts: seq<string>, i: nat, before: seq<string>)
    requires i < |marks| == |mounts|
    ensures before + Each("--ext-mount-map", Marked(marks[..i + 1], mounts[..i + 1])) ==
            before + Each("--ext-mount-map", Marked(marks[..i], mounts[..i]))
            + When(marks[i], ["--ext-mount-map", mounts[i]])
  {
    assert marks[..i + 1][..i] == marks[..i] && mounts[..i + 1][..i] == mounts[..i];
    var list := Marked(marks[..i], mounts[..i]);
    assert Marked(marks[..i + 1], mounts[..i + 1]) == list + When(marks[i], [mounts[i]]);
    EachMore("--ext-mount-map", list, mounts[i]);
    assert list + [] == list;
  }

  lemma CountStep(marks: seq<bool>, i: nat)
    requires i < |marks|
    ensures Count(marks[..i + 1]) == Count(marks[..i]) + One(marks[i])
    ensures Count(marks[..i + 1]) <= Count(marks)
  {
    assert marks[..i + 1][..i] == marks[..i];
    assert marks == marks[..i + 1] + marks[i + 1..];
    CountAdd(marks[..i + 1], marks[i + 1..]);
  }

  /** The counting pass, as it adds up option by option. */
  method StaticArgs(o: Opts) returns (n: int)
    ensures n == Reserved(o)
  {
    n := 23;
    if o.action == Dump || o.action == PreDump {
      n := CountDump(o, n);
    } else {
      n := n + 6;
      if o.ttys { n := n + 2; }
      n := n + 2 * o.netdevs;
    }
    if o.hierarchies > 0 { n := n + 2 * o.hierarchies; }
    if o.verbose { n := n + 1; }
    if o.actionScript { n := n + 2; }
    n := n + 2 * |o.entries|;
  }

  method CountDump(o: Opts, before: int) returns (n: int)
    ensures n == before + ReservedForDump(o)
  {
    n := before + 4;
    if o.predumpDir { n := n + 2; }
    if o.pageserverAddress && o.pageserverPort { n := n + 5; }
    if o.action == Dump && !o.stop { n := n + 1; }
    if o.ttyId { n := n + 2; }
    if !o.preservesInodes { n := n + 1; }
    if o.ghostLimit { n := n + 2; }
  }

  lemma AllFit(o: Opts, v: Values)
    requires 2 * Binds(Lines(o.entries)) <= 2 * |o.entries| + Spare(o) && Provides(o, v)
    ensures |Arguments(o, v)| == Filled(o) < Reserved(o)
  {
    FitsExactlyWhen(o);
    ArgumentsCount(o, v);
  }

  /**
   * Counting and filling together: the vector holds all the arguments and the final null,
   * and nothing is written outside of it, for any options and any number of hierarchies,
   * devices and entries, as long as bind lines in excess of the entries do not use up
   * more than is spare.
   */
  method ExecCriu(o: Opts, v: Values) returns (args: ExecArgs)
    requires 2 * Binds(Lines(o.entries)) <= 2 * |o.entries| + Spare(o) && Provides(o, v)
    ensures args.argv.Length == Reserved(o) && args.argc == Filled(o) < Reserved(o)
    ensures args.Has(Arguments(o, v)) && args.argv[args.argc] == None
  {
    AllFit(o, v);
    var slots := StaticArgs(o);
    args := new ExecArgs(slots);
    args.DeclareAll(o, v);
    args.argv[args.argc] := None;
  }

  /** What the page server adds to a dump: five arguments and five slots, if it has both address and port. */
  lemma PageServerAdds(o: Opts)
    ensures var without := o.(pageserverAddress := false, pageserverPort := false);
      var five := if o.pageserverAddress && o.pageserverPort then 5 else 0;
      DumpArgs(o) == DumpArgs(without) + five && ReservedForDump(o) == ReservedForDump(without) + five
  {
  }
}
