/** The tables of mount and propagation options in conf.c, and that they are unambiguous. */
module MountTables {
  import opened MountOptions

  const RDONLY: nat := 0
  const NOSUID: nat := 1
  const NODEV: nat := 2
  const NOEXEC: nat := 3
  const SYNCHRONOUS: nat := 4
  const REMOUNT: nat := 5
  const MANDLOCK: nat := 6
  const DIRSYNC: nat := 7
  const NOSYMFOLLOW: nat := 8
  const NOATIME: nat := 10
  const NODIRATIME: nat := 11
  const BIND: nat := 12
  const MOVE: nat := 13
  const REC: nat := 14
  const UNBINDABLE: nat := 17
  const PRIVATE: nat := 18
  const SLAVE: nat := 19
  const SHARED: nat := 20
  const RELATIME: nat := 21
  const STRICTATIME: nat := 24
  const LAZYTIME: nat := 25

  /** Entries 0 to 8. */
  function TimeOpts(): Table {
    [ MountOpt("atime",         true,  false, {4},   {NOATIME}),
      MountOpt("dev",           true,  false, {2},   {NODEV}),
      MountOpt("diratime",      true,  false, {7},   {NODIRATIME}),
      MountOpt("exec",          true,  false, {3},   {NOEXEC}),
      MountOpt("noatime",       false, false, {4},   {NOATIME}),
      MountOpt("nodev",         false, false, {2},   {NODEV}),
      MountOpt("nodiratime",    false, false, {7},   {NODIRATIME}),
      MountOpt("noexec",        false, false, {3},   {NOEXEC}),
      MountOpt("norelatime",    true,  false, {},    {RELATIME}) ]
  }

  /** Entries 9 to 16. */
  function AccessOpts(): Table {
    [ MountOpt("nostrictatime", true,  false, {5},   {STRICTATIME}),
      MountOpt("nosymfollow",   false, false, {21},  {NOSYMFOLLOW}),
      MountOpt("nosuid",        false, false, {1},   {NOSUID}),
      MountOpt("relatime",      false, false, {},    {RELATIME}),
      MountOpt("ro",            false, false, {0},   {RDONLY}),
      MountOpt("rw",            true,  false, {0},   {RDONLY}),
      MountOpt("strictatime",   false, false, {5},   {STRICTATIME}),
      MountOpt("suid",          true,  false, {1},   {NOSUID}) ]
  }

  /** Entries 17 to 20. */
  function BindOpts(): Table {
    [ MountOpt("bind",          false, false, {},    {BIND}),
      MountOpt("move",          false, false, {},    {MOVE}),
      MountOpt("defaults",      false, false, {},    {}),
      MountOpt("rbind",         false, false, {},    {BIND, REC}) ]
  }

  /** Entries 21 to 27, which the new parser ignores. */
  function IgnoredOpts(): Table {
    [ MountOpt("sync",          false, true,  {},    {SYNCHRONOUS}),
      MountOpt("async",         true,  true,  {},    {SYNCHRONOUS}),
      MountOpt("dirsync",       false, true,  {},    {DIRSYNC}),
      MountOpt("lazytime",      false, true,  {},    {LAZYTIME}),
      MountOpt("mand",          false, true,  {},    {MANDLOCK}),
      MountOpt("nomand",        true,  true,  {},    {MANDLOCK}),
      MountOpt("remount",       false, true,  {},    {REMOUNT}) ]
  }

  function MountOpts(): Table {
    TimeOpts() + AccessOpts() + BindOpts() + IgnoredOpts()
  }

  function PropagationOpts(): Table {
    [ MountOpt("private",     false, false, {PRIVATE},    {PRIVATE}),
      MountOpt("shared",      false, false, {SHARED},     {SHARED}),
      MountOpt("slave",       false, false, {SLAVE},      {SLAVE}),
      MountOpt("unbindable",  false, false, {UNBINDABLE}, {UNBINDABLE}),
      MountOpt("rprivate",    false, false, {PRIVATE},    {PRIVATE, REC}),
      MountOpt("rshared",     false, false, {SHARED},     {SHARED, REC}),
      MountOpt("rslave",      false, false, {SLAVE},      {SLAVE, REC}),
      MountOpt("runbindable", false, false, {UNBINDABLE}, {UNBINDABLE, REC}) ]
  }

  function Letter(s: string, k: nat): char {
    if k < |s| then s[k] else '\0'
  }

  /** Tells the names of the table apart by their first letters; 28 for anything else. */
  function Place(s: string): nat {
    if Letter(s, 0) == 'a' then
      (if Letter(s, 1) == 't' then 0
      else if Letter(s, 1) == 's' then 22
      else 28)
    else if Letter(s, 0) == 'd' then
      (if Letter(s, 1) == 'e' then
        (if Letter(s, 2) == 'v' then 1
        else if Letter(s, 2) == 'f' then 19
        else 28)
      else if Letter(s, 1) == 'i' then
        (if Letter(s, 3) == 'a' then 2
        else if Letter(s, 3) == 's' then 23
        else 28)
      else 28)
    else if Letter(s, 0) == 'e' then 3
    else if Letter(s, 0) == 'n' then
      (if Letter(s, 2) == 'a' then 4
      else if Letter(s, 2) == 'd' then
        (if Letter(s, 3) == 'e' then 5
        else if Letter(s, 3) == 'i' then 6
        else 28)
      else if Letter(s, 2) == 'e' then 7
      else if Letter(s, 2) == 'r' then 8
      else if Letter(s, 2) == 's' then
        (if Letter(s, 3) == 't' then 9
        else if Letter(s, 3) == 'y' then 10
        else if Letter(s, 3) == 'u' then 11
        else 28)
      else if Letter(s, 2) == 'm' then 26
      else 28)
    else if Letter(s, 0) == 'r' then
      (if Letter(s, 1) == 'e' then
        (if Letter(s, 2) == 'l' then 12
        else if Letter(s, 2) == 'm' then 27
        else 28)
      else if Letter(s, 1) == 'o' then 13
      else if Letter(s, 1) == 'w' then 14
      else if Letter(s, 1) == 'b' then 20
      else 28)
    else if Letter(s, 0) == 's' then
      (if Letter(s, 1) == 't' then 15
      else if Letter(s, 1) == 'u' then 16
      else if Letter(s, 1) == 'y' then 21
      else 28)
    else if Letter(s, 0) == 'b' then 17
    else if Letter(s, 0) == 'm' then
      (if Letter(s, 1) == 'o' then 18
      else if Letter(s, 1) == 'a' then 25
      else 28)
    else if Letter(s, 0) == 'l' then 24
    else 28
  }

  /** What begins like a name is told apart like it. */
  lemma PlaceOfLonger(s: string, u: string)
    requires s <= u && Place(s) < 28
    ensures Place(u) == Place(s)
  {
    assert forall k: nat | k < |s| :: Letter(s, k) == Letter(u, k);
  }

  predicate Sound(e: MountOpt, place: nat) {
    && Place(e.name) == place && '=' !in e.name && (e.ignored ==> e.legacyFlag != {})
    && (e.name == "rbind" || e.name == "bind" ==> !e.clear && !e.ignored)
  }

  lemma TimeOptsAreSound(i: nat)
    requires i < 9
    ensures |TimeOpts()| == 9 && Sound(TimeOpts()[i], i)
  {
  }

  lemma AccessOptsAreSound(i: nat)
    requires i < 8
    ensures |AccessOpts()| == 8 && Sound(AccessOpts()[i], 9 + i)
  {
  }

  lemma BindOptsAreSound(i: nat)
    requires i < 4
    ensures |BindOpts()| == 4 && Sound(BindOpts()[i], 17 + i)
  {
  }

  lemma IgnoredOptsAreSound(i: nat)
    requires i < 7
    ensures |IgnoredOpts()| == 7 && Sound(IgnoredOpts()[i], 21 + i)
  {
  }

  lemma EntryIsSound(i: nat)
    requires i < 28
    ensures |MountOpts()| == 28 && Sound(MountOpts()[i], i)
  {
    if i < 9 {
      TimeOptsAreSound(i);
    } else if i < 17 {
      AccessOptsAreSound(i - 9);
    } else if i < 21 {
      BindOptsAreSound(i - 17);
    } else {
      IgnoredOptsAreSound(i - 21);
    }
  }

  lemma NamesApart(i: nat, j: nat)
    requires i < 28 && j < 28 && i != j
    ensures |MountOpts()| == 28 && !(MountOpts()[i].name <= MountOpts()[j].name)
  {
    EntryIsSound(i);
    EntryIsSound(j);
    var s, u := MountOpts()[i].name, MountOpts()[j].name;
    if s <= u {
      PlaceOfLonger(s, u);
      assert false;
    }
  }

  lemma TableIsWellFormed()
    ensures WellFormed(MountOpts())
  {
    var t := MountOpts();
    EntryIsSound(0);
    forall i, j | 0 <= i < |t| && 0 <= j < |t| && i != j
      ensures !(t[i].name <= t[j].name)
    {
      NamesApart(i, j);
    }
    forall e | e in t
      ensures '=' !in e.name && (e.ignored ==> e.legacyFlag != {})
      ensures e.name == "rbind" || e.name == "bind" ==> !e.clear && !e.ignored
    {
      var i :| 0 <= i < |t| && t[i] == e;
      EntryIsSound(i);
    }
  }

  /** With the tables of the program, strings of common options mean the same to both parsers. */
  lemma ParsersAgree(ps: seq<string>, v: Vfs)
    requires forall p | p in ps :: Common(MountOpts(), PropagationOpts(), p)
    ensures LegacyFlags(MountOpts(), ps, v.mntFlags) == NewVfs(MountOpts(), PropagationOpts(), ps, v).mntFlags
    ensures LegacyParts(MountOpts(), ps) == NewParts(MountOpts(), PropagationOpts(), ps)
  {
    TableIsWellFormed();
    CommonStringsAgree(MountOpts(), PropagationOpts(), ps, v);
  }

  /**
   * An option that goes on after a name of the table, such as rootcontext= after ro,
   * is data to the legacy parser and that name to the new one.
   */
  lemma LongerOptionIsMisread(i: nat, opt: string)
    requires i < |MountOpts()| && MountOpts()[i].name < opt
    ensures LegacyData(MountOpts(), opt)
    ensures FindPrefix(MountOpts(), opt, 0) == i && !NewData(MountOpts(), PropagationOpts(), opt)
  {
    var t := MountOpts();
    EntryIsSound(i);
    PlaceOfLonger(t[i].name, opt);
    var k, x := FindPrefix(t, opt, 0), FindExact(t, opt, 0);
    EntryIsSound(k);
    PlaceOfLonger(t[k].name, opt);
    if x < |t| {
      EntryIsSound(x);
    }
  }

  /** rootcontext= is taken for ro, and with it the mount becomes read-only. */
  lemma RootcontextIsMisread(context: string)
    ensures var opt := "rootcontext=" + context;
      && LegacyData(MountOpts(), opt) && !NewData(MountOpts(), PropagationOpts(), opt)
      && FindPrefix(MountOpts(), opt, 0) == 13 < |MountOpts()| && MountOpts()[13].name == "ro"
  {
    var opt := "rootcontext=" + context;
    ReadOnlyEntry();
    assert "ro" == opt[..2] && "ro" < opt;
    LongerOptionIsMisread(13, opt);
  }

  lemma ReadOnlyEntry()
    ensures |MountOpts()| == 28 && MountOpts()[13] == MountOpt("ro", false, false, {0}, {RDONLY})
  {
    EntryIsSound(13);
    assert MountOpts()[13] == AccessOpts()[4];
  }
}
