/** What the options with an opposite do to the program's own tables. */
module MountPairs {
  import opened MountFlags
  import opened MountOptions
  import opened MountTables

  /** A pair of options and their bit in the attributes and in the flag word. */
  datatype Pair = Pair(on: string, off: string, attr: nat, flag: nat, i: nat, j: nat)

  function Pairs(): seq<Pair> {
    [ Pair("ro", "rw", 0, RDONLY, 13, 14),
      Pair("nosuid", "suid", 1, NOSUID, 11, 16),
      Pair("nodev", "dev", 2, NODEV, 5, 1),
      Pair("noexec", "exec", 3, NOEXEC, 7, 3),
      Pair("noatime", "atime", 4, NOATIME, 4, 0),
      Pair("nodiratime", "diratime", 7, NODIRATIME, 6, 2),
      Pair("strictatime", "nostrictatime", 5, STRICTATIME, 15, 9) ]
  }

  predicate BitsOf(e: MountOpt, p: Pair, mine: bool) {
    && (p.attr in e.flag <==> mine)
    && (p.flag in e.legacyFlag <==> mine)
  }

  lemma TimeBits(p: Pair, x: nat)
    requires p in Pairs() && x < 9
    ensures BitsOf(TimeOpts()[x], p, x == p.i || x == p.j)
  {
  }

  lemma AccessBits(p: Pair, x: nat)
    requires p in Pairs() && x < 8
    ensures BitsOf(AccessOpts()[x], p, 9 + x == p.i || 9 + x == p.j)
  {
  }

  lemma OtherBits(p: Pair, x: nat)
    requires p in Pairs()
    ensures x < 4 ==> BitsOf(BindOpts()[x], p, false)
    ensures x < 7 ==> BitsOf(IgnoredOpts()[x], p, false)
  {
  }

  lemma TableBits(p: Pair, x: nat)
    requires p in Pairs() && x < 28
    ensures |MountOpts()| == 28 && BitsOf(MountOpts()[x], p, x == p.i || x == p.j)
  {
    EntryIsSound(x);
    if x < 9 {
      TimeBits(p, x);
      assert MountOpts()[x] == TimeOpts()[x];
    } else if x < 17 {
      AccessBits(p, x - 9);
      assert MountOpts()[x] == AccessOpts()[x - 9];
    } else if x < 21 {
      OtherBits(p, x - 17);
      assert MountOpts()[x] == BindOpts()[x - 17];
    } else {
      OtherBits(p, x - 21);
      assert MountOpts()[x] == IgnoredOpts()[x - 21];
    }
  }

  predicate Plain(e: MountOpt, name: string, clear: bool) {
    e.name == name && e.clear == clear && !e.ignored && !Binds(e)
  }

  lemma PairIsPlain(p: Pair)
    requires p in Pairs()
    ensures |MountOpts()| == 28 && p.i < 28 && p.j < 28
    ensures Plain(MountOpts()[p.i], p.on, false) && Plain(MountOpts()[p.j], p.off, true)
  {
    EntryIsSound(0);
    assert p.i < 17 && p.j < 17;
    assert MountOpts()[p.i] == if p.i < 9 then TimeOpts()[p.i] else AccessOpts()[p.i - 9];
    assert MountOpts()[p.j] == if p.j < 9 then TimeOpts()[p.j] else AccessOpts()[p.j - 9];
  }

  lemma PairIsOpposite(p: Pair)
    requires p in Pairs()
    ensures |MountOpts()| == 28 && Opposites(MountOpts(), p.i, p.j, p.attr, p.flag)
    ensures MountOpts()[p.i].name == p.on && MountOpts()[p.j].name == p.off
  {
    PairIsPlain(p);
    forall x | 0 <= x < |MountOpts()|
      ensures BitsOf(MountOpts()[x], p, x == p.i || x == p.j)
    {
      TableBits(p, x);
    }
  }

  /**
   * With the program's tables and any options: read-only is asked for exactly by an
   * option that begins with ro, and taken back exactly by one that begins with rw,
   * and the flag word is as the last of them says.  The same for devices, set-user-id
   * programs, execution and the access times.
   */
  lemma PairDecides(p: Pair, ps: seq<string>, v: Vfs)
    requires p in Pairs()
    ensures var w := NewVfs(MountOpts(), PropagationOpts(), ps, v);
      && (p.attr in w.attrSet <==> p.attr in v.attrSet || AnyOf(ps, Begin(p.on)))
      && (p.attr in w.attrClr <==> p.attr in v.attrClr || AnyOf(ps, Begin(p.off)))
    ensures var k := LastOf(ps, BeginEither(p.on, p.off));
      p.flag in NewVfs(MountOpts(), PropagationOpts(), ps, v).mntFlags <==>
        if k < 0 then p.flag in v.mntFlags else p.on <= ps[k]
    ensures var k := LastOf(ps, IsEither(p.on, p.off));
      p.flag in LegacyFlags(MountOpts(), ps, v.mntFlags) <==> if k < 0 then p.flag in v.mntFlags else ps[k] == p.on
  {
    TableIsWellFormed();
    PairIsOpposite(p);
    OppositesAttrs(MountOpts(), PropagationOpts(), ps, v, p.i, p.j, p.attr, p.flag);
    OppositesFlag(MountOpts(), PropagationOpts(), ps, v, p.i, p.j, p.attr, p.flag);
  }

  const IGNORED: seq<string> := ["sync", "async", "dirsync", "lazytime", "mand", "nomand", "remount"]

  /** Options about synchronous writes, lazy times, mandatory locks and remounting change nothing in the new parser. */
  lemma IgnoredChangeNothing(x: nat, opt: string, v: Vfs)
    requires x < |IGNORED| && IGNORED[x] <= opt
    ensures NewStep(MountOpts(), PropagationOpts(), v, opt) == v
    ensures !NewData(MountOpts(), PropagationOpts(), opt)
  {
    TableIsWellFormed();
    IgnoredAre(x);
    IgnoredEntry(MountOpts(), PropagationOpts(), v, opt, 21 + x);
  }

  lemma IgnoredAre(x: nat)
    requires x < |IGNORED|
    ensures |MountOpts()| == 28 && MountOpts()[21 + x].name == IGNORED[x] && MountOpts()[21 + x].ignored
  {
    EntryIsSound(21 + x);
    assert MountOpts()[21 + x] == IgnoredOpts()[x];
  }
}
