/** What the parsers make of a list of options, told by the entries that the options match. */
module MountFlags {
  import opened Libc
  import opened MountOptions
  import opened Positions

  // ---- the entry of an option ------------------------------------------------------

  /** The first entry whose name begins the option. */
  function Match(t: Table, opt: string): (e: Option<MountOpt>)
    ensures if e.None? then forall k | 0 <= k < |t| :: !(t[k].name <= opt)
            else exists k | 0 <= k < |t| :: t[k] == e.value && IsFirst(t, opt, k)
  {
    var k := FindPrefix(t, opt, 0);
    if k < |t| then assert IsFirst(t, opt, k); Some(t[k]) else None
  }

  predicate IsFirst(t: Table, opt: string, k: nat)
    requires k < |t|
  {
    t[k].name <= opt && forall j | 0 <= j < k :: !(t[j].name <= opt)
  }

  /** The first entry with this name, unless the option has a value. */
  function ExactMatch(t: Table, opt: string): (e: Option<MountOpt>)
    ensures if e.None? then '=' in opt || forall k | 0 <= k < |t| :: t[k].name != opt
            else '=' !in opt && exists k | 0 <= k < |t| :: t[k] == e.value && IsFirstExact(t, opt, k)
  {
    var k := FindExact(t, opt, 0);
    if '=' !in opt && k < |t| then assert IsFirstExact(t, opt, k); Some(t[k]) else None
  }

  predicate IsFirstExact(t: Table, opt: string, k: nat)
    requires k < |t|
  {
    t[k].name == opt && forall j | 0 <= j < k :: t[j].name != opt
  }

  /** The entry of an option that only the propagation table knows. */
  function PropMatch(t: Table, props: Table, opt: string): (e: Option<MountOpt>) {
    if Match(t, opt).Some? then None else Match(props, opt)
  }

  // ---- what one option asks for ----------------------------------------------------

  type Options = string -> bool

  predicate Binds(e: MountOpt) {
    e.name == "bind" || e.name == "rbind"
  }

  function SetAttr(t: Table, bit: nat): Options {
    opt => var e := Match(t, opt);
      e.Some? && !Binds(e.value) && !e.value.ignored && !e.value.clear && bit in e.value.flag
  }

  function ClearAttr(t: Table, bit: nat): Options {
    opt => var e := Match(t, opt);
      e.Some? && !Binds(e.value) && !e.value.ignored && e.value.clear && bit in e.value.flag
  }

  function AskBind(t: Table): Options {
    opt => Match(t, opt).Some? && Binds(Match(t, opt).value)
  }

  function AskRecursiveBind(t: Table): Options {
    opt => Match(t, opt).Some? && Match(t, opt).value.name == "rbind"
  }

  /** The options that decide about a bit of the flag word, and those that decide to set it. */
  function Decide(t: Table, bit: nat): Options {
    opt => var e := Match(t, opt);
      e.Some? && (Binds(e.value) || !e.value.ignored) && bit in e.value.legacyFlag
  }

  function DecideFor(t: Table, bit: nat): Options {
    opt => Decide(t, bit)(opt) && (Binds(Match(t, opt).value) || !Match(t, opt).value.clear)
  }

  function LegacyDecide(t: Table, bit: nat): Options {
    opt => ExactMatch(t, opt).Some? && bit in ExactMatch(t, opt).value.legacyFlag
  }

  function LegacyDecideFor(t: Table, bit: nat): Options {
    opt => LegacyDecide(t, bit)(opt) && !ExactMatch(t, opt).value.clear
  }

  function AskPropagation(t: Table, props: Table): Options {
    opt => PropMatch(t, props, opt).Some?
  }

  predicate Recursive(e: MountOpt) {
    e.name == "rprivate" || e.name == "rshared" || e.name == "rslave" || e.name == "runbindable"
  }

  function AskRecursion(t: Table, props: Table): Options {
    opt => PropMatch(t, props, opt).Some? && Recursive(PropMatch(t, props, opt).value)
  }

  function AskPropFlag(t: Table, props: Table, bit: nat): Options {
    opt => PropMatch(t, props, opt).Some? && bit in PropMatch(t, props, opt).value.legacyFlag
  }

  lemma AttrsAfter(t: Table, props: Table, v: Vfs, opt: string, bit: nat)
    ensures var w := NewStep(t, props, v, opt);
      && (bit in w.attrSet <==> bit in v.attrSet || SetAttr(t, bit)(opt))
      && (bit in w.attrClr <==> bit in v.attrClr || ClearAttr(t, bit)(opt))
  {
  }

  lemma BindAfter(t: Table, props: Table, v: Vfs, opt: string)
    ensures var w := NewStep(t, props, v, opt);
      && (w.bind <==> v.bind || AskBind(t)(opt))
      && (w.bindRecursively <==> v.bindRecursively || AskRecursiveBind(t)(opt))
  {
  }

  lemma MntFlagsAfter(t: Table, props: Table, v: Vfs, opt: string, bit: nat)
    ensures bit in NewStep(t, props, v, opt).mntFlags <==>
            if Decide(t, bit)(opt) then DecideFor(t, bit)(opt) else bit in v.mntFlags
  {
    if Match(t, opt).Some? { EntryDecides(v, Match(t, opt).value, bit); }
  }

  lemma EntryDecides(v: Vfs, e: MountOpt, bit: nat)
    ensures bit in Enter(v, e).mntFlags <==>
            if (Binds(e) || !e.ignored) && bit in e.legacyFlag then Binds(e) || !e.clear else bit in v.mntFlags
  {
  }

  lemma LegacyFlagsAfter(t: Table, flags: Flags, opt: string, bit: nat)
    ensures bit in LegacyStep(t, flags, opt) <==>
            if LegacyDecide(t, bit)(opt) then LegacyDecideFor(t, bit)(opt) else bit in flags
  {
  }

  lemma PropagationAfter(t: Table, props: Table, v: Vfs, opt: string)
    ensures var w, e := NewStep(t, props, v, opt), PropMatch(t, props, opt);
      && (w.propagation == if e.Some? then e.value.flag else v.propagation)
      && (w.propagateRecursively <==> v.propagateRecursively || AskRecursion(t, props)(opt))
  {
  }

  lemma PropFlagsAfter(t: Table, props: Table, v: Vfs, opt: string, bit: nat)
    ensures bit in NewStep(t, props, v, opt).propFlags <==>
            bit in v.propFlags || AskPropFlag(t, props, bit)(opt)
  {
  }

  // ---- lists of options ------------------------------------------------------------

  ghost predicate AnyOf(ps: seq<string>, q: Options) {
    exists p <- ps :: q(p)
  }

  lemma AnyMore(ps: seq<string>, q: Options)
    requires ps != []
    ensures AnyOf(ps, q) <==> AnyOf(ps[..|ps| - 1], q) || q(ps[|ps| - 1])
  {
    assert ps == ps[..|ps| - 1] + [ps[|ps| - 1]];
  }

  /** The position of the last such option, or -1. */
  function LastOf(ps: seq<string>, q: Options): (k: int)
    ensures -1 <= k < |ps| && (k >= 0 ==> q(ps[k]))
    ensures forall j | k < j < |ps| :: !q(ps[j])
  {
    var p := (i: nat) => i < |ps| && q(ps[i]);
    var k := LastBefore(|ps|, p);
    assert forall j: nat | k < j < |ps| :: p(j) == q(ps[j]);
    k
  }

  lemma LastMore(ps: seq<string>, q: Options)
    requires ps != []
    ensures LastOf(ps, q) == if q(ps[|ps| - 1]) then |ps| - 1 else LastOf(ps[..|ps| - 1], q)
  {
    var front := ps[..|ps| - 1];
    var k, j := LastOf(ps, q), LastOf(front, q);
    if k < |front| {
      assert k >= 0 ==> q(front[k]);
      assert j >= 0 ==> q(ps[j]);
    }
  }

  /** An attribute is set exactly if it was, or an option's entry sets it and does not clear. */
  lemma {:induction false} AttrsExactlyWhen(t: Table, props: Table, ps: seq<string>, v: Vfs, bit: nat)
    ensures bit in NewVfs(t, props, ps, v).attrSet <==> bit in v.attrSet || AnyOf(ps, SetAttr(t, bit))
    ensures bit in NewVfs(t, props, ps, v).attrClr <==> bit in v.attrClr || AnyOf(ps, ClearAttr(t, bit))
  {
    if ps != [] {
      var front, last := ps[..|ps| - 1], ps[|ps| - 1];
      AttrsExactlyWhen(t, props, front, v, bit);
      AttrsAfter(t, props, NewVfs(t, props, front, v), last, bit);
      AnyMore(ps, SetAttr(t, bit));
      AnyMore(ps, ClearAttr(t, bit));
    }
  }

  lemma {:induction false} BindExactlyWhen(t: Table, props: Table, ps: seq<string>, v: Vfs)
    ensures NewVfs(t, props, ps, v).bind <==> v.bind || AnyOf(ps, AskBind(t))
    ensures NewVfs(t, props, ps, v).bindRecursively <==> v.bindRecursively || AnyOf(ps, AskRecursiveBind(t))
  {
    if ps != [] {
      var front, last := ps[..|ps| - 1], ps[|ps| - 1];
      BindExactlyWhen(t, props, front, v);
      BindAfter(t, props, NewVfs(t, props, front, v), last);
      AnyMore(ps, AskBind(t));
      AnyMore(ps, AskRecursiveBind(t));
    }
  }

  /** A bit of the flag word is as the last option that decides about it says. */
  lemma {:induction false} MntFlagsExactlyWhen(t: Table, props: Table, ps: seq<string>, v: Vfs, bit: nat)
    ensures var k := LastOf(ps, Decide(t, bit));
      bit in NewVfs(t, props, ps, v).mntFlags <==> if k < 0 then bit in v.mntFlags else DecideFor(t, bit)(ps[k])
  {
    if ps != [] {
      var front, last := ps[..|ps| - 1], ps[|ps| - 1];
      MntFlagsExactlyWhen(t, props, front, v, bit);
      MntFlagsAfter(t, props, NewVfs(t, props, front, v), last, bit);
      LastMore(ps, Decide(t, bit));
    }
  }

  lemma {:induction false} LegacyFlagsExactlyWhen(t: Table, ps: seq<string>, flags: Flags, bit: nat)
    ensures var k := LastOf(ps, LegacyDecide(t, bit));
      bit in LegacyFlags(t, ps, flags) <==> if k < 0 then bit in flags else LegacyDecideFor(t, bit)(ps[k])
  {
    if ps != [] {
      var front, last := ps[..|ps| - 1], ps[|ps| - 1];
      LegacyFlagsExactlyWhen(t, front, flags, bit);
      LegacyFlagsAfter(t, LegacyFlags(t, front, flags), last, bit);
      LastMore(ps, LegacyDecide(t, bit));
    }
  }

  /** The propagation is that of the last option that only the propagation table knows. */
  lemma {:induction false} PropagationIsLast(t: Table, props: Table, ps: seq<string>, v: Vfs)
    ensures var k := LastOf(ps, AskPropagation(t, props));
      NewVfs(t, props, ps, v).propagation ==
        if k < 0 then v.propagation else PropMatch(t, props, ps[k]).value.flag
    ensures NewVfs(t, props, ps, v).propagateRecursively <==>
            v.propagateRecursively || AnyOf(ps, AskRecursion(t, props))
  {
    if ps != [] {
      var front, last := ps[..|ps| - 1], ps[|ps| - 1];
      PropagationIsLast(t, props, front, v);
      PropagationAfter(t, props, NewVfs(t, props, front, v), last);
      LastMore(ps, AskPropagation(t, props));
      AnyMore(ps, AskRecursion(t, props));
    }
  }

  lemma {:induction false} PropFlagsExactlyWhen(t: Table, props: Table, ps: seq<string>, v: Vfs, bit: nat)
    ensures bit in NewVfs(t, props, ps, v).propFlags <==> bit in v.propFlags || AnyOf(ps, AskPropFlag(t, props, bit))
  {
    if ps != [] {
      var front, last := ps[..|ps| - 1], ps[|ps| - 1];
      PropFlagsExactlyWhen(t, props, front, v, bit);
      PropFlagsAfter(t, props, NewVfs(t, props, front, v), last, bit);
      AnyMore(ps, AskPropFlag(t, props, bit));
    }
  }

  // ---- the data --------------------------------------------------------------------

  /** No name of either table begins the option. */
  function Unknown(t: Table, props: Table): Options {
    opt => Match(t, opt).None? && Match(props, opt).None?
  }

  /** The option has a value, or is no name of the table. */
  function LegacyUnknown(t: Table): Options {
    opt => ExactMatch(t, opt).None?
  }

  /** The options of a kind, in order. */
  function Kept(ps: seq<string>, q: Options): seq<string> {
    if ps == [] then []
    else Kept(ps[..|ps| - 1], q) + if q(ps[|ps| - 1]) then [ps[|ps| - 1]] else []
  }

  lemma {:induction false} KeptAre(ps: seq<string>, q: Options, p: string)
    ensures p in Kept(ps, q) <==> p in ps && q(p)
  {
    if ps != [] {
      KeptAre(ps[..|ps| - 1], q, p);
      assert ps == ps[..|ps| - 1] + [ps[|ps| - 1]];
    }
  }

  lemma {:induction false} KeptInOrder(ps: seq<string>, more: seq<string>, q: Options)
    ensures Kept(ps + more, q) == Kept(ps, q) + Kept(more, q)
  {
    if more == [] {
      assert ps + more == ps;
    } else {
      KeptInOrder(ps, more[..|more| - 1], q);
      assert (ps + more)[..|ps + more| - 1] == ps + more[..|more| - 1];
    }
  }

  lemma UnknownIsData(t: Table, props: Table, opt: string)
    ensures NewData(t, props, opt) <==> Unknown(t, props)(opt)
    ensures LegacyData(t, opt) <==> LegacyUnknown(t)(opt)
  {
  }

  /** The data of the new parser: exactly the options that no name begins, in order. */
  lemma {:induction false} DataAreTheUnknown(t: Table, props: Table, ps: seq<string>)
    ensures NewParts(t, props, ps) == Kept(ps, Unknown(t, props))
  {
    if ps != [] {
      DataAreTheUnknown(t, props, ps[..|ps| - 1]);
      UnknownIsData(t, props, ps[|ps| - 1]);
    }
  }

  /** And of the legacy one: those with a value and those that are no name. */
  lemma {:induction false} LegacyDataAreTheUnknown(t: Table, ps: seq<string>)
    ensures LegacyParts(t, ps) == Kept(ps, LegacyUnknown(t))
  {
    if ps != [] {
      LegacyDataAreTheUnknown(t, ps[..|ps| - 1]);
      UnknownIsData(t, [], ps[|ps| - 1]);
    }
  }

  // ---- the tables of the program ---------------------------------------------------

  lemma OneBeginsOther(s: string, u: string, opt: string)
    requires s <= opt && u <= opt
    ensures s <= u || u <= s
  {
  }

  /** Where no name begins another, an option matches the entry whose name begins it. */
  lemma MatchIsEntry(t: Table, opt: string, i: nat)
    requires WellFormed(t) && i < |t|
    ensures Match(t, opt) == Some(t[i]) <==> t[i].name <= opt
    ensures ExactMatch(t, opt) == Some(t[i]) <==> t[i].name == opt
  {
    if t[i].name <= opt {
      OneBeginsOther(t[FindPrefix(t, opt, 0)].name, t[i].name, opt);
    }
    if t[i].name == opt {
      assert FindExact(t, opt, 0) == i;
    }
  }

  /** Entry i sets and entry j clears an attribute and a flag that no other entry has. */
  predicate Opposites(t: Table, i: nat, j: nat, attr: nat, flag: nat) {
    && i < |t| && j < |t| && !t[i].clear && t[j].clear
    && !t[i].ignored && !t[j].ignored && !Binds(t[i]) && !Binds(t[j])
    && (forall x | 0 <= x < |t| :: attr in t[x].flag <==> x == i || x == j)
    && (forall x | 0 <= x < |t| :: flag in t[x].legacyFlag <==> x == i || x == j)
  }

  function Begin(name: string): Options {
    opt => name <= opt
  }

  function BeginEither(name: string, other: string): Options {
    opt => name <= opt || other <= opt
  }

  function IsEither(name: string, other: string): Options {
    opt => opt == name || opt == other
  }

  lemma OppositesOne(t: Table, i: nat, j: nat, attr: nat, flag: nat, opt: string)
    requires WellFormed(t) && Opposites(t, i, j, attr, flag)
    ensures SetAttr(t, attr)(opt) <==> t[i].name <= opt
    ensures ClearAttr(t, attr)(opt) <==> t[j].name <= opt
    ensures Decide(t, flag)(opt) <==> t[i].name <= opt || t[j].name <= opt
    ensures DecideFor(t, flag)(opt) <==> t[i].name <= opt
    ensures LegacyDecide(t, flag)(opt) <==> opt == t[i].name || opt == t[j].name
    ensures LegacyDecideFor(t, flag)(opt) <==> opt == t[i].name
  {
    MatchIsEntry(t, opt, i);
    MatchIsEntry(t, opt, j);
  }

  lemma AnyAlike(ps: seq<string>, q: Options, r: Options)
    requires forall p <- ps :: q(p) == r(p)
    ensures AnyOf(ps, q) == AnyOf(ps, r)
  {
  }

  lemma {:induction false} LastAlike(ps: seq<string>, q: Options, r: Options)
    requires forall p <- ps :: q(p) == r(p)
    ensures LastOf(ps, q) == LastOf(ps, r)
  {
    if ps != [] {
      LastMore(ps, q);
      LastMore(ps, r);
      assert q(ps[|ps| - 1]) == r(ps[|ps| - 1]);
      LastAlike(ps[..|ps| - 1], q, r);
    }
  }

  /** The attributes of a pair: set by options that begin with one name, cleared by those with the other. */
  lemma OppositesAttrs(t: Table, props: Table, ps: seq<string>, v: Vfs, i: nat, j: nat, attr: nat, flag: nat)
    requires WellFormed(t) && Opposites(t, i, j, attr, flag)
    ensures var w := NewVfs(t, props, ps, v);
      && (attr in w.attrSet <==> attr in v.attrSet || AnyOf(ps, Begin(t[i].name)))
      && (attr in w.attrClr <==> attr in v.attrClr || AnyOf(ps, Begin(t[j].name)))
  {
    AttrsExactlyWhen(t, props, ps, v, attr);
    forall p <- ps
      ensures SetAttr(t, attr)(p) == Begin(t[i].name)(p) && ClearAttr(t, attr)(p) == Begin(t[j].name)(p)
    {
      OppositesOne(t, i, j, attr, flag, p);
    }
    AnyAlike(ps, SetAttr(t, attr), Begin(t[i].name));
    AnyAlike(ps, ClearAttr(t, attr), Begin(t[j].name));
  }

  /** The flag of a pair: as the last of them says, to both parsers. */
  lemma OppositesFlag(t: Table, props: Table, ps: seq<string>, v: Vfs, i: nat, j: nat, attr: nat, flag: nat)
    requires WellFormed(t) && Opposites(t, i, j, attr, flag)
    ensures var k := LastOf(ps, BeginEither(t[i].name, t[j].name));
      flag in NewVfs(t, props, ps, v).mntFlags <==> if k < 0 then flag in v.mntFlags else t[i].name <= ps[k]
    ensures var k := LastOf(ps, IsEither(t[i].name, t[j].name));
      flag in LegacyFlags(t, ps, v.mntFlags) <==> if k < 0 then flag in v.mntFlags else ps[k] == t[i].name
  {
    MntFlagsExactlyWhen(t, props, ps, v, flag);
    LegacyFlagsExactlyWhen(t, ps, v.mntFlags, flag);
    forall p <- ps
      ensures Decide(t, flag)(p) == BeginEither(t[i].name, t[j].name)(p)
      ensures LegacyDecide(t, flag)(p) == IsEither(t[i].name, t[j].name)(p)
    {
      OppositesOne(t, i, j, attr, flag, p);
    }
    LastAlike(ps, Decide(t, flag), BeginEither(t[i].name, t[j].name));
    LastAlike(ps, LegacyDecide(t, flag), IsEither(t[i].name, t[j].name));
    var k, l := LastOf(ps, Decide(t, flag)), LastOf(ps, LegacyDecide(t, flag));
    if k >= 0 { OppositesOne(t, i, j, attr, flag, ps[k]); }
    if l >= 0 { OppositesOne(t, i, j, attr, flag, ps[l]); }
  }

  lemma IgnoredEntry(t: Table, props: Table, v: Vfs, opt: string, i: nat)
    requires WellFormed(t) && i < |t| && t[i].ignored && t[i].name <= opt
    ensures NewStep(t, props, v, opt) == v && !NewData(t, props, opt)
  {
    MatchIsEntry(t, opt, i);
    assert t[i] in t;
  }
}
