/**
 * The two parsers of mount option strings: parse_mntopts_legacy(), which looks for
 * exact names, and parse_mount_attrs(), which looks for names that begin an option.
 * Both collect the options they do not know in a buffer the size of the string.
 */
module MountOptions {
  import opened Libc

  /** An entry of a table; ignored stands for the flag ~0. */
  datatype MountOpt = MountOpt(name: string, clear: bool, ignored: bool, flag: Flags, legacyFlag: Flags)

  type Table = seq<MountOpt>

  /** A flag word, as the set of the numbers of its bits. */
  type Flags = set<nat>

  /** The fields of struct lxc_mount_options that the parser sets, apart from the data. */
  datatype Vfs = Vfs(bindRecursively: bool, bind: bool, propagateRecursively: bool,
                     attrSet: Flags, attrClr: Flags, propagation: Flags, mntFlags: Flags, propFlags: Flags)

  // ---- the parts of a string ----

  /** Where the first comma is, or the length of the string. */
  function PartLen(s: string): (n: nat)
    ensures n <= |s| && ',' !in s[..n] && (n < |s| ==> s[n] == ',')
  {
    if s == "" || s[0] == ',' then 0
    else
      assert s[..1 + PartLen(s[1..])] == [s[0]] + s[1..][..PartLen(s[1..])];
      1 + PartLen(s[1..])
  }

  predicate Proper(ps: seq<string>) {
    forall i | 0 <= i < |ps| :: ps[i] != "" && ',' !in ps[i]
  }

  /** The parts between commas, without the empty ones, as strtok_r() yields them. */
  function Parts(s: string): (ps: seq<string>)
    ensures Proper(ps)
    decreases |s|
  {
    if s == "" then []
    else if s[0] == ',' then Parts(s[1..])
    else [s[..PartLen(s)]] + Parts(s[PartLen(s)..])
  }

  lemma {:induction false} PartLenOf(w: string, rest: string)
    requires ',' !in w && (rest == "" || rest[0] == ',')
    ensures PartLen(w + rest) == |w|
  {
    if w == "" {
      assert w + rest == rest;
    } else {
      PartLenOf(w[1..], rest);
      assert (w + rest)[1..] == w[1..] + rest;
    }
  }

  /** A part at the front of a string. */
  lemma FirstPart(w: string, s: string)
    requires w != "" && ',' !in w
    ensures Parts(w) == [w] && Parts(w + ("," + s)) == [w] + Parts(s)
  {
    PartLenOf(w, "");
    assert w + "" == w && w[..|w|] == w && w[|w|..] == "";
    var rest := "," + s;
    PartLenOf(w, rest);
    assert (w + rest)[..|w|] == w && (w + rest)[|w|..] == rest && rest[1..] == s;
  }

  // ---- looking an option up ----

  /** The first entry from i on with exactly this name, or the length of the table. */
  function FindExact(t: Table, opt: string, i: nat): (k: nat)
    requires i <= |t|
    ensures i <= k <= |t| && (k < |t| ==> t[k].name == opt) && forall j | i <= j < k :: t[j].name != opt
    decreases |t| - i
  {
    if i == |t| || t[i].name == opt then i else FindExact(t, opt, i + 1)
  }

  /** The first entry from i on whose name begins the option, or the length of the table. */
  function FindPrefix(t: Table, opt: string, i: nat): (k: nat)
    requires i <= |t|
    ensures i <= k <= |t| && (k < |t| ==> t[k].name <= opt) && forall j | i <= j < k :: !(t[j].name <= opt)
    decreases |t| - i
  {
    if i == |t| || t[i].name <= opt then i else FindPrefix(t, opt, i + 1)
  }

  function Change(flags: Flags, e: MountOpt): Flags {
    if e.clear then flags - e.legacyFlag else flags + e.legacyFlag
  }

  /** The legacy parser sends every option with '=' and every unknown one to the data. */
  predicate LegacyData(t: Table, opt: string) {
    '=' in opt || FindExact(t, opt, 0) == |t|
  }

  function LegacyStep(t: Table, flags: Flags, opt: string): Flags {
    if LegacyData(t, opt) then flags else Change(flags, t[FindExact(t, opt, 0)])
  }

  predicate NewData(t: Table, props: Table, opt: string) {
    FindPrefix(t, opt, 0) == |t| && FindPrefix(props, opt, 0) == |props|
  }

  predicate IsRecursivePropagation(name: string) {
    name == "rslave" || name == "rshared" || name == "runbindable" || name == "rprivate"
  }

  /** What a matching entry of the table does. */
  function Enter(v: Vfs, e: MountOpt): Vfs {
    if e.name == "rbind" then
      v.(bindRecursively := true, bind := true, mntFlags := v.mntFlags + e.legacyFlag)
    else if e.name == "bind" then
      v.(bind := true, mntFlags := v.mntFlags + e.legacyFlag)
    else if e.ignored then
      v
    else if e.clear then
      v.(attrClr := v.attrClr + e.flag, mntFlags := v.mntFlags - e.legacyFlag)
    else
      v.(attrSet := v.attrSet + e.flag, mntFlags := v.mntFlags + e.legacyFlag)
  }

  /** What a matching entry of the propagation table does. */
  function Propagate(v: Vfs, e: MountOpt): Vfs {
    v.(propagateRecursively := v.propagateRecursively || IsRecursivePropagation(e.name),
       propagation := e.flag, propFlags := v.propFlags + e.legacyFlag)
  }

  function NewStep(t: Table, props: Table, v: Vfs, opt: string): Vfs {
    var k, p := FindPrefix(t, opt, 0), FindPrefix(props, opt, 0);
    if k < |t| then Enter(v, t[k]) else if p < |props| then Propagate(v, props[p]) else v
  }

  // ---- whole strings ----

  function LegacyFlags(t: Table, ps: seq<string>, flags: Flags): Flags {
    if ps == [] then flags else LegacyStep(t, LegacyFlags(t, ps[..|ps| - 1], flags), ps[|ps| - 1])
  }

  function LegacyParts(t: Table, ps: seq<string>): seq<string> {
    if ps == [] then []
    else LegacyParts(t, ps[..|ps| - 1]) + (if LegacyData(t, ps[|ps| - 1]) then [ps[|ps| - 1]] else [])
  }

  function NewVfs(t: Table, props: Table, ps: seq<string>, v: Vfs): Vfs {
    if ps == [] then v else NewStep(t, props, NewVfs(t, props, ps[..|ps| - 1], v), ps[|ps| - 1])
  }

  function NewParts(t: Table, props: Table, ps: seq<string>): seq<string> {
    if ps == [] then []
    else NewParts(t, props, ps[..|ps| - 1]) + (if NewData(t, props, ps[|ps| - 1]) then [ps[|ps| - 1]] else [])
  }

  // ---- where the parsers agree ----

  /** No name begins another, names are plain, and the entries that the new parser ignores mean something. */
  predicate WellFormed(t: Table) {
    && (forall i, j | 0 <= i < |t| && 0 <= j < |t| && i != j :: !(t[i].name <= t[j].name))
    && (forall e | e in t :: '=' !in e.name && (e.ignored ==> e.legacyFlag != {}))
    && (forall e | e in t && (e.name == "rbind" || e.name == "bind") :: !e.clear && !e.ignored)
  }

  /** An exact name that the new parser does not ignore, or an option that no known name begins. */
  predicate Common(t: Table, props: Table, opt: string) {
    || (exists e :: e in t && e.name == opt && !e.ignored)
    || NewData(t, props, opt)
  }

  predicate SameEffect(t: Table, props: Table, v: Vfs, opt: string) {
    && (LegacyData(t, opt) <==> NewData(t, props, opt))
    && LegacyStep(t, v.mntFlags, opt) == NewStep(t, props, v, opt).mntFlags
  }

  lemma ExactIsFound(t: Table, opt: string, e: MountOpt)
    requires WellFormed(t) && e in t && e.name == opt
    ensures !LegacyData(t, opt)
    ensures FindExact(t, opt, 0) == FindPrefix(t, opt, 0) < |t| && t[FindExact(t, opt, 0)] == e
  {
    var i :| 0 <= i < |t| && t[i] == e;
    var k, p := FindExact(t, opt, 0), FindPrefix(t, opt, 0);
    assert k == i && p == i;
  }

  lemma EnterChanges(v: Vfs, e: MountOpt)
    requires !e.ignored && (e.name == "rbind" || e.name == "bind" ==> !e.clear)
    ensures Enter(v, e).mntFlags == Change(v.mntFlags, e)
  {
  }

  lemma ExactHasSameEffect(t: Table, props: Table, v: Vfs, e: MountOpt)
    requires WellFormed(t) && e in t && !e.ignored
    ensures SameEffect(t, props, v, e.name)
  {
    ExactIsFound(t, e.name, e);
    EnterChanges(v, e);
  }

  lemma UnknownHasSameEffect(t: Table, props: Table, v: Vfs, opt: string)
    requires NewData(t, props, opt)
    ensures SameEffect(t, props, v, opt)
  {
    assert forall j | 0 <= j < |t| :: t[j].name != opt;
  }

  lemma CommonHasSameEffect(t: Table, props: Table, v: Vfs, opt: string)
    requires WellFormed(t) && Common(t, props, opt)
    ensures SameEffect(t, props, v, opt)
  {
    if NewData(t, props, opt) {
      UnknownHasSameEffect(t, props, v, opt);
    } else {
      var e :| e in t && e.name == opt && !e.ignored;
      ExactHasSameEffect(t, props, v, e);
    }
  }

  function Start(mntFlags: Flags): Vfs {
    Vfs(false, false, false, {}, {}, {}, mntFlags, {})
  }

  /** Flags from which an ignored option makes a difference to the legacy parser. */
  lemma IgnoredDiffers(t: Table, props: Table, e: MountOpt)
    requires WellFormed(t) && e in t && e.ignored
    ensures !SameEffect(t, props, Start(if e.clear then e.legacyFlag else {}), e.name)
  {
    ExactIsFound(t, e.name, e);
  }

  /** For one option: the parsers do the same from every state exactly for the common options. */
  lemma SameEffectExactlyWhenCommon(t: Table, props: Table, opt: string)
    requires WellFormed(t)
    ensures (forall v :: SameEffect(t, props, v, opt)) <==> Common(t, props, opt)
  {
    if Common(t, props, opt) {
      forall v
        ensures SameEffect(t, props, v, opt)
      {
        CommonHasSameEffect(t, props, v, opt);
      }
    } else if LegacyData(t, opt) {
      assert !SameEffect(t, props, Start({}), opt);
    } else {
      var e := t[FindExact(t, opt, 0)];
      IgnoredDiffers(t, props, e);
      assert !SameEffect(t, props, Start(if e.clear then e.legacyFlag else {}), opt);
    }
  }

  /** Strings of common options only: the same flag word and the same data. */
  lemma {:induction false} CommonStringsAgree(t: Table, props: Table, ps: seq<string>, v: Vfs)
    requires WellFormed(t) && forall p | p in ps :: Common(t, props, p)
    ensures LegacyFlags(t, ps, v.mntFlags) == NewVfs(t, props, ps, v).mntFlags
    ensures LegacyParts(t, ps) == NewParts(t, props, ps)
  {
    if ps != [] {
      var front, last := ps[..|ps| - 1], ps[|ps| - 1];
      CommonStringsAgree(t, props, front, v);
      CommonHasSameEffect(t, props, NewVfs(t, props, front, v), last);
    }
  }

  // ---- the data ----

  lemma {:induction false} NewPartsAreLegacyParts(t: Table, props: Table, ps: seq<string>)
    ensures |NewParts(t, props, ps)| <= |LegacyParts(t, ps)|
    ensures |NewParts(t, props, ps)| == |LegacyParts(t, ps)| ==> NewParts(t, props, ps) == LegacyParts(t, ps)
    ensures |NewParts(t, props, ps)| < |LegacyParts(t, ps)| <==>
            exists p :: p in ps && LegacyData(t, p) && !NewData(t, props, p)
  {
    if ps != [] {
      var front, last := ps[..|ps| - 1], ps[|ps| - 1];
      NewPartsAreLegacyParts(t, props, front);
      assert ps == front + [last];
      if NewData(t, props, last) {
        UnknownHasSameEffect(t, props, Start({}), last);
      }
    }
  }

  function Commas(s: string): nat {
    if s == "" then 0 else Commas(s[..|s| - 1]) + (if s[|s| - 1] == ',' then 1 else 0)
  }

  lemma {:induction false} CommasAdd(s: string, u: string)
    ensures Commas(s + u) == Commas(s) + Commas(u)
  {
    if u == "" {
      assert s + u == s;
    } else {
      CommasAdd(s, u[..|u| - 1]);
      assert (s + u)[..|s + u| - 1] == s + u[..|u| - 1];
    }
  }

  lemma {:induction false} NoCommas(s: string)
    requires ',' !in s
    ensures Commas(s) == 0
  {
    if s != "" {
      NoCommas(s[..|s| - 1]);
    }
  }

  /** The commas of a join tell how many parts it has. */
  lemma {:induction false} JoinCommas(ps: seq<string>)
    requires Proper(ps)
    ensures Commas(Join(ps)) == if ps == [] then 0 else |ps| - 1
    ensures Join(ps) == "" <==> ps == []
  {
    if |ps| == 1 {
      NoCommas(ps[0]);
    } else if ps != [] {
      var front, last := ps[..|ps| - 1], ps[|ps| - 1];
      JoinCommas(front);
      CommasAdd(Join(front) + ",", last);
      CommasAdd(Join(front), ",");
      NoCommas(last);
    }
  }

  lemma {:induction false} PartsStayProper(t: Table, props: Table, ps: seq<string>)
    requires Proper(ps)
    ensures Proper(LegacyParts(t, ps)) && Proper(NewParts(t, props, ps))
  {
    if ps != [] {
      PartsStayProper(t, props, ps[..|ps| - 1]);
    }
  }

  /**
   * The data agree exactly when no option is left over by one parser only, that is,
   * begins with a known name without being a name of the table.
   */
  lemma DataAgreeExactlyWhen(t: Table, props: Table, ps: seq<string>)
    requires Proper(ps)
    ensures Join(LegacyParts(t, ps)) == Join(NewParts(t, props, ps)) <==>
            forall p | p in ps :: LegacyData(t, p) ==> NewData(t, props, p)
  {
    NewPartsAreLegacyParts(t, props, ps);
    PartsStayProper(t, props, ps);
    JoinCommas(LegacyParts(t, ps));
    JoinCommas(NewParts(t, props, ps));
  }
}
