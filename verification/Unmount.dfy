/**
 * The unmount-namespace hook: reads the mount table into a growing array, sorts it in
 * descending order and unmounts in that order.
 */
module Unmount {
  import opened Powers

  /** A mount, of which only the place is ever used. */
  datatype Mount = Mount(dst: string)

  // ---- the order ----

  /** strcmp(): negative, zero or positive. */
  function Strcmp(a: string, b: string): int {
    if a == "" && b == "" then 0
    else if a == "" then -1
    else if b == "" then 1
    else if a[0] != b[0] then a[0] as int - b[0] as int
    else Strcmp(a[1..], b[1..])
  }

  /** An order: zero for equal strings only, and of opposite sign the other way round. */
  lemma {:induction false} StrcmpIsAnOrder(a: string, b: string)
    ensures Strcmp(a, b) == 0 <==> a == b
    ensures Strcmp(a, b) < 0 <==> Strcmp(b, a) > 0
  {
    if a != "" && b != "" && a[0] == b[0] {
      StrcmpIsAnOrder(a[1..], b[1..]);
      assert a == [a[0]] + a[1..] && b == [b[0]] + b[1..];
    }
  }

  /** The comparison handed to qsort(), with its operands swapped. */
  function CompareDst(a: Mount, b: Mount): int {
    Strcmp(b.dst, a.dst)
  }

  predicate Sorted(s: seq<Mount>) {
    forall i, j | 0 <= i < j < |s| :: CompareDst(s[i], s[j]) <= 0
  }

  /** q names something strictly below the directory p. */
  predicate Below(q: string, p: string) {
    if p == "/" then |q| > 1 && q[0] == '/' else p + "/" <= q
  }

  lemma {:induction false} ProperPrefixIsSmaller(p: string, q: string)
    requires p < q
    ensures Strcmp(q, p) > 0
  {
    if p != "" {
      ProperPrefixIsSmaller(p[1..], q[1..]);
    }
  }

  lemma BelowIsGreater(q: string, p: string)
    requires Below(q, p)
    ensures Strcmp(q, p) > 0
  {
    if p != "/" {
      assert q[..|p|] == (p + "/")[..|p|] == p;
    }
    ProperPrefixIsSmaller(p, q);
  }

  /** No mount point comes before one of its descendants. */
  lemma DescendantsComeFirst(s: seq<Mount>, i: nat, j: nat)
    requires Sorted(s) && i < |s| && j < |s| && Below(s[j].dst, s[i].dst)
    ensures j < i
  {
    BelowIsGreater(s[j].dst, s[i].dst);
  }

  // ---- reading the table ----

  /**
   * Reads all entries, doubling the array when it is full.  Only so many reallocations
   * succeed, and copy is the number of the first entry that cannot be copied.
   */
  method ReadMounts(table: seq<Mount>, reallocs: nat, copy: nat) returns (mounts: array?<Mount>, count: nat)
    ensures mounts != null ==> count == |table| <= mounts.Length && mounts[..count] == table
    ensures mounts == null <==> copy < |table| || 32 * Pow2(reallocs) < |table|
  {
    var capacity := 32;
    var list := new Mount[capacity](_ => Mount(""));
    count := 0;
    var budget := reallocs;
    while count < |table|
      invariant fresh(list) && capacity >= 32
      invariant count <= |table| && count <= capacity == list.Length && list[..count] == table[..count]
      invariant copy >= count && capacity * Pow2(budget) == 32 * Pow2(reallocs)
    {
      if count == capacity {
        if budget == 0 {
          return null, 0;
        }
        TwiceAsMuch(capacity, budget);
        budget := budget - 1;
        capacity := capacity * 2;
        list := Grow(list, count, capacity);
      }
      if count == copy {
        return null, 0;
      }
      list[count] := table[count];
      count := count + 1;
    }
    AtMostAll(capacity, Pow2(budget));
    mounts := list;
  }

  lemma TwiceAsMuch(capacity: nat, budget: nat)
    requires budget > 0
    ensures capacity * 2 * Pow2(budget - 1) == capacity * Pow2(budget)
  {
  }

  lemma AtMostAll(capacity: nat, power: int)
    requires power > 0
    ensures capacity <= capacity * power
  {
  }

  method Grow(list: array<Mount>, count: nat, capacity: nat) returns (bigger: array<Mount>)
    requires count <= list.Length && count <= capacity
    ensures fresh(bigger) && bigger.Length == capacity && bigger[..count] == list[..count]
  {
    bigger := new Mount[capacity](_ => Mount(""));
    for i := 0 to count
      invariant bigger[..i] == list[..i]
    {
      bigger[i] := list[i];
    }
  }

  // ---- unmounting ----

  /** What is mounted where; mounts may be stacked on one place, and some are in use. */
  class Kernel {
    var mounted: multiset<string>
    const busy: set<string>

    constructor (mounted: multiset<string>, busy: set<string>)
      ensures this.mounted == mounted && this.busy == busy
    {
      this.mounted := mounted;
      this.busy := busy;
    }

    /** umount2() takes the topmost mount off, unless it is in use or something is mounted further down. */
    method Umount(path: string) returns (ret: int)
      modifies `mounted
      ensures ret == if Loose(old(mounted), busy, path) then 0 else -1
      ensures mounted == Without(old(mounted), path, ret == 0)
    {
      if path in mounted && path !in busy && forall q | q in mounted :: !Below(q, path) {
        mounted := mounted - multiset{path};
        return 0;
      }
      ret := -1;
    }
  }

  function Without(mounted: multiset<string>, path: string, off: bool): multiset<string> {
    if off then mounted - multiset{path} else mounted
  }

  predicate Loose(mounted: multiset<string>, busy: set<string>, path: string) {
    path in mounted && path !in busy && forall q | q in mounted :: !Below(q, path)
  }

  function Places(s: seq<Mount>): multiset<string> {
    if s == [] then multiset{} else multiset{s[0].dst} + Places(s[1..])
  }

  lemma {:induction false} PlacesCount(s: seq<Mount>, m: Mount)
    ensures Places(s)[m.dst] == multiset(s)[m]
  {
    if s != [] {
      PlacesCount(s[1..], m);
      assert s == [s[0]] + s[1..];
    }
  }

  lemma PlacesIsIndependentOfOrder(s: seq<Mount>, t: seq<Mount>)
    requires multiset(s) == multiset(t)
    ensures Places(s) == Places(t)
  {
    forall q: string
      ensures Places(s)[q] == Places(t)[q]
    {
      PlacesCount(s, Mount(q));
      PlacesCount(t, Mount(q));
    }
  }

  /** /dev and what is below it may fail quietly. */
  predicate ShouldError(dst: string) {
    !(|dst| >= 4 && dst[..4] == "/dev" && (|dst| == 4 || dst[4] == '/'))
  }

  lemma QuietIsDev(dst: string)
    ensures !ShouldError(dst) <==> dst == "/dev" || Below(dst, "/dev")
  {
    if |dst| >= 5 {
      assert dst[..5] == dst[..4] + [dst[4]];
    }
    assert "/dev" + "/" == "/dev/";
  }

  lemma {:induction false} PlaceOf(s: seq<Mount>, q: string) returns (k: nat)
    requires q in Places(s)
    ensures k < |s| && s[k].dst == q
  {
    k := 0;
    if s[0].dst != q {
      k := PlaceOf(s[1..], q);
      k := k + 1;
    }
  }

  /** What is below something that is below a place is below that place. */
  lemma BelowIsTransitive(b: string, q: string, p: string)
    requires Below(b, q) && Below(q, p)
    ensures Below(b, p)
  {
    if q != "/" {
      assert q <= q + "/" <= b;
    }
    if p != "/" {
      assert p + "/" <= b;
    }
  }

  /** A mount that stays: it is in use, or something below it is. */
  predicate Stays(mounts: seq<Mount>, busy: set<string>, m: Mount) {
    m.dst in busy || exists x <- mounts :: x.dst in busy && Below(x.dst, m.dst)
  }

  /** Those among the first n that stay, in order. */
  function Staying(mounts: seq<Mount>, busy: set<string>, n: nat): seq<Mount>
    requires n <= |mounts|
  {
    if n == 0 then []
    else Staying(mounts, busy, n - 1) + if Stays(mounts, busy, mounts[n - 1]) then [mounts[n - 1]] else []
  }

  lemma {:induction false} StayingAre(mounts: seq<Mount>, busy: set<string>, n: nat, m: Mount)
    requires n <= |mounts|
    ensures m in Staying(mounts, busy, n) <==> m in mounts[..n] && Stays(mounts, busy, m)
  {
    if n > 0 {
      StayingAre(mounts, busy, n - 1, m);
      assert mounts[..n] == mounts[..n - 1] + [mounts[n - 1]];
    }
  }

  lemma PlacesAdd(s: seq<Mount>, t: seq<Mount>)
    ensures Places(s + t) == Places(s) + Places(t)
  {
    forall q: string
      ensures Places(s + t)[q] == Places(s)[q] + Places(t)[q]
    {
      PlacesCount(s, Mount(q));
      PlacesCount(t, Mount(q));
      PlacesCount(s + t, Mount(q));
    }
  }

  /** What is left when it is the turn of mount n: the rest, and those before it that stay. */
  function Left(mounts: seq<Mount>, busy: set<string>, n: nat): multiset<string>
    requires n <= |mounts|
  {
    Places(Staying(mounts, busy, n)) + Places(mounts[n..])
  }

  lemma PlaceIsThere(s: seq<Mount>, k: nat)
    requires k < |s|
    ensures s[k].dst in Places(s)
  {
    PlacesCount(s, s[k]);
    assert s[k] in multiset(s);
  }

  /** What is left below a mount at its turn is itself in use or above something that is. */
  lemma StuckStays(mounts: seq<Mount>, busy: set<string>, n: nat, q: string)
    requires Sorted(mounts) && n < |mounts| && q in Left(mounts, busy, n) && Below(q, mounts[n].dst)
    ensures Stays(mounts, busy, mounts[n])
  {
    if q in Places(mounts[n..]) {
      var k := PlaceOf(mounts[n..], q);
      DescendantsComeFirst(mounts, n, n + k);
      assert false;
    }
    var k := PlaceOf(Staying(mounts, busy, n), q);
    var m := Staying(mounts, busy, n)[k];
    StayingAre(mounts, busy, n, m);
    if q in busy {
      assert m in mounts;
    } else {
      var x :| x in mounts && x.dst in busy && Below(x.dst, q);
      BelowIsTransitive(x.dst, q, mounts[n].dst);
    }
  }

  /** At its turn a mount comes off exactly if it does not stay. */
  lemma LooseExactlyWhen(mounts: seq<Mount>, busy: set<string>, n: nat)
    requires Sorted(mounts) && n < |mounts|
    ensures Loose(Left(mounts, busy, n), busy, mounts[n].dst) <==> !Stays(mounts, busy, mounts[n])
  {
    var m := mounts[n];
    assert mounts[n..][0] == m;
    PlaceIsThere(mounts[n..], 0);
    forall q | q in Left(mounts, busy, n) && Below(q, m.dst)
      ensures Stays(mounts, busy, m)
    {
      StuckStays(mounts, busy, n, q);
    }
    if Stays(mounts, busy, m) && m.dst !in busy {
      var x :| x in mounts && x.dst in busy && Below(x.dst, m.dst);
      var j :| 0 <= j < |mounts| && mounts[j] == x;
      DescendantsComeFirst(mounts, n, j);
      assert mounts[..n][j] == x;
      StayingAre(mounts, busy, n, x);
      var k :| 0 <= k < |Staying(mounts, busy, n)| && Staying(mounts, busy, n)[k] == x;
      PlaceIsThere(Staying(mounts, busy, n), k);
    }
  }

  lemma LeftStep(mounts: seq<Mount>, busy: set<string>, n: nat)
    requires n < |mounts|
    ensures Left(mounts, busy, n + 1) ==
            Without(Left(mounts, busy, n), mounts[n].dst, !Stays(mounts, busy, mounts[n]))
  {
    var m, before, rest := mounts[n], Staying(mounts, busy, n), Places(mounts[n + 1..]);
    assert mounts[n..][0] == m && mounts[n..][1..] == mounts[n + 1..];
    assert Places(mounts[n..]) == multiset{m.dst} + rest;
    if Stays(mounts, busy, m) {
      PlacesAdd(before, [m]);
      assert Places([m]) == multiset{m.dst} by { assert [m][1..] == []; }
      TakenTogether(Places(before), multiset{m.dst}, rest);
    } else {
      assert before + [] == before;
      TakenOut(Places(before), m.dst, rest);
    }
  }

  lemma TakenTogether<T>(a: multiset<T>, b: multiset<T>, c: multiset<T>)
    ensures a + (b + c) == (a + b) + c
  {
  }

  lemma TakenOut<T>(a: multiset<T>, x: T, c: multiset<T>)
    ensures (a + (multiset{x} + c)) - multiset{x} == a + c
  {
  }

  lemma LeftEnds(mounts: seq<Mount>, busy: set<string>)
    ensures Left(mounts, busy, 0) == Places(mounts)
    ensures Left(mounts, busy, |mounts|) == Places(Staying(mounts, busy, |mounts|))
  {
    assert mounts[0..] == mounts && mounts[|mounts|..] == [];
    assert Places([]) == multiset{};
  }

  /** The failures that are printed, in order: those outside of /dev. */
  function Reported(s: seq<Mount>): seq<string> {
    if s == [] then []
    else Reported(s[..|s| - 1]) + if ShouldError(s[|s| - 1].dst) then [s[|s| - 1].dst] else []
  }

  /** The mounts before n have had their turn. */
  ghost predicate Turned(mounted: multiset<string>, reports: seq<string>, mounts: seq<Mount>, busy: set<string>, n: nat)
    requires n <= |mounts|
  {
    mounted == Left(mounts, busy, n) && reports == Reported(Staying(mounts, busy, n))
  }

  method UnmountNext(kernel: Kernel, mounts: seq<Mount>, zi: nat, before: seq<string>) returns (reports: seq<string>)
    requires Sorted(mounts) && zi < |mounts| && Turned(kernel.mounted, before, mounts, kernel.busy, zi)
    modifies kernel
    ensures Turned(kernel.mounted, reports, mounts, kernel.busy, zi + 1)
  {
    LooseExactlyWhen(mounts, kernel.busy, zi);
    LeftStep(mounts, kernel.busy, zi);
    ReportedStep(mounts, kernel.busy, zi);
    reports := before;
    var dst := mounts[zi].dst;
    var ret := kernel.Umount(dst);
    if ret != 0 {
      if ShouldError(dst) {
        reports := reports + [dst];
      }
    }
  }

  /**
   * For every mount table and every set of mounts in use, in whatever order qsort()
   * leaves equal entries: what stays mounted is exactly what is in use and what that is
   * mounted below, and what is reported is exactly that, but for /dev.
   */
  method UnmountAll(kernel: Kernel, table: seq<Mount>, mounts: seq<Mount>) returns (reports: seq<string>)
    requires kernel.mounted == Places(table)
    requires multiset(mounts) == multiset(table) && Sorted(mounts)
    modifies kernel
    ensures kernel.mounted == Places(Staying(mounts, kernel.busy, |mounts|))
    ensures reports == Reported(Staying(mounts, kernel.busy, |mounts|))
  {
    PlacesIsIndependentOfOrder(mounts, table);
    LeftEnds(mounts, kernel.busy);
    reports := [];
    for zi := 0 to |mounts|
      invariant Turned(kernel.mounted, reports, mounts, kernel.busy, zi)
    {
      reports := UnmountNext(kernel, mounts, zi, reports);
    }
  }

  lemma ReportedStep(mounts: seq<Mount>, busy: set<string>, n: nat)
    requires n < |mounts|
    ensures var m, s := mounts[n], Staying(mounts, busy, n);
      Reported(Staying(mounts, busy, n + 1)) ==
        Reported(s) + if Stays(mounts, busy, m) && ShouldError(m.dst) then [m.dst] else []
  {
    var m, s := mounts[n], Staying(mounts, busy, n);
    assert (s + [m])[..|s|] == s && s + [] == s;
  }

  lemma {:induction false} NothingStays(mounts: seq<Mount>, n: nat)
    requires n <= |mounts|
    ensures Staying(mounts, {}, n) == []
  {
    if n > 0 { NothingStays(mounts, n - 1); }
  }

  lemma {:induction false} ReportedAre(s: seq<Mount>, q: string)
    ensures q in Reported(s) <==> Mount(q) in s && ShouldError(q)
  {
    if s != [] {
      ReportedAre(s[..|s| - 1], q);
      assert s == s[..|s| - 1] + [s[|s| - 1]];
    }
  }

  /**
   * What is left and what is reported, told from the table alone; when nothing is in
   * use, nothing stays mounted.
   */
  lemma WhatStays(table: seq<Mount>, mounts: seq<Mount>, busy: set<string>, q: string)
    requires multiset(mounts) == multiset(table)
    ensures var stay := Staying(mounts, busy, |mounts|);
      && (q in Places(stay) <==>
          Mount(q) in table && (q in busy || exists x <- table :: x.dst in busy && Below(x.dst, q)))
      && (q in Reported(stay) <==> q in Places(stay) && q != "/dev" && !Below(q, "/dev"))
      && (busy == {} ==> stay == [])
  {
    var stay := Staying(mounts, busy, |mounts|);
    assert mounts[..|mounts|] == mounts;
    assert forall m :: m in mounts <==> m in multiset(mounts);
    assert forall m :: m in table <==> m in multiset(table);
    StayingAre(mounts, busy, |mounts|, Mount(q));
    PlacesCount(stay, Mount(q));
    assert Mount(q) in stay <==> Mount(q) in multiset(stay);
    ReportedAre(stay, q);
    QuietIsDev(q);
    if busy == {} { NothingStays(mounts, |mounts|); }
  }
}
