/**
 * The tree of allowed paths below one block, and what the generator is meant to
 * deny given that tree.
 */
module AaTrie {
  import opened AaGlob

  datatype Node = Node(path: string, children: seq<Node>)

  // ---- names ----------------------------------------------------------------

  predicate IsStar(name: string) { name != "" && name[|name| - 1] == '*' }

  /** The literal part of a name: `shm` for `shm*`, nothing for `**`. */
  function Stem(name: string): string {
    if name == "**" then "" else if IsStar(name) then name[..|name| - 1] else name
  }

  predicate PlainName(s: string) { PlainText(s) && '/' !in s }

  predicate GoodName(name: string) {
    name != "" && (name == "**" || PlainName(Stem(name)))
  }

  /** A component of a path: never empty, never with a slash. */
  predicate Component(w: string) { w != "" && '/' !in w }

  predicate PathBelow(q: seq<string>) { forall w <- q :: Component(w) }

  /** The text of a path below a directory. */
  function Suffix(q: seq<string>): (s: string)
    ensures AtComponentEnd(s) && (s == "" <==> q == [])
  {
    if q == [] then "" else "/" + q[0] + Suffix(q[1..])
  }

  /**
   * Names are plain up to a final star, starred names are leaves, and no name or
   * stem starts another one next to it.
   */
  predicate WellShaped(ns: seq<Node>) {
    && (forall i | 0 <= i < |ns| ::
          GoodName(ns[i].path) && (IsStar(ns[i].path) ==> ns[i].children == [])
          && WellShaped(ns[i].children))
    && (forall i, j | 0 <= i < |ns| && 0 <= j < |ns| && i != j ::
          !(Stem(ns[i].path) <= Stem(ns[j].path)))
  }

  // ---- the tree as a set of paths ---------------------------------------------

  /** child_get(): the first child of that name, or |ns|. */
  function Find(ns: seq<Node>, name: string): (i: nat)
    ensures i <= |ns| && (i < |ns| ==> ns[i].path == name)
    ensures forall j | 0 <= j < i :: ns[j].path != name
  {
    if ns == [] || ns[0].path == name then 0 else 1 + Find(ns[1..], name)
  }

  /** Descends along a path, adding the nodes that are missing. */
  function Insert(ns: seq<Node>, a: seq<string>): (r: seq<Node>)
    decreases |a|
  {
    if a == [] then ns
    else
      var i := Find(ns, a[0]);
      if i < |ns| then ns[i := Node(a[0], Insert(ns[i].children, a[1..]))]
      else ns + [Node(a[0], Insert([], a[1..]))]
  }

  function Build(lines: seq<seq<string>>): seq<Node> {
    if lines == [] then []
    else Insert(Build(lines[..|lines| - 1]), lines[|lines| - 1])
  }

  /** The allow lines that continue below the given first component. */
  function Below(lines: seq<seq<string>>, name: string): (r: seq<seq<string>>) {
    if lines == [] then []
    else
      var r := Below(lines[..|lines| - 1], name);
      var a := lines[|lines| - 1];
      if a != [] && a[0] == name then r + [a[1..]] else r
  }

  /** Inserting touches only the subtree of the first component. */
  lemma InsertAt(ns: seq<Node>, a: seq<string>, name: string)
    requires a != []
    ensures var r := Insert(ns, a); var i := Find(ns, name); var j := Find(r, name);
      var was := if i < |ns| then ns[i].children else [];
      && (j < |r| <==> i < |ns| || name == a[0])
      && (j < |r| ==> r[j].children == if name == a[0] then Insert(was, a[1..]) else was)
  {
    var r := Insert(ns, a);
    var k := Find(ns, a[0]);
    assert forall n | 0 <= n < |ns| :: r[n].path == ns[n].path;
    var i, j := Find(ns, name), Find(r, name);
    if i == |ns| && name == a[0] {
      assert r[|ns|].path == name;
    }
    if i < |ns| {
      assert r[i].path == name;
      assert j == i;
    } else if j < |r| {
      assert j == |ns|;
    }
  }

  /** The tree below a name is the tree of the lines that continue below it. */
  lemma {:induction false} BuildBelow(lines: seq<seq<string>>, name: string)
    ensures var r := Build(lines); var j := Find(r, name);
      && (j < |r| <==> exists a <- lines :: a != [] && a[0] == name)
      && (if j < |r| then r[j].children == Build(Below(lines, name)) else Below(lines, name) == [])
  {
    if lines != [] {
      var n := |lines| - 1;
      var before, a := lines[..n], lines[n];
      BuildBelow(before, name);
      assert forall x :: x in lines <==> x in before || x == a;
      if a != [] {
        InsertAt(Build(before), a, name);
        if a[0] == name {
          var rest := Below(before, name);
          assert (rest + [a[1..]])[..|rest|] == rest;
        }
      }
    }
  }

  ghost predicate Has(ns: seq<Node>, q: seq<string>)
    decreases |q|
  {
    q != [] ==> var i := Find(ns, q[0]); i < |ns| && Has(ns[i].children, q[1..])
  }

  /** The tree holds exactly the allowed paths and what leads to them. */
  lemma {:induction false} BuildHasThePrefixes(lines: seq<seq<string>>, q: seq<string>)
    ensures Has(Build(lines), q) <==> q == [] || exists a <- lines :: q <= a
    decreases |q|
  {
    if q != [] {
      BuildBelow(lines, q[0]);
      var under := Below(lines, q[0]);
      BuildHasThePrefixes(under, q[1..]);
      if b :| b in under && q[1..] <= b {
        LongerPrefix(q, b);
        BelowMember(lines, q[0], b);
      }
      if a :| a in lines && q <= a {
        ShorterTail(q, a);
        BelowMember(lines, q[0], a[1..]);
      }
      if a :| a in lines && a != [] && a[0] == q[0] {
        assert q[1..] == [] ==> q == [a[0]] && q <= a;
      }
    }
  }

  lemma LongerPrefix(q: seq<string>, b: seq<string>)
    requires q != [] && q[1..] <= b
    ensures q <= [q[0]] + b
  {
    assert q == [q[0]] + q[1..];
  }

  lemma ShorterTail(q: seq<string>, a: seq<string>)
    requires q != [] && q <= a
    ensures a == [q[0]] + a[1..] && q[1..] <= a[1..]
  {
  }

  lemma {:induction false} BelowMember(lines: seq<seq<string>>, name: string, b: seq<string>)
    ensures b in Below(lines, name) <==> [name] + b in lines
  {
    if lines != [] {
      var n := |lines| - 1;
      var before, a := lines[..n], lines[n];
      BelowMember(before, name, b);
      assert forall x :: x in lines <==> x in before || x == a;
      assert a != [] && a[0] == name ==> a == [name] + a[1..];
      assert ([name] + b)[1..] == b;
    }
  }

  // ---- what is to be denied -----------------------------------------------------

  /** The first child with exactly this plain name, or |ns|. */
  function FindPlain(ns: seq<Node>, w: string): (i: nat)
    ensures i <= |ns| && (i < |ns| ==> ns[i].path == w && !IsStar(w))
    ensures i == |ns| ==> forall j | 0 <= j < |ns| :: ns[j].path != w || IsStar(w)
  {
    if ns == [] || (ns[0].path == w && !IsStar(w)) then 0 else 1 + FindPlain(ns[1..], w)
  }

  /** The first starred child that matches this component, or |ns|. */
  function FindStar(ns: seq<Node>, w: string): (i: nat)
    ensures i <= |ns| && (i < |ns| ==> IsStar(ns[i].path) && Stem(ns[i].path) <= w)
    ensures i == |ns| ==> forall j | 0 <= j < |ns| :: !(IsStar(ns[j].path) && Stem(ns[j].path) <= w)
  {
    if ns == [] || (IsStar(ns[0].path) && Stem(ns[0].path) <= w) then 0 else 1 + FindStar(ns[1..], w)
  }

  predicate ProperPrefix(a: string, b: string) { a <= b && a != b }

  /**
   * A path is denied at its first component outside the tree, unless that
   * component merely starts a name there; below a name like `shm*` everything is
   * denied.  Nothing is denied at a node of the tree or below one of its leaves.
   */
  predicate Denied(ns: seq<Node>, q: seq<string>)
    decreases |q|
  {
    if q == [] || ns == [] then false
    else
      var i := FindPlain(ns, q[0]);
      if i < |ns| then Denied(ns[i].children, q[1..])
      else
        var j := FindStar(ns, q[0]);
        if j < |ns| then ns[j].path != "**" && |q| > 1
        else forall c <- ns :: !ProperPrefix(q[0], Stem(c.path))
  }
}
