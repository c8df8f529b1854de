/**
 * The translation from a tree of allowed paths to deny rules preserves meaning:
 * the emitted text denies exactly what the tree says is to be denied.
 */
module AaMeaning {
  import opened AaGlob
  import opened AaTrie
  import opened AaRules

  lemma {:induction false} WellShapedIsNamed(ns: seq<Node>)
    requires WellShaped(ns)
    ensures Named(ns) && GoodNames(ns)
  {
    forall i | 0 <= i < |ns| ensures Named(ns[i].children) {
      WellShapedIsNamed(ns[i].children);
    }
  }

  // ---- rules stay below their directory ------------------------------------------

  lemma GlobStays(dir: string, text: string, path: string)
    requires PlainText(dir) && Denies([DenyRule(dir + "/" + text)], path)
    ensures dir + "/" <= path
  {
    assert dir + "/" + text == (dir + "/") + text;
    DeniesOne((dir + "/") + text, path);
    LexPlain(dir + "/", text);
    MatchLits(dir + "/", Lex(text), path);
  }

  lemma CharRuleStays(dir: string, ns: seq<Node>, name: string, k: nat, path: string)
    requires PlainText(dir) && k <= |name| && Denies([CharRule(dir, ns, name, k)], path)
    ensures dir + "/" <= path
  {
    var u, x := name[..k], CharsAt(ns, name, k);
    assert dir + "/" + (u + "[^" + x + "]*{,/**}") == dir + "/" + u + "[^" + x + "]*{,/**}";
    GlobStays(dir, u + "[^" + x + "]*{,/**}", path);
  }

  lemma {:induction false} CharRulesStay(dir: string, ns: seq<Node>, name: string, k: nat, path: string)
    requires PlainText(dir) && k <= |name| && Denies(CharRules(dir, ns, name, k), path)
    ensures dir + "/" <= path
    decreases k
  {
    if k > 0 {
      var before := CharRules(dir, ns, name, k - 1);
      if Denies(before, path) {
        CharRulesStay(dir, ns, name, k - 1, path);
      } else {
        DeniesEither(before, if Skipped(name, k - 1) then [] else [CharRule(dir, ns, name, k - 1)], path);
        CharRuleStays(dir, ns, name, k - 1, path);
      }
    }
  }

  lemma TailRulesStay(dir: string, name: string, path: string)
    requires PlainText(dir) && name != "" && Denies(TailRules(dir, name), path)
    ensures dir + "/" <= path
  {
    assert dir + "/" + name + "?*{,/**}" == dir + "/" + (name + "?*{,/**}");
    assert dir + "/" + name + "/**" == dir + "/" + (name + "/**");
    if !IsStar(name) {
      GlobStays(dir, name + "?*{,/**}", path);
    } else {
      GlobStays(dir, name + "/**", path);
    }
  }

  lemma ShorterPrefix(a: string, b: string, path: string)
    requires a + b <= path
    ensures a <= path
  {
    assert path[..|a|] == (a + b)[..|a|] == a;
  }

  lemma {:induction false} NodeRulesStay(dir: string, ns: seq<Node>, c: Node, path: string)
    requires PlainText(dir) && GoodNode(c) && c.path != "" && Named(c.children)
    requires Denies(NodeRules(dir, ns, c), path)
    ensures dir + "/" <= path
    decreases c, 0
  {
    var chars, tail := CharRules(dir, ns, c.path, |c.path|), TailRules(dir, c.path);
    var deeper := if c.children != [] then ListRules(dir + "/" + c.path, c.children, |c.children|) else [];
    DeniesEither(chars + tail, deeper, path);
    DeniesEither(chars, tail, path);
    if Denies(chars, path) {
      CharRulesStay(dir, ns, c.path, |c.path|, path);
    } else if Denies(tail, path) {
      TailRulesStay(dir, c.path, path);
    } else {
      PlainChild(dir, c);
      ListRulesStay(dir + "/" + c.path, c.children, |c.children|, path);
      assert (dir + "/") + (c.path + "/") == dir + "/" + c.path + "/";
      ShorterPrefix(dir + "/", c.path + "/", path);
    }
  }

  /** A name with what is below it, taken by itself. */
  predicate GoodNode(c: Node) {
    GoodName(c.path) && (IsStar(c.path) ==> c.children == []) && WellShaped(c.children)
  }

  /** Only plain names have children, so directory texts stay plain. */
  lemma PlainChild(dir: string, c: Node)
    requires PlainText(dir) && GoodNode(c) && c.children != []
    ensures PlainText(dir + "/" + c.path) && !IsStar(c.path)
  {
    assert Stem(c.path) == c.path && PlainText(c.path);
  }

  lemma WellShapedChild(ns: seq<Node>, i: nat)
    requires WellShaped(ns) && i < |ns|
    ensures GoodNode(ns[i])
  {
  }

  /** Every rule of the list is a rule of one child, */
  lemma {:induction false} RuleOfNode(dir: string, ns: seq<Node>, n: nat, r: string) returns (i: nat)
    requires n <= |ns| && Named(ns) && r in ListRules(dir, ns, n)
    ensures i < n && r in NodeRules(dir, ns, ns[i])
    decreases n
  {
    assert n > 0;
    if r in NodeRules(dir, ns, ns[n - 1]) {
      i := n - 1;
    } else {
      i := RuleOfNode(dir, ns, n - 1, r);
    }
  }

  /** and every rule of a child is in the list. */
  lemma {:induction false} NodeRuleIsListed(dir: string, ns: seq<Node>, n: nat, i: nat, r: string)
    requires i < n <= |ns| && Named(ns) && r in NodeRules(dir, ns, ns[i])
    ensures r in ListRules(dir, ns, n)
    decreases n
  {
    if i < n - 1 { NodeRuleIsListed(dir, ns, n - 1, i, r); }
    InEither(ListRules(dir, ns, n - 1), NodeRules(dir, ns, ns[n - 1]), r);
  }

  lemma InEither(a: seq<string>, b: seq<string>, r: string)
    ensures r in a + b <==> r in a || r in b
  {
  }

  /** A path that is denied is denied by the rules of one child. */
  lemma DenyingNode(dir: string, ns: seq<Node>, n: nat, path: string) returns (i: nat)
    requires n <= |ns| && Named(ns) && Denies(ListRules(dir, ns, n), path)
    ensures i < n && Denies(NodeRules(dir, ns, ns[i]), path)
  {
    var r :| r in ListRules(dir, ns, n) && Blocks(r, path);
    i := RuleOfNode(dir, ns, n, r);
  }

  lemma {:induction false} ListRulesStay(dir: string, ns: seq<Node>, n: nat, path: string)
    requires PlainText(dir) && WellShaped(ns) && n <= |ns| && Named(ns)
    requires Denies(ListRules(dir, ns, n), path)
    ensures dir + "/" <= path
    decreases ns, 1
  {
    var i := DenyingNode(dir, ns, n, path);
    WellShapedChild(ns, i);
    NodeRulesStay(dir, ns, ns[i], path);
  }

  // ---- which rules hit a component -------------------------------------------------

  /** Some rule for this child denies the path w/q. */
  ghost predicate NodeHit(ns: seq<Node>, c: Node, w: string, q: seq<string>)
    requires c.path != ""
  {
    || SomeCharHit(ns, c.path, |c.path|, w)
    || TailHit(c.path, w, q)
    || (w == c.path && !IsStar(w) && Denied(c.children, q))
  }

  ghost predicate SomeNodeHit(ns: seq<Node>, n: nat, w: string, q: seq<string>)
    requires n <= |ns| && Named(ns)
  {
    exists i | 0 <= i < n :: NodeHit(ns, ns[i], w, q)
  }

  /** A child with exactly this name: only the rules below it can apply. */
  lemma NoRuleAtExactName(ns: seq<Node>, e: nat, i: nat, w: string, q: seq<string>)
    requires WellShaped(ns) && Named(ns) && e < |ns| && i < |ns| && ns[e].path == w && !IsStar(w)
    requires LevelLiteral(ns) && Component(w)
    ensures !SomeCharHit(ns, ns[i].path, |ns[i].path|, w) && !TailHit(ns[i].path, w, q)
    ensures ns[i].path == w <==> i == e
  {
    var c := ns[i];
    assert Stem(w) == w && (i != e ==> !(Stem(c.path) <= w));
    forall j | 0 <= j < |Stem(c.path)| ensures !CharHit(ns, c.path, j, w) {
      if c.path[..j] <= w && j < |w| {
        assert LiteralAt(ns, i, j);
        CharsAtComeFrom(ns, c.path, j, w[j]);
        assert ns[e] in ns && w[..j] == c.path[..j];
      }
    }
  }

  lemma Comparable(a: string, b: string, w: string)
    requires a <= w && b <= w
    ensures a <= b || b <= a
  {
    if |a| <= |b| { assert a == w[..|a|] == b[..|a|]; } else { assert b == w[..|b|] == a[..|b|]; }
  }

  /** A matching starred child: only its own rule for what lies below can apply. */
  lemma NoRuleAtStar(ns: seq<Node>, d: nat, i: nat, w: string, q: seq<string>)
    requires WellShaped(ns) && Named(ns) && d < |ns| && i < |ns|
    requires IsStar(ns[d].path) && Stem(ns[d].path) <= w
    requires LevelLiteral(ns) && Component(w)
    ensures !SomeCharHit(ns, ns[i].path, |ns[i].path|, w)
    ensures i != d ==> !TailHit(ns[i].path, w, q)
  {
    var c, s := ns[i], Stem(ns[d].path);
    forall j | 0 <= j < |Stem(c.path)| ensures !CharHit(ns, c.path, j, w) {
      NoCharRuleAtStar(ns, d, i, j, w);
    }
    if Stem(c.path) <= w {
      Comparable(Stem(c.path), s, w);
    }
  }

  lemma NoCharRuleAtStar(ns: seq<Node>, d: nat, i: nat, j: nat, w: string)
    requires WellShaped(ns) && d < |ns| && i < |ns| && j < |Stem(ns[i].path)|
    requires IsStar(ns[d].path) && Stem(ns[d].path) <= w
    requires LevelLiteral(ns) && Component(w)
    ensures !CharHit(ns, ns[i].path, j, w)
  {
    var name, other := ns[i].path, ns[d].path;
    if name[..j] <= w && j < |w| {
      StarGoesOn(ns, d, i, j, w);
      Collected(ns, d, name, j);
      LiteralCovers(ns, i, j, w[j]);
    }
  }

  /** Where a name agrees with a component that a starred one matches, the starred one is longer. */
  lemma StarGoesOn(ns: seq<Node>, d: nat, i: nat, j: nat, w: string)
    requires WellShaped(ns) && d < |ns| && i < |ns| && j < |Stem(ns[i].path)| && j < |w|
    requires Stem(ns[d].path) <= w && ns[i].path[..j] <= w
    ensures j < |ns[d].path| && ns[d].path[..j] == ns[i].path[..j] && ns[d].path[j] == w[j]
  {
    var name, s := ns[i].path, Stem(ns[d].path);
    assert Stem(name) <= name && s <= ns[d].path;
    Comparable(name[..j], s, w);
    assert s <= name[..j] ==> s <= Stem(name);
    assert j < |s| && s[..j] == w[..j] && s[j] == w[j];
  }

  lemma Collected(ns: seq<Node>, d: nat, name: string, j: nat)
    requires d < |ns| && j <= |name| && j < |ns[d].path| && ns[d].path[..j] == name[..j]
    ensures ns[d].path[j] in CharsAt(ns, name, j)
  {
    CharsAtComeFrom(ns, name, j, ns[d].path[j]);
    assert ns[d] in ns;
  }

  lemma LiteralCovers(ns: seq<Node>, i: nat, k: nat, ch: char)
    requires LevelLiteral(ns) && i < |ns| && k < |Stem(ns[i].path)| && ch != '/'
    requires ch in CharsAt(ns, ns[i].path, k)
    ensures InClass(CharsAt(ns, ns[i].path, k), ch)
  {
    assert LiteralAt(ns, i, k);
  }

  /** How far w runs along with the names, and along which one. */
  lemma {:induction false} LongestCommon(ns: seq<Node>, w: string, k: nat, i: nat) returns (m: nat, j: nat)
    requires i < |ns| && k <= |w| && w[..k] <= Stem(ns[i].path)
    ensures m <= |w| && j < |ns| && w[..m] <= Stem(ns[j].path)
    ensures m < |w| ==> forall x | 0 <= x < |ns| :: !(w[..m + 1] <= Stem(ns[x].path))
    decreases |w| - k
  {
    m, j := k, i;
    if k < |w| {
      if x :| 0 <= x < |ns| && w[..k + 1] <= Stem(ns[x].path) {
        m, j := LongestCommon(ns, w, k + 1, x);
      }
    }
  }

  lemma DoesNotContribute(name: string, w: string, k: nat)
    requires k < |w| && !(w[..k + 1] <= Stem(name)) && !(IsStar(name) && Stem(name) <= w)
    requires GoodName(name)
    ensures !(k < |name| && name[..k] == w[..k] && name[k] == w[k])
  {
    assert Stem(name) <= name;
  }

  lemma CharRuleApplies(ns: seq<Node>, i: nat, w: string, k: nat)
    requires GoodNames(ns) && i < |ns| && k < |w| && k < |Stem(ns[i].path)|
    requires w[..k] <= Stem(ns[i].path) && FindStar(ns, w) == |ns|
    requires forall x | 0 <= x < |ns| :: !(w[..k + 1] <= Stem(ns[x].path))
    requires LevelLiteral(ns) && Component(w)
    ensures CharHit(ns, ns[i].path, k, w)
  {
    var name := ns[i].path;
    StemStarts(name, w, k);
    NotCollected(ns, name, w, k);
    LiteralMisses(ns, i, k, w[k]);
  }

  lemma StemStarts(name: string, w: string, k: nat)
    requires k <= |w| && k <= |Stem(name)| && w[..k] <= Stem(name)
    ensures k <= |name| && name[..k] == w[..k]
  {
    assert Stem(name) <= name;
  }

  lemma LiteralMisses(ns: seq<Node>, i: nat, k: nat, ch: char)
    requires LevelLiteral(ns) && i < |ns| && k < |Stem(ns[i].path)| && ch != '/'
    requires ch !in CharsAt(ns, ns[i].path, k)
    ensures !InClass(CharsAt(ns, ns[i].path, k), ch)
  {
    assert LiteralAt(ns, i, k);
  }

  lemma NotCollected(ns: seq<Node>, name: string, w: string, k: nat)
    requires k < |w| && k <= |name| && name[..k] == w[..k] && GoodNames(ns) && FindStar(ns, w) == |ns|
    requires forall x | 0 <= x < |ns| :: !(w[..k + 1] <= Stem(ns[x].path))
    ensures w[k] !in CharsAt(ns, name, k)
  {
    CharsAtComeFrom(ns, name, k, w[k]);
    forall c | c in ns ensures !(k < |c.path| && c.path[..k] == name[..k] && c.path[k] == w[k]) {
      DoesNotContribute(c.path, w, k);
    }
  }

  /** No child matches, and w starts none of them: some rule applies. */
  lemma SomeRuleApplies(ns: seq<Node>, w: string, q: seq<string>)
    requires GoodNames(ns) && Named(ns) && ns != [] && Component(w) && LevelLiteral(ns)
    requires FindPlain(ns, w) == |ns| && FindStar(ns, w) == |ns|
    requires forall c <- ns :: !ProperPrefix(w, Stem(c.path))
    ensures SomeNodeHit(ns, |ns|, w, q)
  {
    var k, i := LongestCommon(ns, w, 0, 0);
    assert ns[i] in ns;
    if k < |Stem(ns[i].path)| {
      EndsInside(w, k, Stem(ns[i].path));
      CharRuleApplies(ns, i, w, k);
      CharHitCounts(ns, i, k, w);
    } else {
      LongerIsHit(ns, i, w, q);
    }
    assert NodeHit(ns, ns[i], w, q);
  }

  /** A component that is not the beginning of a stem leaves it before its own end. */
  lemma EndsInside(w: string, k: nat, stem: string)
    requires k <= |w| && k < |stem| && w[..k] <= stem && !ProperPrefix(w, stem)
    ensures k < |w|
  {
    assert w[..|w|] == w;
  }

  lemma CharHitCounts(ns: seq<Node>, i: nat, k: nat, w: string)
    requires i < |ns| && k < |Stem(ns[i].path)| && CharHit(ns, ns[i].path, k, w)
    ensures SomeCharHit(ns, ns[i].path, |ns[i].path|, w)
  {
  }

  lemma LongerIsHit(ns: seq<Node>, i: nat, w: string, q: seq<string>)
    requires Named(ns) && i < |ns| && Stem(ns[i].path) <= w
    requires FindPlain(ns, w) == |ns| && FindStar(ns, w) == |ns|
    ensures TailHit(ns[i].path, w, q)
  {
    assert !IsStar(ns[i].path) && Stem(ns[i].path) == ns[i].path != w;
  }

  /** The rules of the children deny w/q exactly when the tree says so. */
  lemma HitsAreDenied(ns: seq<Node>, w: string, q: seq<string>)
    requires WellShaped(ns) && Named(ns) && ns != [] && Component(w) && LevelLiteral(ns)
    ensures SomeNodeHit(ns, |ns|, w, q) <==> Denied(ns, [w] + q)
  {
    var e, d := FindPlain(ns, w), FindStar(ns, w);
    assert ([w] + q)[1..] == q;
    if e < |ns| {
      forall i | 0 <= i < |ns| ensures NodeHit(ns, ns[i], w, q) <==> i == e && Denied(ns[e].children, q) {
        NoRuleAtExactName(ns, e, i, w, q);
      }
    } else if d < |ns| {
      forall i | 0 <= i < |ns|
        ensures NodeHit(ns, ns[i], w, q) <==> i == d && ns[d].path != "**" && q != []
      {
        NoRuleAtStar(ns, d, i, w, q);
      }
    } else if c :| c in ns && ProperPrefix(w, Stem(c.path)) {
      forall i | 0 <= i < |ns| ensures !NodeHit(ns, ns[i], w, q) {
        NoRuleAtUnfinishedName(ns, c, i, w, q);
      }
    } else {
      SomeRuleApplies(ns, w, q);
    }
  }

  lemma NoCharRuleAtUnfinishedName(ns: seq<Node>, d: Node, i: nat, w: string)
    requires d in ns && ProperPrefix(w, Stem(d.path)) && i < |ns| && LevelLiteral(ns) && Component(w)
    ensures !SomeCharHit(ns, ns[i].path, |ns[i].path|, w)
  {
    var s, name := Stem(d.path), ns[i].path;
    forall j | 0 <= j < |Stem(name)| ensures !CharHit(ns, name, j, w) {
      if name[..j] <= w && j < |w| {
        assert LiteralAt(ns, i, j);
        CharsAtComeFrom(ns, name, j, w[j]);
        assert s <= d.path && d.path[..j] == s[..j] == w[..j] == name[..j];
      }
    }
  }

  /** A component that merely starts a name escapes all rules. */
  lemma NoRuleAtUnfinishedName(ns: seq<Node>, d: Node, i: nat, w: string, q: seq<string>)
    requires WellShaped(ns) && Named(ns) && d in ns && i < |ns| && ProperPrefix(w, Stem(d.path))
    requires FindPlain(ns, w) == |ns| && FindStar(ns, w) == |ns| && LevelLiteral(ns) && Component(w)
    ensures !NodeHit(ns, ns[i], w, q)
  {
    var name := ns[i].path;
    NoCharRuleAtUnfinishedName(ns, d, i, w);
    var x :| 0 <= x < |ns| && ns[x] == d;
    assert Stem(name) <= w ==> Stem(name) <= Stem(d.path);
  }

  // ---- the theorem --------------------------------------------------------------------

  /** A path below dir/name has w as that component and nothing else. */
  lemma ComponentIsName(dir: string, name: string, w: string, rest: string)
    requires '/' !in w && '/' !in name && AtComponentEnd(rest)
    requires dir + "/" + name + "/" <= dir + "/" + w + rest
    ensures w == name
  {
    var p := dir + "/" + w + rest;
    assert p[|dir| + 1..] == w + rest;
    assert (dir + "/" + name + "/")[|dir| + 1..] == name + "/";
    assert name + "/" <= w + rest;
    assert (w + rest)[|name|] == '/';
    PrefixWithin(name, w, rest);
  }

  /** Some rule for this child denies dir/w/q, whatever the classes mean. */
  ghost predicate NodeDenies(dir: string, ns: seq<Node>, i: nat, w: string, q: seq<string>)
    requires i < |ns| && Named(ns)
  {
    var c := ns[i];
    || SomeCharHit(ns, c.path, |c.path|, w)
    || TailHit(c.path, w, q)
    || (w == c.path && Deeper(dir, c, q))
  }

  /** Some rule of the children of a child denies dir/name/q. */
  ghost predicate Deeper(dir: string, c: Node, q: seq<string>)
    requires Named(c.children)
  {
    var sub := dir + "/" + c.path;
    c.children != [] && Denies(ListRules(sub, c.children, |c.children|), sub + Suffix(q))
  }

  lemma DeeperRules(dir: string, ns: seq<Node>, i: nat, w: string, q: seq<string>)
    requires PlainText(dir) && WellShaped(ns) && Named(ns) && i < |ns| && Component(w) && ns[i].children != []
    ensures var c := ns[i]; var sub := dir + "/" + c.path;
      Denies(ListRules(sub, c.children, |c.children|), dir + "/" + w + Suffix(q)) <==> w == c.path && Deeper(dir, c, q)
  {
    var c := ns[i];
    WellShapedChild(ns, i);
    PlainChild(dir, c);
    var p := dir + "/" + w + Suffix(q);
    if Denies(ListRules(dir + "/" + c.path, c.children, |c.children|), p) {
      ListRulesStay(dir + "/" + c.path, c.children, |c.children|, p);
      ComponentIsName(dir, c.path, w, Suffix(q));
    }
  }

  lemma NodeRulesMean(dir: string, ns: seq<Node>, i: nat, w: string, q: seq<string>)
    requires PlainText(dir) && WellShaped(ns) && Named(ns) && i < |ns| && Component(w)
    ensures Denies(NodeRules(dir, ns, ns[i]), dir + "/" + w + Suffix(q)) <==> NodeDenies(dir, ns, i, w, q)
  {
    var c := ns[i];
    var p := dir + "/" + w + Suffix(q);
    var chars, tail := CharRules(dir, ns, c.path, |c.path|), TailRules(dir, c.path);
    var deeper := if c.children != [] then ListRules(dir + "/" + c.path, c.children, |c.children|) else [];
    DeniesEither(chars + tail, deeper, p);
    DeniesEither(chars, tail, p);
    WellShapedIsNamed(ns);
    CharRulesMatch(dir, ns, c.path, |c.path|, w, Suffix(q));
    TailRulesMatch(dir, c.path, w, q);
    if c.children != [] { DeeperRules(dir, ns, i, w, q); }
  }

  /** A path that is denied is denied because of one child, */
  lemma DenyingChild(dir: string, ns: seq<Node>, w: string, q: seq<string>) returns (i: nat)
    requires PlainText(dir) && WellShaped(ns) && Named(ns) && Component(w)
    requires Denies(ListRules(dir, ns, |ns|), dir + "/" + w + Suffix(q))
    ensures i < |ns| && NodeDenies(dir, ns, i, w, q)
  {
    i := DenyingNode(dir, ns, |ns|, dir + "/" + w + Suffix(q));
    NodeRulesMean(dir, ns, i, w, q);
  }

  /** and what one child denies is denied. */
  lemma ChildDenies(dir: string, ns: seq<Node>, i: nat, w: string, q: seq<string>)
    requires PlainText(dir) && WellShaped(ns) && Named(ns) && Component(w)
    requires i < |ns| && NodeDenies(dir, ns, i, w, q)
    ensures Denies(ListRules(dir, ns, |ns|), dir + "/" + w + Suffix(q))
  {
    var p := dir + "/" + w + Suffix(q);
    NodeRulesMean(dir, ns, i, w, q);
    var r :| r in NodeRules(dir, ns, ns[i]) && Blocks(r, p);
    NodeRuleIsListed(dir, ns, |ns|, i, r);
  }

  lemma NothingAtTheDirectory(dir: string, ns: seq<Node>)
    requires PlainText(dir) && WellShaped(ns) && Named(ns)
    ensures !Denies(ListRules(dir, ns, |ns|), dir + Suffix([]))
  {
    assert dir + Suffix([]) == dir;
    if Denies(ListRules(dir, ns, |ns|), dir) {
      ListRulesStay(dir, ns, |ns|, dir);
      assert false;
    }
  }

  /** The text of a path, its first component apart. */
  lemma FirstComponent(dir: string, q: seq<string>)
    requires q != []
    ensures dir + Suffix(q) == dir + "/" + q[0] + Suffix(q[1..])
  {
  }

  /**
   * For every well-shaped tree whose classes are read literally and every path below
   * its directory, some emitted rule matches the path if and only if the tree says the
   * path is denied.
   */
  lemma {:induction false} ListRulesDeny(dir: string, ns: seq<Node>, q: seq<string>)
    requires PlainText(dir) && WellShaped(ns) && Named(ns) && PathBelow(q) && ReadsLiterally(ns)
    ensures Denies(ListRules(dir, ns, |ns|), dir + Suffix(q)) <==> Denied(ns, q)
    decreases |q|, 0
  {
    if q == [] {
      NothingAtTheDirectory(dir, ns);
    } else if ns != [] {
      var w, rest := q[0], q[1..];
      assert q == [w] + rest && w in q;
      FirstComponent(dir, q);
      if Denies(ListRules(dir, ns, |ns|), dir + "/" + w + Suffix(rest)) {
        var i := DenyingChild(dir, ns, w, rest);
        NodeIsHit(dir, ns, i, w, rest);
      }
      if i :| 0 <= i < |ns| && NodeHit(ns, ns[i], w, rest) {
        NodeIsHit(dir, ns, i, w, rest);
        ChildDenies(dir, ns, i, w, rest);
      }
      HitsAreDenied(ns, w, rest);
    }
  }

  lemma {:induction false} NodeIsHit(dir: string, ns: seq<Node>, i: nat, w: string, q: seq<string>)
    requires PlainText(dir) && WellShaped(ns) && Named(ns) && PathBelow(q) && ReadsLiterally(ns) && i < |ns|
    ensures NodeDenies(dir, ns, i, w, q) <==> NodeHit(ns, ns[i], w, q)
    decreases |q|, 2
  {
    DeeperIsDenied(dir, ns, i, q);
    assert ns[i].children != [] ==> !IsStar(ns[i].path);
  }

  lemma {:induction false} DeeperIsDenied(dir: string, ns: seq<Node>, i: nat, q: seq<string>)
    requires PlainText(dir) && WellShaped(ns) && Named(ns) && PathBelow(q) && ReadsLiterally(ns) && i < |ns|
    ensures Deeper(dir, ns[i], q) <==> Denied(ns[i].children, q)
    decreases |q|, 1
  {
    if ns[i].children != [] {
      WellShapedChild(ns, i);
      PlainChild(dir, ns[i]);
      ListRulesDeny(dir + "/" + ns[i].path, ns[i].children, q);
    }
  }

  // ---- and only then -----------------------------------------------------------------------

  /** The stem of a name of the tree is not denied. */
  lemma StemIsAllowed(ns: seq<Node>, x: nat)
    requires x < |ns|
    ensures !Denied(ns, [Stem(ns[x].path)])
  {
    var w := Stem(ns[x].path);
    assert [w][0] == w && [w][1..] == [];
  }

  /** A character that is listed but not covered: an allowed name is denied. */
  lemma UncoveredNameIsDenied(ns: seq<Node>, i: nat, k: nat, ch: char) returns (w: string)
    requires WellShaped(ns) && i < |ns| && k < |Stem(ns[i].path)|
    requires ch in CharsAt(ns, ns[i].path, k) && !InClass(CharsAt(ns, ns[i].path, k), ch)
    ensures Component(w) && SomeCharHit(ns, ns[i].path, |ns[i].path|, w) && !Denied(ns, [w])
  {
    var name := ns[i].path;
    CharsAtComeFrom(ns, name, k, ch);
    var c :| c in ns && k < |c.path| && c.path[..k] == name[..k] && c.path[k] == ch;
    var x :| 0 <= x < |ns| && ns[x] == c;
    w := Stem(c.path);
    StemReaches(ns, x, i, k);
    StemIsAllowed(ns, x);
    assert CharHit(ns, name, k, w);
  }

  /** Two prefixes of strings that agree up to k: the one within that reach starts the other. */
  lemma PrefixesNest(s: string, p: string, t: string, q: string, k: nat)
    requires s <= p && t <= q && k <= |p| && k <= |t| && p[..k] == q[..k]
    ensures |s| <= k ==> s <= t
  {
    if |s| <= k {
      assert s == p[..k][..|s|] && t[..|s|] == q[..k][..|s|];
    }
  }

  lemma StemReaches(ns: seq<Node>, x: nat, i: nat, k: nat)
    requires WellShaped(ns) && x < |ns| && i < |ns| && k < |Stem(ns[i].path)| && k < |ns[x].path|
    requires ns[x].path[..k] == ns[i].path[..k]
    ensures var s := Stem(ns[x].path);
      k < |s| && Component(s) && s[k] == ns[x].path[k] && ns[i].path[..k] <= s
  {
    var s, t := Stem(ns[x].path), Stem(ns[i].path);
    assert t <= ns[i].path && s <= ns[x].path;
    PrefixesNest(s, ns[x].path, t, ns[i].path, k);
    assert k < |s| ==> s[..k] == ns[x].path[..k];
  }

  predicate Apart(name: string, w: string) { !(w <= name) && !(Stem(name) <= w) }

  /** A component that neither starts nor continues a name of the tree is to be denied. */
  lemma OutsideIsDenied(ns: seq<Node>, w: string)
    requires ns != [] && forall x | 0 <= x < |ns| :: Apart(ns[x].path, w)
    ensures Denied(ns, [w])
  {
    assert [w][0] == w;
    forall c | c in ns ensures !ProperPrefix(w, Stem(c.path)) {
      assert Apart(c.path, w) && Stem(c.path) <= c.path;
    }
    NoChildFound(ns, w);
  }

  lemma {:induction false} NoChildFound(ns: seq<Node>, w: string)
    requires forall x | 0 <= x < |ns| :: Apart(ns[x].path, w)
    ensures FindPlain(ns, w) == |ns| && FindStar(ns, w) == |ns|
  {
    if ns != [] {
      assert Apart(ns[0].path, w);
      NoChildFound(ns[1..], w);
    }
  }

  /** A character that is covered but not listed: a component outside the tree is let through. */
  lemma SwallowedNameIsLetThrough(ns: seq<Node>, i: nat, k: nat, ch: char) returns (w: string)
    requires WellShaped(ns) && Named(ns) && i < |ns| && k < |Stem(ns[i].path)| && ch != '/'
    requires ch !in CharsAt(ns, ns[i].path, k) && InClass(CharsAt(ns, ns[i].path, k), ch)
    requires Covering(ns)
    ensures Component(w) && Denied(ns, [w])
    ensures forall x | 0 <= x < |ns| :: !EndHit(ns, x, w)
  {
    w := ns[i].path[..k] + [ch];
    StemIsComponent(ns[i].path, k);
    forall x | 0 <= x < |ns| ensures Apart(ns[x].path, w) && !TailHit(ns[x].path, w, []) {
      OutsideTheTree(ns, i, k, ch, x);
    }
    OutsideIsDenied(ns, w);
    forall x | 0 <= x < |ns| ensures !SomeCharHit(ns, ns[x].path, |ns[x].path|, w) {
      NoCharHitOnTheWay(ns, i, k, ch, x);
    }
  }

  lemma StemIsComponent(name: string, k: nat)
    requires GoodName(name) && k < |Stem(name)|
    ensures '/' !in name[..k]
  {
    assert Stem(name) <= name && name[..k] == Stem(name)[..k];
  }

  /** Every character listed is covered. */
  ghost predicate Covering(ns: seq<Node>) {
    forall i, k | 0 <= i < |ns| && 0 <= k < |Stem(ns[i].path)| :: CoveringAt(ns, i, k)
  }

  ghost predicate CoveringAt(ns: seq<Node>, i: nat, k: nat)
    requires i < |ns| && k < |Stem(ns[i].path)|
  {
    var x := CharsAt(ns, ns[i].path, k);
    forall ch: char | ch in x :: InClass(x, ch)
  }

  lemma Continues(w: string, p: string, name: string, k: nat)
    requires |w| == k + 1 && k <= |name| && w[..k] == name[..k]
    ensures w <= p ==> k < |p| && p[..k] == name[..k] && p[k] == w[k]
  {
    if w <= p { assert p[..k] == w[..k]; }
  }

  lemma WholePrefix(s: string, w: string)
    requires s <= w
    ensures |s| == |w| ==> s == w
  {
  }

  lemma OutsideTheTree(ns: seq<Node>, i: nat, k: nat, ch: char, x: nat)
    requires WellShaped(ns) && i < |ns| && k < |Stem(ns[i].path)| && x < |ns|
    requires ch !in CharsAt(ns, ns[i].path, k)
    ensures Apart(ns[x].path, ns[i].path[..k] + [ch])
  {
    var name, c := ns[i].path, ns[x];
    var w, s, t := name[..k] + [ch], Stem(c.path), Stem(name);
    CharsAtComeFrom(ns, name, k, ch);
    assert c in ns && s <= c.path && t <= name;
    assert w[..k] == name[..k] && w[k] == ch;
    Continues(w, c.path, name, k);
    if s <= w {
      PrefixesNest(s, w, t, name, k);
      WholePrefix(s, w);
    }
  }

  lemma NoCharHitOnTheWay(ns: seq<Node>, i: nat, k: nat, ch: char, x: nat)
    requires WellShaped(ns) && i < |ns| && k < |Stem(ns[i].path)| && x < |ns| && Covering(ns)
    requires InClass(CharsAt(ns, ns[i].path, k), ch)
    ensures !SomeCharHit(ns, ns[x].path, |ns[x].path|, ns[i].path[..k] + [ch])
  {
    assert Stem(ns[x].path) <= ns[x].path;
    forall j | 0 <= j < |Stem(ns[x].path)| ensures !CharHit(ns, ns[x].path, j, ns[i].path[..k] + [ch]) {
      NoCharHitAt(ns, i, k, ch, x, j);
    }
  }

  lemma NoCharHitAt(ns: seq<Node>, i: nat, k: nat, ch: char, x: nat, j: nat)
    requires i < |ns| && k < |Stem(ns[i].path)| && x < |ns| && Covering(ns) && j < |Stem(ns[x].path)|
    requires InClass(CharsAt(ns, ns[i].path, k), ch)
    ensures !CharHit(ns, ns[x].path, j, ns[i].path[..k] + [ch])
  {
    var name, other := ns[i].path, ns[x].path;
    var w := name[..k] + [ch];
    assert Stem(name) <= name && Stem(other) <= other;
    if other[..j] <= w && j < |w| {
      assert other[..j] == w[..j] == name[..j];
      if j < k {
        assert CoveringAt(ns, x, j);
        CharsAtComeFrom(ns, other, j, w[j]);
        assert ns[i] in ns && name[j] == w[j];
      } else {
        CharsAtAgree(ns, other, name, k);
      }
    }
  }

  /** Some rule for child i denies a path that ends with w. */
  ghost predicate EndHit(ns: seq<Node>, i: nat, w: string)
    requires i < |ns| && Named(ns)
  {
    SomeCharHit(ns, ns[i].path, |ns[i].path|, w) || TailHit(ns[i].path, w, [])
  }

  lemma NothingDeeper(dir: string, ns: seq<Node>, i: nat)
    requires PlainText(dir) && WellShaped(ns) && Named(ns) && i < |ns|
    ensures !Deeper(dir, ns[i], [])
  {
    if ns[i].children != [] {
      WellShapedChild(ns, i);
      PlainChild(dir, ns[i]);
      NothingAtTheDirectory(dir + "/" + ns[i].path, ns[i].children);
    }
  }

  /** Rules of a single component, at the end of a path. */
  lemma RulesAtTheEnd(dir: string, ns: seq<Node>, w: string)
    requires PlainText(dir) && WellShaped(ns) && Named(ns) && Component(w)
    ensures Denies(ListRules(dir, ns, |ns|), dir + Suffix([w])) <==> exists i | 0 <= i < |ns| :: EndHit(ns, i, w)
  {
    FirstComponent(dir, [w]);
    assert [w][1..] == [];
    if Denies(ListRules(dir, ns, |ns|), dir + "/" + w + Suffix([])) {
      var i := DenyingChild(dir, ns, w, []);
      NothingDeeper(dir, ns, i);
      assert EndHit(ns, i, w);
    }
    if i :| 0 <= i < |ns| && EndHit(ns, i, w) {
      ChildDenies(dir, ns, i, w, []);
    }
  }

  lemma MisreadListed(dir: string, ns: seq<Node>, i: nat, k: nat) returns (q: seq<string>)
    requires PlainText(dir) && WellShaped(ns) && Named(ns)
    requires i < |ns| && k < |Stem(ns[i].path)| && !CoveringAt(ns, i, k)
    ensures PathBelow(q) && Denies(ListRules(dir, ns, |ns|), dir + Suffix(q)) && !Denied(ns, q)
  {
    var x := CharsAt(ns, ns[i].path, k);
    var ch: char :| ch in x && !InClass(x, ch);
    var w := UncoveredNameIsDenied(ns, i, k, ch);
    RulesAtTheEnd(dir, ns, w);
    assert EndHit(ns, i, w);
    q := [w];
  }

  lemma MisreadCovered(dir: string, ns: seq<Node>, i: nat, k: nat) returns (q: seq<string>)
    requires PlainText(dir) && WellShaped(ns) && Named(ns) && Covering(ns)
    requires i < |ns| && k < |Stem(ns[i].path)| && !LiteralAt(ns, i, k)
    ensures PathBelow(q) && !Denies(ListRules(dir, ns, |ns|), dir + Suffix(q)) && Denied(ns, q)
  {
    var ch := SwallowedChar(ns, i, k);
    var w := SwallowedNameIsLetThrough(ns, i, k, ch);
    RulesAtTheEnd(dir, ns, w);
    q := [w];
  }

  lemma SwallowedChar(ns: seq<Node>, i: nat, k: nat) returns (ch: char)
    requires Covering(ns) && i < |ns| && k < |Stem(ns[i].path)| && !LiteralAt(ns, i, k)
    ensures var x := CharsAt(ns, ns[i].path, k); ch != '/' && InClass(x, ch) && ch !in x
  {
    var x := CharsAt(ns, ns[i].path, k);
    assert CoveringAt(ns, i, k);
    ch :| ch != '/' && InClass(x, ch) && ch !in x;
  }

  lemma MisreadLevel(dir: string, ns: seq<Node>) returns (q: seq<string>)
    requires PlainText(dir) && WellShaped(ns) && Named(ns) && !LevelLiteral(ns)
    ensures PathBelow(q) && !(Denies(ListRules(dir, ns, |ns|), dir + Suffix(q)) <==> Denied(ns, q))
  {
    if i, k :| 0 <= i < |ns| && 0 <= k < |Stem(ns[i].path)| && !CoveringAt(ns, i, k) {
      q := MisreadListed(dir, ns, i, k);
    } else {
      var i, k :| 0 <= i < |ns| && 0 <= k < |Stem(ns[i].path)| && !LiteralAt(ns, i, k);
      q := MisreadCovered(dir, ns, i, k);
    }
  }

  /** Where some class of the tree is not read literally, some path is judged wrongly. */
  lemma {:induction false} MisreadPath(dir: string, ns: seq<Node>) returns (q: seq<string>)
    requires PlainText(dir) && WellShaped(ns) && Named(ns) && !ReadsLiterally(ns)
    ensures PathBelow(q) && !(Denies(ListRules(dir, ns, |ns|), dir + Suffix(q)) <==> Denied(ns, q))
    decreases ns
  {
    if !LevelLiteral(ns) {
      q := MisreadLevel(dir, ns);
    } else {
      var i :| 0 <= i < |ns| && !ReadsLiterally(ns[i].children);
      WellShapedChild(ns, i);
      PlainChild(dir, ns[i]);
      var rest := MisreadPath(dir + "/" + ns[i].path, ns[i].children);
      q := [ns[i].path] + rest;
      RulesBelowAName(dir, ns, i, rest);
    }
  }

  lemma RulesBelowAName(dir: string, ns: seq<Node>, i: nat, q: seq<string>)
    requires PlainText(dir) && WellShaped(ns) && Named(ns) && i < |ns| && LevelLiteral(ns)
    requires ns[i].children != [] && !IsStar(ns[i].path)
    ensures var path := [ns[i].path] + q;
      && (Denies(ListRules(dir, ns, |ns|), dir + Suffix(path)) <==> Deeper(dir, ns[i], q))
      && (Denied(ns, path) <==> Denied(ns[i].children, q))
  {
    var w := ns[i].path;
    var path := [w] + q;
    assert path[0] == w && path[1..] == q && Component(w) by { assert GoodName(w) && Stem(w) == w; }
    FirstComponent(dir, path);
    if Denies(ListRules(dir, ns, |ns|), dir + "/" + w + Suffix(q)) {
      var x := DenyingChild(dir, ns, w, q);
      NoRuleAtExactName(ns, i, x, w, q);
    }
    if Deeper(dir, ns[i], q) {
      ChildDenies(dir, ns, i, w, q);
    }
    SameName(ns, FindPlain(ns, w), i);
  }

  /**
   * The exact limit of the translation: the emitted rules agree with the tree on every
   * path if and only if no dash in a class among them makes a range that was not meant.
   */
  lemma ListRulesDenyExactlyWhen(dir: string, ns: seq<Node>)
    requires PlainText(dir) && WellShaped(ns) && Named(ns)
    ensures (forall q | PathBelow(q) :: Denies(ListRules(dir, ns, |ns|), dir + Suffix(q)) <==> Denied(ns, q))
            <==> Harmless(ns)
  {
    ReadsLiterallyExactlyWhen(ns);
    if ReadsLiterally(ns) {
      forall q | PathBelow(q)
        ensures Denies(ListRules(dir, ns, |ns|), dir + Suffix(q)) <==> Denied(ns, q)
      {
        ListRulesDeny(dir, ns, q);
      }
    } else {
      var q := MisreadPath(dir, ns);
      assert PathBelow(q);
    }
  }

  // ---- the policy in terms of the allow lines ------------------------------------------

  ghost function Names(ns: seq<Node>): set<string> { set c | c in ns :: c.path }

  ghost function Firsts(lines: seq<seq<string>>): set<string> { set a | a in lines && a != [] :: a[0] }

  /** The same policy read off the allow lines instead of the tree. */
  ghost predicate DeniedBy(lines: seq<seq<string>>, q: seq<string>)
    decreases |q|
  {
    var names := Firsts(lines);
    if q == [] || names == {} then false
    else if q[0] in names && !IsStar(q[0]) then DeniedBy(Below(lines, q[0]), q[1..])
    else if exists n <- names :: IsStar(n) && Stem(n) <= q[0] then "**" !in names && |q| > 1
    else forall n <- names :: !ProperPrefix(q[0], Stem(n))
  }

  lemma InsertNames(ns: seq<Node>, a: seq<string>)
    requires a != []
    ensures Names(Insert(ns, a)) == Names(ns) + {a[0]}
  {
    var r, i := Insert(ns, a), Find(ns, a[0]);
    forall j | 0 <= j < |ns| ensures ns[j].path in Names(r) { assert r[j] in r && r[j].path == ns[j].path; }
    assert r[i] in r && r[i].path == a[0];
    forall j | 0 <= j < |r| ensures r[j].path in Names(ns) + {a[0]} {
      if j < |ns| { assert ns[j] in ns; }
    }
  }

  lemma {:induction false} BuildNames(lines: seq<seq<string>>)
    ensures Names(Build(lines)) == Firsts(lines)
  {
    if lines != [] {
      var n := |lines| - 1;
      BuildNames(lines[..n]);
      FirstsMore(lines[..n], lines[n]);
      assert lines[..n] + [lines[n]] == lines;
      if lines[n] != [] {
        InsertNames(Build(lines[..n]), lines[n]);
      }
    }
  }

  lemma FirstsMore(lines: seq<seq<string>>, a: seq<string>)
    ensures Firsts(lines + [a]) == Firsts(lines) + if a == [] then {} else {a[0]}
  {
    assert forall x :: x in lines + [a] <==> x in lines || x == a;
  }

  lemma SameName(ns: seq<Node>, i: nat, j: nat)
    requires WellShaped(ns) && i < |ns| && j < |ns| && ns[i].path == ns[j].path
    ensures i == j
  {
  }

  lemma NamesDecide(ns: seq<Node>, w: string)
    ensures FindPlain(ns, w) < |ns| <==> w in Names(ns) && !IsStar(w)
    ensures FindStar(ns, w) < |ns| <==> exists n <- Names(ns) :: IsStar(n) && Stem(n) <= w
    ensures ns == [] <==> Names(ns) == {}
  {
    assert forall i | 0 <= i < |ns| :: ns[i] in ns && ns[i].path in Names(ns);
  }

  lemma DoubleStarIsAlone(ns: seq<Node>, i: nat)
    requires WellShaped(ns) && i < |ns| && "**" in Names(ns)
    ensures ns[i].path == "**"
  {
    var j :| 0 <= j < |ns| && ns[j].path == "**";
    assert Stem(ns[j].path) == "" <= Stem(ns[i].path);
  }

  /** The tree denies what the allow lines say is to be denied. */
  lemma {:induction false} TreeAgreesWithLines(lines: seq<seq<string>>, q: seq<string>)
    requires WellShaped(Build(lines))
    ensures Denied(Build(lines), q) <==> DeniedBy(lines, q)
    decreases |q|
  {
    var r := Build(lines);
    BuildNames(lines);
    if q != [] && r != [] {
      var w := q[0];
      NamesDecide(r, w);
      var e, d := FindPlain(r, w), FindStar(r, w);
      if e < |r| {
        BuildBelow(lines, w);
        SameName(r, e, Find(r, w));
        WellShapedChild(r, e);
        TreeAgreesWithLines(Below(lines, w), q[1..]);
      } else if d < |r| {
        assert r[d] in r && r[d].path in Names(r);
        if "**" in Names(r) { DoubleStarIsAlone(r, d); }
      } else {
        assert forall c <- r :: c.path in Names(r);
      }
    }
  }
}
