/** The deny rules the generator emits for a tree, and what they deny. */
module AaRules {
  import opened AaGlob
  import opened AaTrie

  // ---- the rules, as text ------------------------------------------------------

  /** collect_chars(): which characters children put at this position after this prefix. */
  function CharsAt(ns: seq<Node>, ref: string, k: nat): string
    requires k <= |ref|
  {
    if ns == [] then ""
    else
      var r := CharsAt(ns[..|ns| - 1], ref, k);
      var name := ns[|ns| - 1].path;
      if k >= |name| then r
      else if ref[..k] != name[..k] then r
      else if name[k] in r then r
      else r + [name[k]]
  }

  /** The positions gen_denies() passes over: a final star, a final double star. */
  predicate Skipped(name: string, k: nat)
    requires k < |name|
  {
    (k == |name| - 1 && name[k] == '*') || (k == |name| - 2 && name[k..k + 2] == "**")
  }

  function CharRule(dir: string, ns: seq<Node>, name: string, k: nat): string
    requires k <= |name|
  {
    DenyRule(dir + "/" + name[..k] + "[^" + CharsAt(ns, name, k) + "]*{,/**}")
  }

  /** The rules for the first k positions of a name. */
  function CharRules(dir: string, ns: seq<Node>, name: string, k: nat): seq<string>
    requires k <= |name|
  {
    if k == 0 then []
    else CharRules(dir, ns, name, k - 1)
         + if Skipped(name, k - 1) then [] else [CharRule(dir, ns, name, k - 1)]
  }

  function TailRules(dir: string, name: string): seq<string>
    requires name != ""
  {
    if name != "**" && name[|name| - 1] != '*' then [DenyRule(dir + "/" + name + "?*{,/**}")]
    else if name != "**" then [DenyRule(dir + "/" + name + "/**")]
    else []
  }

  /** The script indexes the last character of every name. */
  predicate Named(ns: seq<Node>) {
    forall i | 0 <= i < |ns| :: ns[i].path != "" && Named(ns[i].children)
  }

  /** Inserting a path leaves a tree with names exactly if the path has no empty component. */
  lemma {:induction false} InsertNamed(ns: seq<Node>, a: seq<string>)
    ensures Named(Insert(ns, a)) <==> Named(ns) && "" !in a
    decreases |a|
  {
    if a != [] {
      var i := Find(ns, a[0]);
      var below := if i < |ns| then ns[i].children else [];
      InsertNamed(below, a[1..]);
      NamedAt(ns, Node(a[0], Insert(below, a[1..])), i);
      assert "" in a <==> a[0] == "" || "" in a[1..];
      assert Named([]);
    }
  }

  /** Replacing the child at i, or adding one at the end. */
  lemma NamedAt(ns: seq<Node>, c: Node, i: nat)
    requires i <= |ns|
    ensures var r := if i < |ns| then ns[i := c] else ns + [c];
      Named(r) <==>
        && c.path != "" && Named(c.children)
        && forall j | 0 <= j < |ns| && j != i :: ns[j].path != "" && Named(ns[j].children)
  {
    var r := if i < |ns| then ns[i := c] else ns + [c];
    if Named(r) {
      assert r[i] == c;
      forall j | 0 <= j < |ns| && j != i ensures ns[j].path != "" && Named(ns[j].children) { assert r[j] == ns[j]; }
    }
  }

  function NodeRules(dir: string, ns: seq<Node>, c: Node): seq<string>
    requires c.path != "" && Named(c.children)
    decreases c, 0
  {
    CharRules(dir, ns, c.path, |c.path|) + TailRules(dir, c.path)
    + if c.children != [] then ListRules(dir + "/" + c.path, c.children, |c.children|) else []
  }

  /** The rules for the first n children. */
  function ListRules(dir: string, ns: seq<Node>, n: nat): seq<string>
    requires n <= |ns| && Named(ns)
    decreases ns, n
  {
    if n == 0 then [] else ListRules(dir, ns, n - 1) + NodeRules(dir, ns, ns[n - 1])
  }

  // ---- sets of rules -------------------------------------------------------------

  ghost predicate Denies(rules: seq<string>, path: string) {
    exists r <- rules :: Blocks(r, path)
  }

  lemma DeniesEither(a: seq<string>, b: seq<string>, path: string)
    ensures Denies(a + b, path) <==> Denies(a, path) || Denies(b, path)
  {
    if r :| r in a + b && Blocks(r, path) {
      assert r in a || r in b;
    }
    if r :| r in a && Blocks(r, path) { assert r in a + b; }
    if r :| r in b && Blocks(r, path) { assert r in a + b; }
  }

  lemma DeniesOne(glob: string, path: string)
    ensures Denies([DenyRule(glob)], path) <==> Matches(Lex(glob), path)
  {
    DenyRuleBlocks(glob, path);
    if Matches(Lex(glob), path) { assert DenyRule(glob) in [DenyRule(glob)]; }
  }

  // ---- one rule against one component ---------------------------------------------

  lemma PrefixWithin(u: string, w: string, rest: string)
    requires '/' !in u && AtComponentEnd(rest)
    ensures u <= w + rest <==> u <= w
  {
    if |w| < |u| <= |w + rest| {
      assert (w + rest)[|w|] == '/' && u[|w|] != '/';
    }
  }

  /** A rule whose text starts with plain text and goes on with the given tail. */
  lemma GlobMatches(dir: string, u: string, tail: string, w: string, rest: string)
    requires PlainText(dir) && PlainText(u) && '/' !in u && AtComponentEnd(rest)
    ensures Matches(Lex(dir + "/" + u + tail), dir + "/" + w + rest)
            <==> u <= w && Matches(Lex(tail), w[|u|..] + rest)
  {
    var t, p := dir + "/" + u, dir + "/" + w + rest;
    LexPlain(t, tail);
    MatchLits(t, Lex(tail), p);
    PrefixWithin(u, w, rest);
    StartsAlike(dir + "/", u, w, rest);
  }

  lemma StartsAlike(s: string, u: string, w: string, rest: string)
    ensures s + u <= s + w + rest <==> u <= w + rest
    ensures u <= w ==> (s + w + rest)[|s + u|..] == w[|u|..] + rest
  {
    var t, p := s + u, s + w + rest;
    assert p == s + (w + rest);
    if t <= p {
      assert (w + rest)[..|u|] == p[|s|..|t|] == t[|s|..] == u;
    }
  }

  predicate CharHit(ns: seq<Node>, name: string, k: nat, w: string)
    requires k <= |name|
  {
    name[..k] <= w && k < |w| && !InClass(CharsAt(ns, name, k), w[k])
  }

  lemma CharRuleMatches(dir: string, ns: seq<Node>, name: string, k: nat, w: string, rest: string)
    requires PlainText(dir) && k <= |name| && PlainName(name[..k]) && ']' !in CharsAt(ns, name, k)
    requires Component(w) && AtComponentEnd(rest)
    ensures Denies([CharRule(dir, ns, name, k)], dir + "/" + w + rest) <==> CharHit(ns, name, k, w)
  {
    var x, u := CharsAt(ns, name, k), name[..k];
    var tail := "[^" + x + "]*{,/**}";
    assert dir + "/" + u + tail == dir + "/" + u + "[^" + x + "]*{,/**}";
    DeniesOne(dir + "/" + u + tail, dir + "/" + w + rest);
    GlobMatches(dir, u, tail, w, rest);
    LexCharTail(x);
    if u <= w { CharTailMatches(x, w, k, rest); }
  }

  lemma CharTailMatches(x: string, w: string, k: nat, rest: string)
    requires k <= |w| && Component(w) && AtComponentEnd(rest)
    ensures Matches([NotIn(x), Star, OptTree], w[k..] + rest) <==> k < |w| && !InClass(x, w[k])
  {
    var p := w[k..] + rest;
    if k < |w| {
      assert p[1..] == w[k + 1..] + rest;
      StarTreeMatches(w[k + 1..], rest);
      assert [NotIn(x), Star, OptTree][1..] == [Star, OptTree];
    }
  }

  predicate TailHit(name: string, w: string, q: seq<string>)
    requires name != ""
  {
    if !IsStar(name) then ProperPrefix(name, w)
    else name != "**" && Stem(name) <= w && q != []
  }

  lemma LongerRuleMatches(dir: string, name: string, w: string, rest: string)
    requires PlainText(dir) && PlainName(name) && Component(w) && AtComponentEnd(rest)
    ensures Denies([DenyRule(dir + "/" + name + "?*{,/**}")], dir + "/" + w + rest)
            <==> ProperPrefix(name, w)
  {
    var tail := "?*{,/**}";
    DeniesOne(dir + "/" + name + tail, dir + "/" + w + rest);
    GlobMatches(dir, name, tail, w, rest);
    LexLongerTail();
    if name <= w {
      AnyTreeMatches(w[|name|..], rest);
    }
  }

  lemma AnyTreeMatches(v: string, rest: string)
    requires '/' !in v && AtComponentEnd(rest)
    ensures Matches([Any, Star, OptTree], v + rest) <==> v != ""
  {
    assert [Any, Star, OptTree][1..] == [Star, OptTree];
    if v != "" {
      assert (v + rest)[1..] == v[1..] + rest;
      StarTreeMatches(v[1..], rest);
    }
  }

  lemma BelowRuleMatches(dir: string, stem: string, w: string, rest: string)
    requires PlainText(dir) && PlainName(stem) && Component(w) && AtComponentEnd(rest)
    ensures Denies([DenyRule(dir + "/" + (stem + "*") + "/**")], dir + "/" + w + rest)
            <==> stem <= w && rest != ""
  {
    var tail := "*/**";
    assert dir + "/" + (stem + "*") + "/**" == dir + "/" + stem + tail;
    DeniesOne(dir + "/" + stem + tail, dir + "/" + w + rest);
    GlobMatches(dir, stem, tail, w, rest);
    LexBelowTail();
    if stem <= w { StarBelowMatches(w[|stem|..], rest); }
  }

  lemma TailRulesMatch(dir: string, name: string, w: string, q: seq<string>)
    requires PlainText(dir) && GoodName(name) && Component(w)
    ensures Denies(TailRules(dir, name), dir + "/" + w + Suffix(q)) <==> TailHit(name, w, q)
  {
    if !IsStar(name) {
      LongerRuleMatches(dir, name, w, Suffix(q));
    } else if name != "**" {
      assert name == Stem(name) + "*";
      BelowRuleMatches(dir, Stem(name), w, Suffix(q));
    }
  }

  // ---- all rules of a node ----------------------------------------------------------

  lemma {:induction false} CharsAtComeFrom(ns: seq<Node>, ref: string, k: nat, ch: char)
    requires k <= |ref|
    ensures ch in CharsAt(ns, ref, k) <==>
      exists c <- ns :: k < |c.path| && c.path[..k] == ref[..k] && c.path[k] == ch
  {
    if ns != [] {
      var n := |ns| - 1;
      CharsAtComeFrom(ns[..n], ref, k, ch);
      assert forall c :: c in ns <==> c in ns[..n] || c == ns[n];
    }
  }

  /** Only the part of the name before the position matters. */
  lemma {:induction false} CharsAtAgree(ns: seq<Node>, ref: string, other: string, k: nat)
    requires k <= |ref| && k <= |other| && ref[..k] == other[..k]
    ensures CharsAt(ns, ref, k) == CharsAt(ns, other, k)
  {
    if ns != [] { CharsAtAgree(ns[..|ns| - 1], ref, other, k); }
  }

  lemma {:induction false} CharsAtDistinct(ns: seq<Node>, ref: string, k: nat)
    requires k <= |ref|
    ensures Distinct(CharsAt(ns, ref, k))
  {
    if ns != [] { CharsAtDistinct(ns[..|ns| - 1], ref, k); }
  }

  predicate GoodNames(ns: seq<Node>) { forall c <- ns :: GoodName(c.path) }

  lemma NoBracketIn(name: string)
    requires GoodName(name)
    ensures ']' !in name
  {
    if name != "**" {
      var u := Stem(name);
      assert forall i | 0 <= i < |u| :: PlainChar(u[i]);
      assert IsStar(name) ==> name == u + "*";
    }
  }

  lemma NoBracketAt(ns: seq<Node>, ref: string, k: nat)
    requires k <= |ref| && GoodNames(ns)
    ensures ']' !in CharsAt(ns, ref, k)
  {
    CharsAtComeFrom(ns, ref, k, ']');
    forall c | c in ns ensures ']' !in c.path { NoBracketIn(c.path); }
  }

  /** The first k positions of a name that lie in its stem. */
  ghost predicate SomeCharHit(ns: seq<Node>, name: string, k: nat, w: string)
    requires k <= |name|
  {
    exists j | 0 <= j < k && j < |Stem(name)| :: CharHit(ns, name, j, w)
  }

  lemma StemIsPlain(name: string, k: nat)
    requires GoodName(name) && k < |name|
    ensures Skipped(name, k) <==> k >= |Stem(name)|
    ensures k < |Stem(name)| ==> PlainName(name[..k])
  {
    if name != "**" {
      var u := Stem(name);
      assert u <= name;
      assert forall i | 0 <= i < |u| :: PlainChar(u[i]) && u[i] == name[i];
      assert !IsStar(name) ==> name[|name| - 1] != '*';
      if k < |u| { assert PlainChar(name[k]) && forall i | 0 <= i < k :: name[..k][i] == u[i]; }
    }
  }

  /** Every rule of the list is the rule of one position, */
  lemma {:induction false} RuleOfChar(dir: string, ns: seq<Node>, name: string, k: nat, r: string) returns (j: nat)
    requires k <= |name| && r in CharRules(dir, ns, name, k)
    ensures j < k && !Skipped(name, j) && r == CharRule(dir, ns, name, j)
    decreases k
  {
    assert k > 0;
    if r in CharRules(dir, ns, name, k - 1) {
      j := RuleOfChar(dir, ns, name, k - 1, r);
    } else {
      j := k - 1;
    }
  }

  /** and the rule of every position is in the list. */
  lemma {:induction false} CharRuleIsListed(dir: string, ns: seq<Node>, name: string, k: nat, j: nat)
    requires j < k <= |name| && !Skipped(name, j)
    ensures CharRule(dir, ns, name, j) in CharRules(dir, ns, name, k)
    decreases k
  {
    if j < k - 1 { CharRuleIsListed(dir, ns, name, k - 1, j); }
  }

  /** The rule of a position in the stem blocks what it hits. */
  lemma CharRuleBlocks(dir: string, ns: seq<Node>, name: string, j: nat, w: string, rest: string)
    requires PlainText(dir) && GoodName(name) && GoodNames(ns) && j < |name| && j < |Stem(name)|
    requires Component(w) && AtComponentEnd(rest)
    ensures Blocks(CharRule(dir, ns, name, j), dir + "/" + w + rest) <==> CharHit(ns, name, j, w)
  {
    StemIsPlain(name, j);
    NoBracketAt(ns, name, j);
    CharRuleMatches(dir, ns, name, j, w, rest);
    DeniesSingle(CharRule(dir, ns, name, j), dir + "/" + w + rest);
  }

  lemma DeniesSingle(rule: string, path: string)
    ensures Denies([rule], path) <==> Blocks(rule, path)
  {
    assert [rule][0] == rule;
  }

  lemma CharRulesMatch(dir: string, ns: seq<Node>, name: string, k: nat, w: string, rest: string)
    requires PlainText(dir) && k <= |name| && GoodName(name) && GoodNames(ns)
    requires Component(w) && AtComponentEnd(rest)
    ensures Denies(CharRules(dir, ns, name, k), dir + "/" + w + rest) <==> SomeCharHit(ns, name, k, w)
  {
    var p := dir + "/" + w + rest;
    if r :| r in CharRules(dir, ns, name, k) && Blocks(r, p) {
      var j := RuleOfChar(dir, ns, name, k, r);
      StemIsPlain(name, j);
      CharRuleBlocks(dir, ns, name, j, w, rest);
    }
    if j :| 0 <= j < k && j < |Stem(name)| && CharHit(ns, name, j, w) {
      StemIsPlain(name, j);
      CharRuleBlocks(dir, ns, name, j, w, rest);
      CharRuleIsListed(dir, ns, name, k, j);
    }
  }

  /** Among the rules of these names, every class means what it lists. */
  ghost predicate LevelLiteral(ns: seq<Node>) {
    forall i, k | 0 <= i < |ns| && 0 <= k < |Stem(ns[i].path)| :: LiteralAt(ns, i, k)
  }

  ghost predicate LiteralAt(ns: seq<Node>, i: nat, k: nat)
    requires i < |ns| && k < |Stem(ns[i].path)|
  {
    Literal(CharsAt(ns, ns[i].path, k))
  }

  /** The same for the rules of the whole tree. */
  ghost predicate ReadsLiterally(ns: seq<Node>) {
    LevelLiteral(ns) && forall i | 0 <= i < |ns| :: ReadsLiterally(ns[i].children)
  }

  // ---- to be seen from the names alone ----------------------------------------------

  /** No dash among the next characters of the names makes a range of others. */
  predicate LevelHarmless(ns: seq<Node>) {
    forall i, k | 0 <= i < |ns| && 0 <= k < |Stem(ns[i].path)| :: HarmlessAt(ns, i, k)
  }

  predicate HarmlessAt(ns: seq<Node>, i: nat, k: nat)
    requires i < |ns| && k < |Stem(ns[i].path)|
  {
    NoOtherRange(CharsAt(ns, ns[i].path, k))
  }

  predicate Harmless(ns: seq<Node>) {
    LevelHarmless(ns) && forall i | 0 <= i < |ns| :: Harmless(ns[i].children)
  }

  lemma NoSlashIn(name: string)
    requires GoodName(name)
    ensures '/' !in name
  {
    assert IsStar(name) && name != "**" ==> name == Stem(name) + "*";
  }

  lemma LiteralAtExactlyWhen(ns: seq<Node>, i: nat, k: nat)
    requires GoodNames(ns) && i < |ns| && k < |Stem(ns[i].path)|
    ensures LiteralAt(ns, i, k) <==> HarmlessAt(ns, i, k)
  {
    var cs := CharsAt(ns, ns[i].path, k);
    CharsAtComeFrom(ns, ns[i].path, k, '/');
    forall c | c in ns ensures '/' !in c.path { NoSlashIn(c.path); }
    CharsAtDistinct(ns, ns[i].path, k);
    LiteralExactlyWhen(cs);
  }

  lemma LevelLiteralExactlyWhen(ns: seq<Node>)
    requires GoodNames(ns)
    ensures LevelLiteral(ns) <==> LevelHarmless(ns)
  {
    forall i, k | 0 <= i < |ns| && 0 <= k < |Stem(ns[i].path)|
      ensures LiteralAt(ns, i, k) <==> HarmlessAt(ns, i, k)
    {
      LiteralAtExactlyWhen(ns, i, k);
    }
  }

  lemma {:induction false} ReadsLiterallyExactlyWhen(ns: seq<Node>)
    requires WellShaped(ns)
    ensures ReadsLiterally(ns) <==> Harmless(ns)
  {
    LevelLiteralExactlyWhen(ns);
    forall i | 0 <= i < |ns| ensures ReadsLiterally(ns[i].children) <==> Harmless(ns[i].children) {
      ReadsLiterallyExactlyWhen(ns[i].children);
    }
  }
}
