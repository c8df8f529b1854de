/** One set of allowed names that the generator's rules do not keep apart. */
module AaRanges {
  import opened AaGlob
  import opened AaTrie
  import opened AaRules
  import opened AaMeaning

  /** Next characters 1, - and 9, in this order, after a common letter. */
  function DashNames(): seq<Node> {
    [Node("a1", []), Node("a-b", []), Node("a9", [])]
  }

  lemma PlainLeaf(name: string)
    requires |name| >= 2 && PlainName(name) && !IsStar(name)
    ensures GoodName(name) && Stem(name) == name
  {
  }

  lemma SecondLettersDiffer(i: nat, j: nat)
    requires i < 3 && j < 3 && i != j
    ensures !(DashNames()[i].path <= DashNames()[j].path)
  {
    var s, t := DashNames()[i].path, DashNames()[j].path;
    assert |s| >= 2 && |t| >= 2 && s[1] != t[1];
  }

  lemma DashNameIsPlain(i: nat)
    requires i < 3
    ensures var c := DashNames()[i]; |c.path| >= 2 && PlainName(c.path) && !IsStar(c.path) && c.children == []
  {
  }

  lemma DashNamesAreWellShaped()
    ensures WellShaped(DashNames()) && Named(DashNames())
  {
    var ns := DashNames();
    forall i | 0 <= i < 3
      ensures GoodName(ns[i].path) && Stem(ns[i].path) == ns[i].path && !IsStar(ns[i].path) && ns[i].children == []
    {
      DashNameIsPlain(i);
      PlainLeaf(ns[i].path);
    }
    forall i, j | 0 <= i < 3 && 0 <= j < 3 && i != j ensures !(Stem(ns[i].path) <= Stem(ns[j].path)) {
      SecondLettersDiffer(i, j);
    }
    assert WellShaped([]) && Named([]);
  }

  lemma OneMoreChar(ns: seq<Node>, c: Node, ref: string, k: nat)
    requires k <= |ref| && k < |c.path| && c.path[..k] == ref[..k]
    ensures CharsAt(ns + [c], ref, k) == var r := CharsAt(ns, ref, k); if c.path[k] in r then r else r + [c.path[k]]
  {
    assert (ns + [c])[..|ns|] == ns;
  }

  lemma OneChar(a: Node, k: nat)
    requires k < |a.path|
    ensures CharsAt([a], a.path, k) == [a.path[k]]
  {
    OneMoreChar([], a, a.path, k);
    assert [] + [a] == [a];
  }

  lemma TwoChars(a: Node, b: Node, k: nat)
    requires k < |a.path| && k < |b.path| && a.path[..k] == b.path[..k]
    ensures CharsAt([a, b], a.path, k) == if b.path[k] == a.path[k] then [a.path[k]] else [a.path[k], b.path[k]]
  {
    OneChar(a, k);
    OneMoreChar([a], b, a.path, k);
    assert [a] + [b] == [a, b];
  }

  /** The class at a position up to which three names agree. */
  lemma ThreeChars(a: Node, b: Node, c: Node, k: nat)
    requires k < |a.path| && k < |b.path| && k < |c.path|
    requires a.path[..k] == b.path[..k] == c.path[..k]
    ensures CharsAt([a, b, c], a.path, k) ==
            var x := if b.path[k] == a.path[k] then [a.path[k]] else [a.path[k], b.path[k]];
            if c.path[k] in x then x else x + [c.path[k]]
  {
    TwoChars(a, b, k);
    OneMoreChar([a, b], c, a.path, k);
    assert [a, b] + [c] == [a, b, c];
  }

  /** After the common letter the class reads 1-9. */
  lemma DashClass()
    ensures CharsAt(DashNames(), "a1", 1) == "1-9"
  {
    assert "a1"[..1] == "a" && "a-b"[..1] == "a" && "a9"[..1] == "a";
    ThreeChars(Node("a1", []), Node("a-b", []), Node("a9", []), 1);
  }

  lemma FirstLetters()
    ensures CharsAt(DashNames(), "a1", 0) == "a"
  {
    assert "a1"[..0] == "" && "a-b"[..0] == "" && "a9"[..0] == "";
    ThreeChars(Node("a1", []), Node("a-b", []), Node("a9", []), 0);
  }

  lemma ClassOfADash()
    ensures !InClass("1-9", '-') && InClass("1-9", '5') && InClass("a", 'a')
  {
  }

  lemma RuleHitsTheName()
    ensures CharHit(DashNames(), "a1", 1, "a-b")
  {
    DashClass();
    ClassOfADash();
    assert "a-b"[1] == '-' && "a-b"[..1] == "a1"[..1];
  }

  /** The name a-b is allowed, and yet a rule denies it. */
  lemma AllowedNameIsDenied(dir: string)
    requires PlainText(dir)
    ensures !Denied(DashNames(), ["a-b"])
    ensures Named(DashNames()) && Denies(ListRules(dir, DashNames(), 3), dir + Suffix(["a-b"]))
  {
    DashNamesAreWellShaped();
    DashNameIsPlain(1);
    PlainLeaf("a-b");
    DashNameIsPlain(0);
    PlainLeaf("a1");
    RuleHitsTheName();
    HitNameIsDenied(dir, DashNames(), 1, 0, 1);
  }

  /** A rule of one name that hits another one. */
  lemma HitNameIsDenied(dir: string, ns: seq<Node>, x: nat, i: nat, k: nat)
    requires PlainText(dir) && WellShaped(ns) && Named(ns) && x < |ns| && Stem(ns[x].path) == ns[x].path
    requires i < |ns| && k < |Stem(ns[i].path)| && CharHit(ns, ns[i].path, k, ns[x].path)
    ensures !Denied(ns, [ns[x].path]) && Denies(ListRules(dir, ns, |ns|), dir + Suffix([ns[x].path]))
  {
    var w := ns[x].path;
    assert GoodName(w) && Component(w);
    StemIsAllowed(ns, x);
    HitAtTheEnd(ns, i, k, w);
    RulesAtTheEnd(dir, ns, w);
  }

  lemma HitAtTheEnd(ns: seq<Node>, i: nat, k: nat, w: string)
    requires i < |ns| && Named(ns) && k < |Stem(ns[i].path)| && CharHit(ns, ns[i].path, k, w)
    ensures EndHit(ns, i, w)
  {
    assert Stem(ns[i].path) <= ns[i].path;
  }

  /** No rule at any position of any of the names hits a5. */
  lemma NoRuleHits(i: nat, k: nat)
    requires i < 3 && k < |DashNames()[i].path|
    ensures !CharHit(DashNames(), DashNames()[i].path, k, "a5")
  {
    var ns, name, w := DashNames(), DashNames()[i].path, "a5";
    DashClass();
    FirstLetters();
    ClassOfADash();
    assert |w| == 2 && w[0] == 'a' && w[1] == '5';
    if k < 2 {
      assert name[..k] == "a1"[..k];
      CharsAtAgree(ns, name, "a1", k);
    }
  }

  lemma OtherNameIsApart(i: nat)
    requires i < 3
    ensures Apart(DashNames()[i].path, "a5")
  {
    var name := DashNames()[i].path;
    DashNameIsPlain(i);
    PlainLeaf(name);
    assert name[1] != '5' && "a5"[1] == '5';
  }

  /** The name a5 is outside the tree, and yet no rule denies it. */
  lemma OtherNameIsLetThrough(dir: string)
    requires PlainText(dir)
    ensures Denied(DashNames(), ["a5"])
    ensures Named(DashNames()) && !Denies(ListRules(dir, DashNames(), 3), dir + Suffix(["a5"]))
  {
    var ns := DashNames();
    DashNamesAreWellShaped();
    forall i | 0 <= i < 3 ensures Apart(ns[i].path, "a5") && !EndHit(ns, i, "a5") {
      OtherNameIsApart(i);
      forall k | 0 <= k < |ns[i].path| ensures !CharHit(ns, ns[i].path, k, "a5") { NoRuleHits(i, k); }
      NothingAtTheEnd(ns, i, "a5");
    }
    OutsideIsDenied(ns, "a5");
    RulesAtTheEnd(dir, ns, "a5");
  }

  lemma NothingAtTheEnd(ns: seq<Node>, i: nat, w: string)
    requires i < |ns| && Named(ns) && Apart(ns[i].path, w)
    requires forall k | 0 <= k < |ns[i].path| :: !CharHit(ns, ns[i].path, k, w)
    ensures !EndHit(ns, i, w)
  {
    assert !IsStar(ns[i].path) ==> Stem(ns[i].path) == ns[i].path;
  }
}
