/** lxc-generate-aa-rules: the lists the script fills and the functions that fill them. */
module AaGenerator {
  import opened AaGlob
  import opened AaTrie
  import opened AaRules
  import opened AaMeaning
  import opened AaConfig
  import opened Libc

  /** append_deny(), over a list of finished rules. */
  function AddAll(denies: seq<string>, rules: seq<string>): (r: seq<string>)
    ensures forall x :: x in r <==> x in denies || x in rules
  {
    if rules == [] then denies
    else
      var d := AddAll(denies, rules[..|rules| - 1]);
      var x := rules[|rules| - 1];
      assert rules == rules[..|rules| - 1] + [x];
      if x in d then d else d + [x]
  }

  lemma {:induction false} AddAllInTwo(denies: seq<string>, a: seq<string>, b: seq<string>)
    ensures AddAll(denies, a + b) == AddAll(AddAll(denies, a), b)
    decreases |b|
  {
    if b == [] {
      assert a + b == a;
    } else {
      assert (a + b)[..|a + b| - 1] == a + b[..|b| - 1];
      AddAllInTwo(denies, a, b[..|b| - 1]);
    }
  }

  /** No tree has a node without a name. */
  predicate AllNamed(blocks: seq<Node>) { forall b <- blocks :: Named(b.children) }

  /** The rules of the first n blocks. */
  function BlockRules(blocks: seq<Node>, n: nat): seq<string>
    requires n <= |blocks| && AllNamed(blocks)
  {
    if n == 0 then []
    else
      var b := blocks[n - 1];
      BlockRules(blocks, n - 1) + ListRules(b.path, b.children, |b.children|)
  }

  lemma AddNodeRules(denies: seq<string>, dir: string, ns: seq<Node>, i: nat)
    requires i < |ns| && Named(ns)
    ensures AddAll(denies, ListRules(dir, ns, i + 1)) ==
            AddAll(AddAll(denies, ListRules(dir, ns, i)), NodeRules(dir, ns, ns[i]))
  {
    AddAllInTwo(denies, ListRules(dir, ns, i), NodeRules(dir, ns, ns[i]));
  }

  lemma AddBlockRules(denies: seq<string>, blocks: seq<Node>, i: nat)
    requires i < |blocks| && AllNamed(blocks)
    ensures var b := blocks[i];
      && Named(b.children)
      && AddAll(denies, BlockRules(blocks, i + 1)) ==
         AddAll(AddAll(denies, BlockRules(blocks, i)), ListRules(b.path, b.children, |b.children|))
  {
    var b := blocks[i];
    assert b in blocks;
    AddAllInTwo(denies, BlockRules(blocks, i), ListRules(b.path, b.children, |b.children|));
  }

  /** add_block(): the path is compared as it is and stored without surrounding space. */
  function WithBlock(blocks: seq<Node>, path: string): seq<Node> {
    if exists b <- blocks :: b.path == path then blocks else blocks + [Node(Strip(path), [])]
  }

  /** A block line given twice is recognised exactly if its path has no space around it. */
  lemma DuplicateIsSeenExactlyWhen(blocks: seq<Node>, path: string)
    requires forall b <- blocks :: b.path != path
    ensures WithBlock(WithBlock(blocks, path), path) == WithBlock(blocks, path) <==> path == Strip(path)
  {
    var once := WithBlock(blocks, path);
    assert once[|blocks|] in once && once[|blocks|].path == Strip(path);
    assert forall b <- once :: b in blocks || b == once[|blocks|];
  }

  /** The same line of a file twice. */
  lemma LineEndHidesDuplicate()
    ensures WithBlock(WithBlock([], "/sys\n"), "/sys\n") == [Node("/sys", []), Node("/sys", [])]
  {
    StripEnd("/sys", "\n");
    assert "/sys" + "\n" == "/sys\n" && |"/sys"| != |"/sys\n"|;
  }

  /** add_allow(): the first block that the path goes on from is extended; none is an error. */
  function WithAllow(blocks: seq<Node>, path: string): Option<seq<Node>> {
    var i := FindBlock(blocks, path);
    if i == |blocks| then None
    else
      var b := blocks[i];
      Some(blocks[i := Node(b.path, Insert(b.children, Components(path[|b.path|..])))])
  }

  class Generator {
    var blocks: seq<Node>
    var denies: seq<string>

    constructor ()
      ensures blocks == [] && denies == []
    {
      blocks, denies := [], [];
    }

    method AddBlock(path: string)
      modifies this`blocks
      ensures blocks == WithBlock(old(blocks), path)
    {
      for i := 0 to |blocks|
        invariant blocks == old(blocks)
        invariant forall j | 0 <= j < i :: blocks[j].path != path
      {
        if blocks[i].path == path {
          return;
        }
      }
      blocks := blocks + [Node(Strip(path), [])];
    }

    method BlockOf(path: string) returns (i: nat)
      ensures i == FindBlock(blocks, path)
    {
      i := 0;
      while i < |blocks| && !(|path| > |blocks[i].path| && path[..|blocks[i].path|] == blocks[i].path)
        invariant 0 <= i <= |blocks|
        invariant forall j | 0 <= j < i :: !(|path| > |blocks[j].path| && blocks[j].path <= path)
      {
        i := i + 1;
      }
    }

    method Slashless(text: string) returns (p: string)
      ensures p == DropSlashes(text)
    {
      p := text;
      while |p| > 0 && p[0] == '/'
        invariant DropSlashes(p) == DropSlashes(text)
        decreases |p|
      {
        p := p[1..];
      }
    }

    /** False stands for the script's exit with status 1. */
    method AddAllow(path: string) returns (found: bool)
      modifies this`blocks
      ensures found <==> exists b <- old(blocks) :: |path| > |b.path| && b.path <= path
      ensures WithAllow(old(blocks), path) == if found then Some(blocks) else None
      ensures !found ==> blocks == old(blocks)
    {
      var i := BlockOf(path);
      found := i < |blocks|;
      if found {
        var b := blocks[i];
        var p := Slashless(Strip(path[|b.path|..]));
        blocks := blocks[i := Node(b.path, Insert(b.children, StripAll(Split(p, '/'))))];
      }
    }

    method CollectChars(children: seq<Node>, ref: string, index: nat) returns (r: string)
      requires index <= |ref|
      ensures r == CharsAt(children, ref, index)
    {
      r := "";
      for i := 0 to |children|
        invariant r == CharsAt(children[..i], ref, index)
      {
        assert children[..i + 1][..i] == children[..i];
        var name := children[i].path;
        if index >= |name| {
          continue;
        }
        if ref[..index] != name[..index] {
          continue;
        }
        if name[index] !in r {
          r := r + [name[index]];
        }
      }
      assert children[..|children|] == children;
    }

    method AppendDeny(glob: string)
      modifies this`denies
      ensures denies == AddAll(old(denies), [DenyRule(glob)])
    {
      var s := "deny " + glob + " wklx,";
      assert [s][..0] == [];
      if s !in denies {
        denies := denies + [s];
      }
    }

    /** False stands for the exception at a child without a name. */
    method GenDenies(pathSoFar: string, children: seq<Node>) returns (ok: bool)
      modifies this`denies
      ensures ok <==> Named(children)
      ensures ok ==> denies == AddAll(old(denies), ListRules(pathSoFar, children, |children|))
      decreases children, 1
    {
      ghost var before := denies;
      for i := 0 to |children|
        invariant forall j | 0 <= j < i :: children[j].path != "" && Named(children[j].children)
        invariant Named(children) ==> denies == AddAll(before, ListRules(pathSoFar, children, i))
      {
        ok := GenDeniesAt(pathSoFar, children, i, before);
        if !ok {
          return;
        }
      }
      ok := true;
    }

    method GenDeniesAt(pathSoFar: string, children: seq<Node>, i: nat, ghost before: seq<string>) returns (ok: bool)
      requires i < |children|
      requires Named(children) ==> denies == AddAll(before, ListRules(pathSoFar, children, i))
      modifies this`denies
      ensures ok <==> children[i].path != "" && Named(children[i].children)
      ensures Named(children) ==> denies == AddAll(before, ListRules(pathSoFar, children, i + 1))
      decreases children, 0
    {
      if Named(children) { AddNodeRules(before, pathSoFar, children, i); }
      ok := GenDeniesFor(pathSoFar, children, children[i]);
    }

    /** gen_denies()'s inner loop: one rule per position of a name. */
    method GenCharDenies(pathSoFar: string, children: seq<Node>, name: string)
      modifies this`denies
      ensures denies == AddAll(old(denies), CharRules(pathSoFar, children, name, |name|))
    {
      for k := 0 to |name|
        invariant denies == AddAll(old(denies), CharRules(pathSoFar, children, name, k))
      {
        ghost var before := CharRules(pathSoFar, children, name, k);
        if (k == |name| - 1 && name[k] == '*') || (k == |name| - 2 && name[k..k + 2] == "**") {
          assert CharRules(pathSoFar, children, name, k + 1) == before;
          continue;
        }
        var x := CollectChars(children, name, k);
        AddAllInTwo(old(denies), before, [CharRule(pathSoFar, children, name, k)]);
        AppendDeny(pathSoFar + "/" + name[..k] + "[^" + x + "]*{,/**}");
      }
    }

    method GenTailDenies(pathSoFar: string, name: string)
      requires name != ""
      modifies this`denies
      ensures denies == AddAll(old(denies), TailRules(pathSoFar, name))
    {
      if name != "**" && name[|name| - 1] != '*' {
        AppendDeny(pathSoFar + "/" + name + "?*{,/**}");
      } else if name != "**" {
        AppendDeny(pathSoFar + "/" + name + "/**");
      }
    }

    /** One turn of gen_denies()'s outer loop. */
    method GenDeniesFor(pathSoFar: string, children: seq<Node>, c: Node) returns (ok: bool)
      modifies this`denies
      ensures ok <==> c.path != "" && Named(c.children)
      ensures ok ==> denies == AddAll(old(denies), NodeRules(pathSoFar, children, c))
      decreases c, 0
    {
      GenCharDenies(pathSoFar, children, c.path);
      if c.path == "" {
        return false;
      }
      ghost var chars := CharRules(pathSoFar, children, c.path, |c.path|);
      ghost var tail := TailRules(pathSoFar, c.path);
      GenTailDenies(pathSoFar, c.path);
      AddAllInTwo(old(denies), chars, tail);
      ok := true;
      if |c.children| != 0 {
        var newPath := pathSoFar + "/" + c.path;
        ok := GenDenies(newPath, c.children);
        if ok { AddAllInTwo(old(denies), chars + tail, ListRules(newPath, c.children, |c.children|)); }
      } else {
        assert chars + tail + [] == chars + tail;
      }
    }

    /** The last part of main(): the rules of all blocks, or the exception. */
    method Generate() returns (ok: bool)
      modifies this`denies
      ensures ok <==> AllNamed(blocks)
      ensures ok ==> denies == AddAll(old(denies), BlockRules(blocks, |blocks|))
    {
      ghost var before := denies;
      for i := 0 to |blocks|
        invariant forall j | 0 <= j < i :: Named(blocks[j].children)
        invariant AllNamed(blocks) ==> denies == AddAll(before, BlockRules(blocks, i))
      {
        ok := GenerateAt(i, before);
        if !ok {
          return;
        }
      }
      ok := true;
    }

    method GenerateAt(i: nat, ghost before: seq<string>) returns (ok: bool)
      requires i < |blocks|
      requires AllNamed(blocks) ==> denies == AddAll(before, BlockRules(blocks, i))
      modifies this`denies
      ensures ok <==> Named(blocks[i].children)
      ensures AllNamed(blocks) ==> denies == AddAll(before, BlockRules(blocks, i + 1))
    {
      assert blocks[i] in blocks;
      if AllNamed(blocks) { AddBlockRules(before, blocks, i); }
      ok := GenDenies(blocks[i].path, blocks[i].children);
    }
  }

  // ---- the whole configuration ---------------------------------------------------------

  /** No block is the beginning of another one. */
  predicate PathsApart(blocks: seq<Node>) {
    forall i, j | 0 <= i < |blocks| && 0 <= j < |blocks| && i != j :: !(blocks[i].path <= blocks[j].path)
  }

  /** The same, and every tree is well shaped. */
  predicate BlocksApart(blocks: seq<Node>) {
    && (forall b <- blocks :: PlainText(b.path) && WellShaped(b.children) && Named(b.children))
    && PathsApart(blocks)
  }

  lemma OtherBlocksStayAway(b: Node, dir: string, q: seq<string>)
    requires PlainText(b.path) && WellShaped(b.children) && Named(b.children)
    requires !(b.path <= dir) && !(dir <= b.path)
    ensures !Denies(ListRules(b.path, b.children, |b.children|), dir + Suffix(q))
  {
    var path := dir + Suffix(q);
    if Denies(ListRules(b.path, b.children, |b.children|), path) {
      ListRulesStay(b.path, b.children, |b.children|, path);
      ShorterPrefix(b.path, "/", path);
      Comparable(b.path, dir, path);
      assert false;
    }
  }

  /** The rules of block n deny a path below block i. */
  ghost predicate OwnRulesDeny(blocks: seq<Node>, n: nat, i: nat, q: seq<string>)
    requires n < |blocks| && i < |blocks| && AllNamed(blocks)
  {
    var b := blocks[n];
    Denies(ListRules(b.path, b.children, |b.children|), blocks[i].path + Suffix(q))
  }

  lemma OnlyOwnRulesDeny(blocks: seq<Node>, n: nat, i: nat, q: seq<string>)
    requires BlocksApart(blocks) && n < |blocks| && i < |blocks|
    ensures OwnRulesDeny(blocks, n, i, q) ==> n == i
  {
    assert blocks[n] in blocks;
    if n != i { OtherBlocksStayAway(blocks[n], blocks[i].path, q); }
  }

  /** Every rule of the list is a rule of one block, */
  lemma {:induction false} RuleOfBlock(blocks: seq<Node>, n: nat, r: string) returns (j: nat)
    requires n <= |blocks| && AllNamed(blocks) && r in BlockRules(blocks, n)
    ensures j < n && r in ListRules(blocks[j].path, blocks[j].children, |blocks[j].children|)
    decreases n
  {
    assert n > 0;
    var b := blocks[n - 1];
    if r in ListRules(b.path, b.children, |b.children|) {
      j := n - 1;
    } else {
      j := RuleOfBlock(blocks, n - 1, r);
    }
  }

  /** and every rule of a block is in the list. */
  lemma {:induction false} BlockRuleIsListed(blocks: seq<Node>, n: nat, j: nat, r: string)
    requires j < n <= |blocks| && AllNamed(blocks)
    requires r in ListRules(blocks[j].path, blocks[j].children, |blocks[j].children|)
    ensures r in BlockRules(blocks, n)
    decreases n
  {
    var b := blocks[n - 1];
    if j < n - 1 { BlockRuleIsListed(blocks, n - 1, j, r); }
    StaysListed(BlockRules(blocks, n - 1), ListRules(b.path, b.children, |b.children|), r);
  }

  lemma StaysListed(before: seq<string>, more: seq<string>, r: string)
    requires r in before || r in more
    ensures r in before + more
  {
  }

  lemma BlockRulesDeny(blocks: seq<Node>, i: nat, q: seq<string>)
    requires BlocksApart(blocks) && i < |blocks|
    ensures Denies(BlockRules(blocks, |blocks|), blocks[i].path + Suffix(q)) <==> OwnRulesDeny(blocks, i, i, q)
  {
    var path := blocks[i].path + Suffix(q);
    if r :| r in BlockRules(blocks, |blocks|) && Blocks(r, path) {
      var j := RuleOfBlock(blocks, |blocks|, r);
      assert OwnRulesDeny(blocks, j, i, q);
      OnlyOwnRulesDeny(blocks, j, i, q);
    }
    if OwnRulesDeny(blocks, i, i, q) {
      var b := blocks[i];
      var r :| r in ListRules(b.path, b.children, |b.children|) && Blocks(r, path);
      BlockRuleIsListed(blocks, |blocks|, i, r);
    }
  }

  /** The finished list denies below a block what that block's rules deny. */
  lemma GeneratedRulesMean(blocks: seq<Node>, i: nat, q: seq<string>)
    requires BlocksApart(blocks) && i < |blocks|
    ensures Denies(AddAll([], BlockRules(blocks, |blocks|)), blocks[i].path + Suffix(q))
            <==> OwnRulesDeny(blocks, i, i, q)
  {
    BlockRulesDeny(blocks, i, q);
    var rules := BlockRules(blocks, |blocks|);
    assert forall r :: r in AddAll([], rules) <==> r in rules;
  }

  /**
   * For every block filled from allow lines, a path below it is matched by some rule in
   * the finished list if and only if the lines say it is to be denied, as long as no
   * class among its rules turns into a range.
   */
  lemma GeneratedRulesDenyExactly(blocks: seq<Node>, i: nat, lines: seq<seq<string>>, q: seq<string>)
    requires BlocksApart(blocks) && i < |blocks| && blocks[i].children == Build(lines) && PathBelow(q)
    requires ReadsLiterally(blocks[i].children)
    ensures Denies(AddAll([], BlockRules(blocks, |blocks|)), blocks[i].path + Suffix(q)) <==> DeniedBy(lines, q)
  {
    assert blocks[i] in blocks;
    GeneratedRulesMean(blocks, i, q);
    ListRulesDeny(blocks[i].path, blocks[i].children, q);
    TreeAgreesWithLines(lines, q);
  }

  /** And it holds of every path below the block only then. */
  lemma GeneratedRulesDenyExactlyWhen(blocks: seq<Node>, i: nat, lines: seq<seq<string>>)
    requires BlocksApart(blocks) && i < |blocks| && blocks[i].children == Build(lines)
    ensures (forall q | PathBelow(q) ::
               Denies(AddAll([], BlockRules(blocks, |blocks|)), blocks[i].path + Suffix(q)) <==> DeniedBy(lines, q))
            <==> Harmless(blocks[i].children)
  {
    assert blocks[i] in blocks;
    ReadsLiterallyExactlyWhen(blocks[i].children);
    if ReadsLiterally(blocks[i].children) {
      forall q | PathBelow(q)
        ensures Denies(AddAll([], BlockRules(blocks, |blocks|)), blocks[i].path + Suffix(q)) <==> DeniedBy(lines, q)
      {
        GeneratedRulesDenyExactly(blocks, i, lines, q);
      }
    } else {
      var q := MisreadPath(blocks[i].path, blocks[i].children);
      GeneratedRulesMean(blocks, i, q);
      TreeAgreesWithLines(lines, q);
      assert PathBelow(q);
    }
  }

  lemma FindsItsBlock(blocks: seq<Node>, i: nat, path: string)
    requires PathsApart(blocks) && i < |blocks| && blocks[i].path <= path && |path| > |blocks[i].path|
    ensures FindBlock(blocks, path) == i
  {
    var j := FindBlock(blocks, path);
    if j != i {
      Comparable(blocks[j].path, blocks[i].path, path);
      assert false;
    }
  }

  /** An allow line written below a block extends that block's tree by the written path. */
  lemma AllowLineExtends(blocks: seq<Node>, i: nat, q: seq<string>, space: string, lines: seq<seq<string>>)
    requires PathsApart(blocks) && i < |blocks| && q != [] && Written(q) && AllSpace(space)
    requires blocks[i].children == Build(lines)
    ensures var path := blocks[i].path + Suffix(q) + space;
      && FindBlock(blocks, path) == i
      && Insert(blocks[i].children, Components(path[|blocks[i].path|..])) == Build(lines + [q])
  {
    var b, text := blocks[i].path, Suffix(q) + space;
    assert b + Suffix(q) + space == b + text && (b + text)[|b|..] == text;
    ShorterPrefix(b, text, b + text);
    FindsItsBlock(blocks, i, b + text);
    ComponentsReadBack(q, space);
    assert (lines + [q])[..|lines|] == lines;
  }
}
