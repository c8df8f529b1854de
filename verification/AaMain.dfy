/** The whole script: from the lines of a configuration file to the list of rules. */
module AaMain {
  import opened AaGlob
  import opened AaTrie
  import opened AaRules
  import opened AaMeaning
  import opened AaConfig
  import opened AaGenerator
  import opened Libc

  // ---- reading the file --------------------------------------------------------------

  /** One turn of the loop in main(); None is the exit with status 1. */
  function ReadLine(blocks: seq<Node>, line: string): Option<seq<Node>> {
    if "#" <= line then Some(blocks)
    else
      var parts := Split(line, ' ');
      if |parts| != 2 then Some(blocks)
      else if parts[0] == "block" then Some(WithBlock(blocks, parts[1]))
      else if parts[0] == "allow" then WithAllow(blocks, parts[1])
      else None
  }

  function ReadLines(lines: seq<string>): Option<seq<Node>> {
    if lines == [] then Some([])
    else
      var before := ReadLines(lines[..|lines| - 1]);
      if before.None? then None else ReadLine(before.value, lines[|lines| - 1])
  }

  lemma {:induction false} StopsForGood(lines: seq<string>, n: nat)
    requires n <= |lines| && ReadLines(lines[..n]).None?
    ensures ReadLines(lines).None?
    decreases |lines|
  {
    if n == |lines| {
      assert lines[..n] == lines;
    } else {
      assert lines[..|lines| - 1][..n] == lines[..n];
      StopsForGood(lines[..|lines| - 1], n);
    }
  }

  /** The loop over the lines; false stands for the exit with status 1. */
  method ReadConfig(g: Generator, lines: seq<string>) returns (ok: bool)
    requires g.blocks == []
    modifies g`blocks
    ensures ReadLines(lines) == if ok then Some(g.blocks) else None
  {
    for n := 0 to |lines|
      invariant ReadLines(lines[..n]) == Some(g.blocks)
    {
      var line := lines[n];
      assert lines[..n + 1][..n] == lines[..n];
      ok := true;
      if !("#" <= line) {
        var parts := Split(line, ' ');
        if |parts| == 2 {
          if parts[0] == "block" {
            g.AddBlock(parts[1]);
          } else if parts[0] == "allow" {
            ok := g.AddAllow(parts[1]);
          } else {
            ok := false;
          }
        }
      }
      if !ok {
        StopsForGood(lines, n + 1);
        return;
      }
    }
    assert lines[..|lines|] == lines;
    ok := true;
  }

  // ---- what is written in it ---------------------------------------------------------

  /** A line of the file: what it says and the space that ends it. */
  datatype Item =
    | Block(path: string, end: string)
    | Allow(block: string, q: seq<string>, end: string)
    | Ignored(text: string)

  function Line(item: Item): string {
    match item
    case Block(path, end) => "block" + " " + (path + end)
    case Allow(block, q, end) => "allow" + " " + (block + Suffix(q) + end)
    case Ignored(text) => text
  }

  function Lines(items: seq<Item>): (r: seq<string>)
    ensures |r| == |items|
  {
    seq(|items|, i requires 0 <= i < |items| => Line(items[i]))
  }

  predicate Word(path: string) { path != "" && NoSpace(path) }

  predicate EndOfLine(end: string) { AllSpace(end) && ' ' !in end }

  /** The blocks, in order. */
  function Paths(items: seq<Item>): seq<string> {
    if items == [] then []
    else
      var last := items[|items| - 1];
      Paths(items[..|items| - 1]) + if last.Block? then [last.path] else []
  }

  /** What is allowed below a block, in order. */
  function LinesOf(items: seq<Item>, path: string): seq<seq<string>> {
    if items == [] then []
    else
      var last := items[|items| - 1];
      LinesOf(items[..|items| - 1], path) + if last.Allow? && last.block == path then [last.q] else []
  }

  predicate ItemFits(before: seq<Item>, item: Item) {
    match item
    case Block(path, end) =>
      Word(path) && EndOfLine(end) && forall r <- Paths(before) :: !(r <= path) && !(path <= r)
    case Allow(block, q, end) => block in Paths(before) && q != [] && Written(q) && EndOfLine(end)
    case Ignored(text) => "#" <= text || |Split(text, ' ')| != 2
  }

  /** Blocks lie apart and come before what is allowed below them. */
  predicate Proper(items: seq<Item>) {
    items == [] || (Proper(items[..|items| - 1]) && ItemFits(items[..|items| - 1], items[|items| - 1]))
  }

  /** Every block with the tree of what is allowed below it. */
  function TreeOf(items: seq<Item>): (r: seq<Node>)
    ensures |r| == |Paths(items)|
  {
    var ps := Paths(items);
    seq(|ps|, i requires 0 <= i < |ps| => Node(ps[i], Build(LinesOf(items, ps[i]))))
  }

  // ---- and that it is read so ----------------------------------------------------------

  lemma SplitTwo(a: string, b: string)
    requires ' ' !in a && ' ' !in b
    ensures Split(a + " " + b, ' ') == [a, b]
  {
    var s := a + " " + b;
    assert s == a + (" " + b) && b + "" == b;
    UntilStop(a, " " + b, ' ');
    UntilStop(b, "", ' ');
    assert s[..|a|] == a && s[|a| + 1..] == b;
  }

  lemma NoBlankIn(s: string)
    requires NoSpace(s)
    ensures ' ' !in s
  {
  }

  predicate WordsApart(ps: seq<string>) {
    && (forall r <- ps :: Word(r))
    && (forall i, j | 0 <= i < |ps| && 0 <= j < |ps| && i != j :: !(ps[i] <= ps[j]))
  }

  lemma OneWordMore(ps: seq<string>, path: string)
    requires WordsApart(ps) && Word(path) && forall r <- ps :: !(r <= path) && !(path <= r)
    ensures WordsApart(ps + [path])
  {
    var qs := ps + [path];
    forall i, j | 0 <= i < |qs| && 0 <= j < |qs| && i != j ensures !(qs[i] <= qs[j]) {
      assert i < |ps| ==> qs[i] == ps[i] && ps[i] in ps;
      assert j < |ps| ==> qs[j] == ps[j] && ps[j] in ps;
    }
  }

  /** Paths of blocks are words, and no one begins another. */
  lemma {:induction false} PathsFit(items: seq<Item>)
    requires Proper(items)
    ensures WordsApart(Paths(items))
  {
    if items != [] {
      var before, last := items[..|items| - 1], items[|items| - 1];
      PathsFit(before);
      if last.Block? {
        OneWordMore(Paths(before), last.path);
      } else {
        assert Paths(items) == Paths(before);
      }
    }
  }

  /** Nothing is allowed below a block before the block is there. */
  lemma {:induction false} NothingYet(items: seq<Item>, path: string)
    requires Proper(items) && path !in Paths(items)
    ensures LinesOf(items, path) == []
  {
    if items != [] {
      NothingYet(items[..|items| - 1], path);
    }
  }

  lemma BlockLine(path: string, end: string)
    requires Word(path) && EndOfLine(end)
    ensures var line := Line(Block(path, end)); !("#" <= line) && Split(line, ' ') == ["block", path + end]
  {
    assert Line(Block(path, end))[0] == 'b' && "#"[0] == '#';
    NoBlankIn(path);
    SplitTwo("block", path + end);
  }

  lemma AllowLine(block: string, q: seq<string>, end: string)
    requires Word(block) && Written(q) && EndOfLine(end)
    ensures var line := Line(Allow(block, q, end));
      !("#" <= line) && Split(line, ' ') == ["allow", block + Suffix(q) + end]
  {
    assert Line(Allow(block, q, end))[0] == 'a' && "#"[0] == '#';
    NoBlankIn(block);
    SuffixHasNoSpace(q);
    NoBlankIn(Suffix(q));
    SplitTwo("allow", block + Suffix(q) + end);
  }

  lemma TreeOfBlock(before: seq<Item>, item: Item)
    requires Proper(before) && item.Block? && item.path !in Paths(before)
    ensures TreeOf(before + [item]) == TreeOf(before) + [Node(item.path, [])]
  {
    var all := before + [item];
    assert all[..|all| - 1] == before;
    NothingYet(before, item.path);
    assert Paths(all) == Paths(before) + [item.path];
    var r, t := TreeOf(all), TreeOf(before) + [Node(item.path, [])];
    forall j | 0 <= j < |r| ensures r[j] == t[j] {
      LinesOfOther(before, item, Paths(all)[j]);
    }
    assert r == t;
  }

  lemma LinesOfOther(before: seq<Item>, item: Item, path: string)
    requires !item.Allow?
    ensures LinesOf(before + [item], path) == LinesOf(before, path)
  {
    var all := before + [item];
    assert all[..|all| - 1] == before;
    assert LinesOf(before, path) + [] == LinesOf(before, path);
  }

  lemma BlockIsAdded(before: seq<Item>, item: Item)
    requires Proper(before) && ItemFits(before, item) && item.Block?
    ensures WithBlock(TreeOf(before), item.path + item.end) == TreeOf(before + [item])
  {
    StripEnd(item.path, item.end);
    NotThereYet(Paths(before), item.path, item.end);
    assert forall b <- TreeOf(before) :: b.path in Paths(before);
    TreeOfBlock(before, item);
  }

  lemma NotThereYet(ps: seq<string>, path: string, end: string)
    requires forall r <- ps :: !(r <= path) && !(path <= r)
    ensures path !in ps && path + end !in ps
  {
    assert path <= path && path <= path + end;
  }

  lemma LinesOfAllow(before: seq<Item>, item: Item, path: string)
    requires item.Allow?
    ensures LinesOf(before + [item], path) ==
            if path == item.block then LinesOf(before, path) + [item.q] else LinesOf(before, path)
    ensures Paths(before + [item]) == Paths(before)
  {
    var all := before + [item];
    assert all[..|all| - 1] == before;
    assert LinesOf(before, path) + [] == LinesOf(before, path) && Paths(before) + [] == Paths(before);
  }

  lemma ApartInTree(items: seq<Item>)
    requires Proper(items)
    ensures PathsApart(TreeOf(items))
  {
    PathsFit(items);
    var ps, blocks := Paths(items), TreeOf(items);
    forall i, j | 0 <= i < |blocks| && 0 <= j < |blocks| && i != j ensures !(blocks[i].path <= blocks[j].path) {
      assert !(ps[i] <= ps[j]);
    }
  }

  lemma AllowIsAdded(before: seq<Item>, item: Item)
    requires Proper(before) && ItemFits(before, item) && item.Allow?
    ensures WithAllow(TreeOf(before), item.block + Suffix(item.q) + item.end) == Some(TreeOf(before + [item]))
  {
    var blocks, after := TreeOf(before), TreeOf(before + [item]);
    ApartInTree(before);
    var i :| 0 <= i < |Paths(before)| && Paths(before)[i] == item.block;
    AllowLineExtends(blocks, i, item.q, item.end, LinesOf(before, item.block));
    LinesOfAllow(before, item, item.block);
    var changed := blocks[i := Node(item.block, Build(LinesOf(before, item.block) + [item.q]))];
    forall j | 0 <= j < |blocks| ensures changed[j] == after[j] {
      LinesOfAllow(before, item, blocks[j].path);
      assert j != i ==> !(blocks[i].path <= blocks[j].path);
    }
    assert changed == after;
  }

  lemma ItemIsRead(before: seq<Item>, item: Item)
    requires Proper(before) && ItemFits(before, item)
    ensures ReadLine(TreeOf(before), Line(item)) == Some(TreeOf(before + [item]))
  {
    match item {
      case Block(path, end) =>
        BlockLine(path, end);
        BlockIsAdded(before, item);
      case Allow(block, q, end) =>
        PathsFit(before);
        AllowLine(block, q, end);
        AllowIsAdded(before, item);
      case Ignored(_) =>
        SameTree(before, item);
    }
  }

  /** Whatever the file says, in whatever order, the blocks get the trees of their lines. */
  lemma {:induction false} ConfigIsRead(items: seq<Item>)
    requires Proper(items)
    ensures ReadLines(Lines(items)) == Some(TreeOf(items))
  {
    if items != [] {
      var before, last := items[..|items| - 1], items[|items| - 1];
      ConfigIsRead(before);
      assert Lines(items)[..|items| - 1] == Lines(before);
      assert before + [last] == items;
      ItemIsRead(before, last);
    }
  }

  lemma SameTree(before: seq<Item>, item: Item)
    requires item.Ignored?
    ensures TreeOf(before + [item]) == TreeOf(before)
  {
    var all := before + [item];
    assert all[..|all| - 1] == before;
    assert Paths(all) == Paths(before) + [] == Paths(before);
    forall j | 0 <= j < |TreeOf(all)| ensures TreeOf(all)[j] == TreeOf(before)[j] {
      LinesOfOther(before, item, Paths(all)[j]);
    }
  }

  /** All trees are well shaped and all block paths plain. */
  predicate Shaped(items: seq<Item>) {
    forall b <- TreeOf(items) :: PlainText(b.path) && WellShaped(b.children) && Named(b.children)
  }

  lemma ShapedBlocks(items: seq<Item>)
    requires Proper(items) && Shaped(items)
    ensures BlocksApart(TreeOf(items))
  {
    ApartInTree(items);
  }

  /** The rules that the script prints for a file, before sorting. */
  function RulesOf(items: seq<Item>): seq<string>
    requires Shaped(items)
  {
    AddAll([], BlockRules(TreeOf(items), |TreeOf(items)|))
  }

  /** The rules say about the paths below block i what the file says. */
  ghost predicate RightBelow(rules: seq<string>, items: seq<Item>, i: nat)
    requires i < |Paths(items)|
  {
    forall q | PathBelow(q) ::
      Denies(rules, Paths(items)[i] + Suffix(q)) <==> DeniedBy(LinesOf(items, Paths(items)[i]), q)
  }

  lemma RightBelowExactlyWhen(items: seq<Item>, i: nat)
    requires Proper(items) && Shaped(items) && i < |Paths(items)|
    ensures RightBelow(RulesOf(items), items, i) <==> Harmless(TreeOf(items)[i].children)
  {
    ShapedBlocks(items);
    GeneratedRulesDenyExactlyWhen(TreeOf(items), i, LinesOf(items, Paths(items)[i]));
  }

  /**
   * The whole script: for every proper file, its rules agree with what the file says about
   * every path below every block if and only if no dash in a class makes a range of others.
   */
  lemma ScriptIsRightExactlyWhen(items: seq<Item>)
    requires Proper(items) && Shaped(items)
    ensures (forall i | 0 <= i < |Paths(items)| :: RightBelow(RulesOf(items), items, i))
            <==> forall i | 0 <= i < |Paths(items)| :: Harmless(TreeOf(items)[i].children)
  {
    forall i | 0 <= i < |Paths(items)|
      ensures RightBelow(RulesOf(items), items, i) <==> Harmless(TreeOf(items)[i].children)
    {
      RightBelowExactlyWhen(items, i);
    }
  }

  // ---- where the script breaks off -------------------------------------------------------

  /** What an allow line inserts into the tree of its block. */
  function Inserted(blocks: seq<Node>, line: string): Option<seq<string>> {
    var parts := Split(line, ' ');
    if "#" <= line || |parts| != 2 || parts[0] != "allow" then None
    else
      var i := FindBlock(blocks, parts[1]);
      if i == |blocks| then None else Some(Components(parts[1][|blocks[i].path|..]))
  }

  /** Line n of the file has an empty component. */
  predicate EmptyAt(lines: seq<string>, n: nat)
    requires n < |lines|
  {
    var before := ReadLines(lines[..n]);
    before.Some? && var q := Inserted(before.value, lines[n]); q.Some? && "" in q.value
  }

  lemma BlockKeepsNames(blocks: seq<Node>, path: string)
    ensures AllNamed(WithBlock(blocks, path)) <==> AllNamed(blocks)
  {
    var b := Node(Strip(path), []);
    assert Named(b.children);
    assert forall x :: x in blocks + [b] <==> x in blocks || x == b;
  }

  lemma AllowKeepsNames(blocks: seq<Node>, path: string)
    requires WithAllow(blocks, path).Some?
    ensures var q := Components(path[|blocks[FindBlock(blocks, path)].path|..]);
      AllNamed(WithAllow(blocks, path).value) <==> AllNamed(blocks) && "" !in q
  {
    var i := FindBlock(blocks, path);
    var b := blocks[i];
    var q := Components(path[|b.path|..]);
    InsertNamed(b.children, q);
    ReplacedNames(blocks, i, Node(b.path, Insert(b.children, q)));
    assert b in blocks;
  }

  lemma ReplacedNames(blocks: seq<Node>, i: nat, c: Node)
    requires i < |blocks| && (Named(c.children) ==> Named(blocks[i].children))
    ensures AllNamed(blocks[i := c]) <==> AllNamed(blocks) && Named(c.children)
  {
    var r := blocks[i := c];
    if AllNamed(r) {
      assert r[i] == c;
      forall b | b in blocks ensures Named(b.children) {
        var j :| 0 <= j < |blocks| && blocks[j] == b;
        assert j != i ==> r[j] == b;
      }
    }
  }

  lemma LineKeepsNames(blocks: seq<Node>, line: string)
    requires ReadLine(blocks, line).Some?
    ensures var q := Inserted(blocks, line);
      AllNamed(ReadLine(blocks, line).value) <==> AllNamed(blocks) && !(q.Some? && "" in q.value)
  {
    var parts := Split(line, ' ');
    if !("#" <= line) && |parts| == 2 {
      if parts[0] == "block" {
        BlockKeepsNames(blocks, parts[1]);
      } else {
        AllowKeepsNames(blocks, parts[1]);
      }
    }
  }

  /** The trees have names everywhere exactly if no allow line has an empty component. */
  lemma {:induction false} NamedExactlyWhen(lines: seq<string>)
    requires ReadLines(lines).Some?
    ensures AllNamed(ReadLines(lines).value) <==> forall n | 0 <= n < |lines| :: !EmptyAt(lines, n)
  {
    if lines != [] {
      var m := |lines| - 1;
      var before := lines[..m];
      NamedExactlyWhen(before);
      LineKeepsNames(ReadLines(before).value, lines[m]);
      forall n | 0 <= n < m ensures EmptyAt(before, n) <==> EmptyAt(lines, n) {
        assert before[..n] == lines[..n] && before[n] == lines[n];
      }
      var q := Inserted(ReadLines(before).value, lines[m]);
      assert EmptyAt(lines, m) <==> q.Some? && "" in q.value;
    }
  }

  lemma SlashLine(block: string, q: seq<string>, end: string)
    requires Word(block) && Written(q) && EndOfLine(end)
    ensures var line := "allow" + " " + (block + (Suffix(q) + "/" + end));
      !("#" <= line) && Split(line, ' ') == ["allow", block + (Suffix(q) + "/" + end)]
  {
    assert ("allow" + " " + (block + (Suffix(q) + "/" + end)))[0] == 'a' && "#"[0] == '#';
    NoBlankIn(block);
    SuffixHasNoSpace(q);
    NoBlankIn(Suffix(q));
    SplitTwo("allow", block + (Suffix(q) + "/" + end));
  }

  lemma SlashMakesEmpty(q: seq<string>, end: string)
    requires q != [] && Written(q) && AllSpace(end)
    ensures "" in Components(Suffix(q) + "/" + end)
  {
    var text := Suffix(q) + "/";
    SuffixHasNoSpace(q);
    StripEnd(text, end);
    var p := q[0] + Suffix(q[1..]) + "/";
    assert q[0] in q && text == "/" + p && p[0] != '/';
    assert text[1..] == p && DropSlashes(text) == DropSlashes(p) == p;
    assert NoSpace(p) by { assert forall i | 0 <= i < |p| :: p[i] == text[i + 1]; }
    EmptyComponentExactlyWhen(p);
  }

  lemma OneBlockIsProper(path: string, end: string)
    requires Word(path) && EndOfLine(end)
    ensures Proper([Block(path, end)]) && Paths([Block(path, end)]) == [path]
  {
    var items := [Block(path, end)];
    assert items[..|items| - 1] == [] && Proper([]) && Paths([]) == [];
    assert ItemFits([], Block(path, end));
  }

  /** A block and an allow line below it that ends in a slash: the file is read, and no rules come out. */
  lemma TrailingSlashBreaksOff(block: string, q: seq<string>, end: string)
    requires Word(block) && q != [] && Written(q) && EndOfLine(end)
    ensures var lines := [Line(Block(block, end)), "allow" + " " + (block + (Suffix(q) + "/" + end))];
      ReadLines(lines).Some? && EmptyAt(lines, 1)
  {
    var items, text := [Block(block, end)], Suffix(q) + "/" + end;
    var lines := [Line(Block(block, end)), "allow" + " " + (block + text)];
    OneBlockIsProper(block, end);
    ConfigIsRead(items);
    assert lines[..1] == Lines(items);
    var blocks := TreeOf(items);
    assert |blocks| == 1 && blocks[0].path == block;
    SlashLine(block, q, end);
    assert (block + text)[|block|..] == text && block <= block + text;
    assert FindBlock(blocks, block + text) == 0;
    SlashMakesEmpty(q, end);
  }

  /**
   * main() up to sorting and printing; None is an exit with status 1 or the exception.
   * Every file that is read is carried through exactly if no allow line has an empty
   * component.  For a proper file the rules agree with the file exactly if no dash among
   * the next characters of sibling names makes a range of others.
   */
  method Script(lines: seq<string>, ghost items: seq<Item>) returns (rules: Option<seq<string>>)
    ensures rules.Some? <==> ReadLines(lines).Some? && forall n | 0 <= n < |lines| :: !EmptyAt(lines, n)
    ensures rules.Some? ==>
      var blocks := ReadLines(lines).value;
      AllNamed(blocks) && rules.value == AddAll([], BlockRules(blocks, |blocks|))
    ensures lines == Lines(items) && Proper(items) && Shaped(items) ==>
      && rules.Some?
      && ((forall i | 0 <= i < |Paths(items)| :: RightBelow(rules.value, items, i))
          <==> forall i | 0 <= i < |Paths(items)| :: Harmless(TreeOf(items)[i].children))
  {
    ProperIsRight(lines, items);
    var g := new Generator();
    var ok := ReadConfig(g, lines);
    if !ok {
      return None;
    }
    NamedExactlyWhen(lines);
    ok := g.Generate();
    if !ok {
      return None;
    }
    rules := Some(g.denies);
  }

  lemma ProperIsRight(lines: seq<string>, items: seq<Item>)
    ensures lines == Lines(items) && Proper(items) && Shaped(items) ==>
      && ReadLines(lines) == Some(TreeOf(items)) && AllNamed(TreeOf(items))
      && RulesOf(items) == AddAll([], BlockRules(TreeOf(items), |TreeOf(items)|))
      && ((forall i | 0 <= i < |Paths(items)| :: RightBelow(RulesOf(items), items, i))
          <==> forall i | 0 <= i < |Paths(items)| :: Harmless(TreeOf(items)[i].children))
  {
    if lines == Lines(items) && Proper(items) && Shaped(items) {
      ConfigIsRead(items);
      ScriptIsRightExactlyWhen(items);
    }
  }
}
