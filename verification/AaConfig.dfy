/** How the generator reads the paths in its configuration lines. */
module AaConfig {
  import opened AaGlob
  import opened AaTrie
  import opened Libc

  /** str.strip() */
  function Strip(s: string): string {
    if s != "" && IsSpace(s[0]) then Strip(s[1..])
    else if s != "" && IsSpace(s[|s| - 1]) then Strip(s[..|s| - 1])
    else s
  }

  function DropSlashes(s: string): string {
    if s != "" && s[0] == '/' then DropSlashes(s[1..]) else s
  }

  /** str.split() at a given character */
  function Split(s: string, sep: char): seq<string> {
    var n := Until(s, sep);
    if n == |s| then [s] else [s[..n]] + Split(s[n + 1..], sep)
  }

  function StripAll(parts: seq<string>): (r: seq<string>)
    ensures |r| == |parts|
  {
    seq(|parts|, i requires 0 <= i < |parts| => Strip(parts[i]))
  }

  /** The path components of what follows the block in an allow line. */
  function Components(text: string): seq<string> {
    StripAll(Split(DropSlashes(Strip(text)), '/'))
  }

  /** The first block that the path properly extends, or |blocks|. */
  function FindBlock(blocks: seq<Node>, path: string): (i: nat)
    ensures i <= |blocks|
    ensures i < |blocks| ==> |path| > |blocks[i].path| && blocks[i].path <= path
    ensures forall j | 0 <= j < i :: !(|path| > |blocks[j].path| && blocks[j].path <= path)
  {
    if blocks == [] || (|path| > |blocks[0].path| && blocks[0].path <= path) then 0
    else 1 + FindBlock(blocks[1..], path)
  }

  // ---- empty components ------------------------------------------------------------

  /** Two slashes meet. */
  predicate DoubleSlash(p: string) { exists i | 0 <= i < |p| - 1 :: p[i] == '/' && p[i + 1] == '/' }

  lemma {:induction false} SplitHasEmpty(p: string)
    ensures "" in Split(p, '/') <==> p == "" || p[0] == '/' || p[|p| - 1] == '/' || DoubleSlash(p)
  {
    var n := Until(p, '/');
    if n < |p| {
      var rest := p[n + 1..];
      SplitHasEmpty(rest);
      EmptyAhead(p, n);
      assert "" in Split(p, '/') <==> n == 0 || "" in Split(rest, '/');
    } else {
      assert Split(p, '/') == [p] && forall i | 0 <= i < |p| :: p[..n][i] != '/';
    }
  }

  /** What is found behind the first slash, and the slash itself. */
  lemma EmptyAhead(p: string, n: nat)
    requires n < |p| && p[n] == '/' && '/' !in p[..n]
    ensures var rest := p[n + 1..];
      (p[0] == '/' || p[|p| - 1] == '/' || DoubleSlash(p)) <==>
      (n == 0 || rest == "" || rest[0] == '/' || rest[|rest| - 1] == '/' || DoubleSlash(rest))
  {
    var rest := p[n + 1..];
    assert forall i | 0 <= i < n :: p[..n][i] == p[i] != '/';
    if i :| 0 <= i < |p| - 1 && p[i] == '/' && p[i + 1] == '/' {
      assert i == n ==> rest[0] == '/';
      assert i > n ==> rest[i - n - 1] == '/' && rest[i - n] == '/';
    }
    if i :| 0 <= i < |rest| - 1 && rest[i] == '/' && rest[i + 1] == '/' {
      assert p[n + 1 + i] == '/' && p[n + 1 + i + 1] == '/';
    }
    if rest != "" && rest[0] == '/' { assert p[n] == '/' && p[n + 1] == '/'; }
  }

  lemma {:induction false} PartsHaveNoSpace(p: string)
    requires NoSpace(p)
    ensures forall w <- Split(p, '/') :: NoSpace(w)
  {
    var n := Until(p, '/');
    if n < |p| { PartsHaveNoSpace(p[n + 1..]); }
  }

  lemma NothingToStrip(w: string)
    requires NoSpace(w)
    ensures Strip(w) == w
  {
  }

  /**
   * What remains of an allow line behind its block and its leading slashes has an empty
   * component exactly if nothing remains, it ends in a slash, or two slashes meet in it.
   */
  lemma EmptyComponentExactlyWhen(p: string)
    requires NoSpace(p) && (p == "" || p[0] != '/')
    ensures "" in StripAll(Split(p, '/')) <==> p == "" || p[|p| - 1] == '/' || DoubleSlash(p)
  {
    PartsHaveNoSpace(p);
    forall i | 0 <= i < |Split(p, '/')| ensures StripAll(Split(p, '/'))[i] == Split(p, '/')[i] {
      NothingToStrip(Split(p, '/')[i]);
    }
    assert StripAll(Split(p, '/')) == Split(p, '/');
    SplitHasEmpty(p);
  }

  // ---- a written path reads back ---------------------------------------------------

  predicate NoSpace(w: string) { forall i | 0 <= i < |w| :: !IsSpace(w[i]) }

  predicate AllSpace(w: string) { forall i | 0 <= i < |w| :: IsSpace(w[i]) }

  lemma {:induction false} StripEnd(s: string, space: string)
    requires s != "" && NoSpace(s) && AllSpace(space)
    ensures Strip(s + space) == s
    decreases |space|
  {
    var t := s + space;
    assert t[0] == s[0];
    if space == "" {
      assert t == s && t[|t| - 1] == s[|s| - 1];
    } else {
      assert t[|t| - 1] == space[|space| - 1];
      assert t[..|t| - 1] == s + space[..|space| - 1];
      StripEnd(s, space[..|space| - 1]);
    }
  }

  predicate Written(q: seq<string>) { forall w <- q :: Component(w) && NoSpace(w) }

  lemma {:induction false} SuffixHasNoSpace(q: seq<string>)
    requires Written(q)
    ensures NoSpace(Suffix(q))
  {
    if q != [] {
      assert q[0] in q;
      SuffixHasNoSpace(q[1..]);
    }
  }

  lemma SplitFirst(w: string, rest: string)
    requires '/' !in w && AtComponentEnd(rest)
    ensures Split(w + rest, '/') == if rest == "" then [w] else [w] + Split(rest[1..], '/')
  {
    var s := w + rest;
    UntilStop(w, rest, '/');
    assert s[..|w|] == w;
    if rest != "" {
      assert s[|w| + 1..] == rest[1..];
    } else {
      assert s == w;
    }
  }

  lemma {:induction false} SplitSuffix(q: seq<string>)
    requires q != [] && PathBelow(q)
    ensures Split(q[0] + Suffix(q[1..]), '/') == q
  {
    var w, rest := q[0], q[1..];
    assert w in q && q == [w] + rest;
    SplitFirst(w, Suffix(rest));
    if rest != [] {
      AfterSlash(rest);
      SplitSuffix(rest);
    }
  }

  lemma AfterSlash(q: seq<string>)
    requires q != []
    ensures Suffix(q)[1..] == q[0] + Suffix(q[1..])
  {
  }

  lemma StripAllWritten(q: seq<string>)
    requires Written(q)
    ensures StripAll(q) == q
  {
    forall i | 0 <= i < |q| ensures Strip(q[i]) == q[i] {
      assert q[i] in q && q[i] + "" == q[i];
      StripEnd(q[i], "");
    }
  }

  lemma DropOneSlash(w: string, rest: string)
    requires Component(w)
    ensures DropSlashes("/" + w + rest) == w + rest
  {
    var s := "/" + w + rest;
    assert s[1..] == w + rest;
    assert (w + rest)[0] == w[0];
  }

  /** A path written below a block reads back as its components. */
  lemma ComponentsReadBack(q: seq<string>, space: string)
    requires q != [] && Written(q) && AllSpace(space)
    ensures Components(Suffix(q) + space) == q
  {
    assert q[0] in q;
    SuffixHasNoSpace(q);
    StripEnd(Suffix(q), space);
    DropOneSlash(q[0], Suffix(q[1..]));
    SplitSuffix(q);
    StripAllWritten(q);
  }
}
