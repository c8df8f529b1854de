// The fragment of AppArmor's glob language that the rule generator writes:
// `?`, `*` and `[^...]` stay inside one path component, `**` does not, and a
// rule may end in an optional slash followed by anything.
module AaGlob {

  datatype Token = Lit(c: char) | NotIn(chars: string) | Any | Star | StarStar | OptTree

  /** A glob as AppArmor's parser reads its text. */
  function Lex(s: string): seq<Token> {
    if s == "" then []
    else if "{,/**}" <= s then [OptTree] + Lex(s[6..])
    else if "**" <= s then [StarStar] + Lex(s[2..])
    else if s[0] == '*' then [Star] + Lex(s[1..])
    else if s[0] == '?' then [Any] + Lex(s[1..])
    else if s[0] == '\\' && |s| > 1 then [Lit(s[1])] + Lex(s[2..])
    else if "[^" <= s && Until(s[2..], ']') < |s| - 2 then
      var n := Until(s[2..], ']');
      [NotIn(s[2..][..n])] + Lex(s[n + 3..])
    else [Lit(s[0])] + Lex(s[1..])
  }

  /** A class lists characters and ranges; a dash at either end stands for itself. */
  predicate InClass(cs: string, ch: char) {
    if cs == "" then false
    else if |cs| >= 3 && cs[1] == '-' then cs[0] <= ch <= cs[2] || InClass(cs[3..], ch)
    else cs[0] == ch || InClass(cs[1..], ch)
  }

  /** How many characters precede the first occurrence of stop. */
  function Until(s: string, stop: char): (n: nat)
    ensures n <= |s|
    ensures stop !in s[..n] && (n < |s| ==> s[n] == stop)
  {
    if s == "" || s[0] == stop then 0 else 1 + Until(s[1..], stop)
  }

  predicate Matches(ts: seq<Token>, p: string)
    decreases |ts| + |p|
  {
    if ts == [] then p == ""
    else match ts[0]
      case Lit(c) => p != "" && p[0] == c && Matches(ts[1..], p[1..])
      case NotIn(cs) => p != "" && p[0] != '/' && !InClass(cs, p[0]) && Matches(ts[1..], p[1..])
      case Any => p != "" && p[0] != '/' && Matches(ts[1..], p[1..])
      case Star => Matches(ts[1..], p) || (p != "" && p[0] != '/' && Matches(ts, p[1..]))
      case StarStar => Matches(ts[1..], p) || (p != "" && Matches(ts, p[1..]))
      case OptTree =>
        Matches(ts[1..], p) || (p != "" && p[0] == '/' && Matches([StarStar] + ts[1..], p[1..]))
  }

  /** A deny rule as the script prints it, applied to a path. */
  predicate Blocks(rule: string, path: string) {
    |rule| >= 11 && rule[..5] == "deny " && rule[|rule| - 6..] == " wklx,"
    && Matches(Lex(rule[5..|rule| - 6]), path)
  }

  function DenyRule(glob: string): string { "deny " + glob + " wklx," }

  lemma DenyRuleBlocks(glob: string, path: string)
    ensures Blocks(DenyRule(glob), path) <==> Matches(Lex(glob), path)
  {
    var r := DenyRule(glob);
    assert r[5..|r| - 6] == glob && r[..5] == "deny " && r[|r| - 6..] == " wklx,";
  }

  // ---- plain text lexes to itself -----------------------------------------

  predicate PlainChar(c: char) { c !in "*?[]{\\" }

  predicate PlainText(s: string) { forall i | 0 <= i < |s| :: PlainChar(s[i]) }

  function Lits(s: string): (r: seq<Token>)
    ensures |r| == |s|
  {
    seq(|s|, i requires 0 <= i < |s| => Lit(s[i]))
  }

  lemma LexLit(c: char, rest: string)
    requires PlainChar(c)
    ensures Lex([c] + rest) == [Lit(c)] + Lex(rest)
  {
    var s := [c] + rest;
    assert s[0] == c && s[1..] == rest;
    assert !("{,/**}" <= s) by { assert "{,/**}"[0] == '{'; }
    assert !("**" <= s) by { assert "**"[0] == '*'; }
    assert !("[^" <= s) by { assert "[^"[0] == '['; }
  }

  lemma LitsCons(s: string, ts: seq<Token>)
    requires s != ""
    ensures [Lit(s[0])] + (Lits(s[1..]) + ts) == Lits(s) + ts
  {
    assert Lits(s) == [Lit(s[0])] + Lits(s[1..]);
  }

  lemma {:induction false} LexPlain(s: string, rest: string)
    requires PlainText(s)
    ensures Lex(s + rest) == Lits(s) + Lex(rest)
  {
    if s == "" {
      assert s + rest == rest && Lits(s) == [];
    } else {
      var t := s[1..] + rest;
      assert s + rest == [s[0]] + t;
      assert PlainChar(s[0]);
      LexPlain(s[1..], rest);
      LitsCons(s, Lex(rest));
      LexLit(s[0], t);
    }
  }

  lemma {:induction false} UntilStop(w: string, rest: string, stop: char)
    requires stop !in w && (rest == "" || rest[0] == stop)
    ensures Until(w + rest, stop) == |w|
  {
    if w != "" {
      assert (w + rest)[1..] == w[1..] + rest;
      UntilStop(w[1..], rest, stop);
    } else {
      assert w + rest == rest;
    }
  }

  lemma LexBracket(x: string, rest: string)
    requires ']' !in x
    ensures Lex("[^" + x + "]" + rest) == [NotIn(x)] + Lex(rest)
  {
    var s := "[^" + x + "]" + rest;
    BracketText(x, rest);
    UntilStop(x, "]" + rest, ']');
    assert s[0] == '[' && s[..2] == "[^";
  }

  lemma BracketText(x: string, rest: string)
    ensures var s := "[^" + x + "]" + rest;
      s[2..] == x + ("]" + rest) && s[2..][..|x|] == x && s[|x| + 3..] == rest
  {
  }

  lemma LexStar(rest: string)
    requires rest == "" || rest[0] != '*'
    ensures Lex("*" + rest) == [Star] + Lex(rest)
  {
    var s := "*" + rest;
    assert s[0] == '*' && s[1..] == rest;
    assert !("{,/**}" <= s) by { assert "{,/**}"[0] == '{'; }
    assert !("**" <= s) by { assert "**"[1] == '*'; }
  }

  lemma LexAny(rest: string)
    ensures Lex("?" + rest) == [Any] + Lex(rest)
  {
    var s := "?" + rest;
    assert s[0] == '?' && s[1..] == rest;
    assert !("{,/**}" <= s) by { assert "{,/**}"[0] == '{'; }
    assert !("**" <= s) by { assert "**"[0] == '*'; }
  }

  lemma LexStarTree()
    ensures Lex("*{,/**}") == [Star, OptTree]
  {
    LexStar("{,/**}");
    assert "{,/**}"[6..] == "" && Lex("{,/**}") == [OptTree] + Lex("");
    assert "*{,/**}" == "*" + "{,/**}";
  }

  // The tail of a rule that forbids certain characters at one position.
  lemma LexCharTail(x: string)
    requires ']' !in x
    ensures Lex("[^" + x + "]*{,/**}") == [NotIn(x), Star, OptTree]
  {
    LexBracket(x, "*{,/**}");
    LexStarTree();
    assert "[^" + x + "]*{,/**}" == "[^" + x + "]" + "*{,/**}";
  }

  // The tail of a rule for components that extend a name.
  lemma LexLongerTail()
    ensures Lex("?*{,/**}") == [Any, Star, OptTree]
  {
    LexStarTree();
    LexAny("*{,/**}");
    assert "?*{,/**}" == "?" + "*{,/**}";
  }

  // The tail of a rule for everything below a name that ends in a star.
  lemma LexBelowTail()
    ensures Lex("*/**") == [Star, Lit('/'), StarStar]
  {
    assert !("{,/**}" <= "**");
    assert "**"[2..] == "" && Lex("**") == [StarStar] + Lex("");
    LexLit('/', "**");
    LexStar("/**");
    assert "/**" == ['/'] + "**" && "*/**" == "*" + "/**";
  }

  // ---- classes that mean what they list ------------------------------------

  /** Read as a class, the characters stand for themselves and for no others. */
  ghost predicate Literal(cs: string) {
    forall ch: char | ch != '/' :: InClass(cs, ch) <==> ch in cs
  }

  predicate Distinct(cs: string) { forall i, j | 0 <= i < j < |cs| :: cs[i] != cs[j] }

  lemma {:induction false} NoInnerDash(cs: string, ch: char)
    requires forall i | 0 < i < |cs| - 1 :: cs[i] != '-'
    ensures InClass(cs, ch) <==> ch in cs
  {
    if cs != "" {
      NoInnerDash(cs[1..], ch);
      assert ch in cs <==> ch == cs[0] || ch in cs[1..];
    }
  }

  lemma {:induction false} InnerDash(cs: string, i: nat, ch: char)
    requires Distinct(cs) && 0 < i < |cs| - 1 && cs[i] == '-'
    ensures InClass(cs, ch) <==> ch in cs[..i - 1] || cs[i - 1] <= ch <= cs[i + 1] || ch in cs[i + 2..]
  {
    if i == 1 {
      NoInnerDash(cs[3..], ch);
    } else {
      InnerDash(cs[1..], i - 1, ch);
      WithoutFirst(cs, i - 1, i + 2);
    }
  }

  lemma WithoutFirst(cs: string, m: nat, n: nat)
    requires 0 < m <= n <= |cs|
    ensures cs[..m] == [cs[0]] + cs[1..][..m - 1] && cs[n..] == cs[1..][n - 1..]
  {
  }

  /** A dash inside makes a range, which must hold itself and nothing that is not listed. */
  predicate HarmlessRange(cs: string, i: nat)
    requires 0 < i < |cs| - 1
  {
    cs[i - 1] <= '-' <= cs[i + 1] && forall ch: char | cs[i - 1] <= ch <= cs[i + 1] && ch != '/' :: ch in cs
  }

  predicate NoOtherRange(cs: string) { forall i | 0 < i < |cs| - 1 && cs[i] == '-' :: HarmlessRange(cs, i) }

  /** Characters in a row are read literally unless a dash inside makes a range of them. */
  lemma LiteralExactlyWhen(cs: string)
    requires Distinct(cs) && '/' !in cs
    ensures Literal(cs) <==> NoOtherRange(cs)
  {
    if i :| 0 < i < |cs| - 1 && cs[i] == '-' {
      assert cs == cs[..i - 1] + [cs[i - 1], '-', cs[i + 1]] + cs[i + 2..];
      forall ch: char
        ensures InClass(cs, ch) <==> ch in cs[..i - 1] || cs[i - 1] <= ch <= cs[i + 1] || ch in cs[i + 2..]
      {
        InnerDash(cs, i, ch);
      }
      OnlyDash(cs, i);
    } else {
      forall ch: char ensures InClass(cs, ch) <==> ch in cs { NoInnerDash(cs, ch); }
    }
  }

  lemma OnlyDash(cs: string, i: nat)
    requires Distinct(cs) && 0 < i < |cs| - 1 && cs[i] == '-'
    requires forall ch: char ::
      InClass(cs, ch) <==> ch in cs[..i - 1] || cs[i - 1] <= ch <= cs[i + 1] || ch in cs[i + 2..]
    requires cs == cs[..i - 1] + [cs[i - 1], '-', cs[i + 1]] + cs[i + 2..] && '/' !in cs
    ensures Literal(cs) <==> HarmlessRange(cs, i)
    ensures forall j | 0 <= j < |cs| && cs[j] == '-' :: j == i
  {
    if Literal(cs) {
      assert InClass(cs, '-');
      forall ch: char | cs[i - 1] <= ch <= cs[i + 1] && ch != '/' ensures ch in cs { assert InClass(cs, ch); }
    }
  }

  // ---- matching -------------------------------------------------------------

  lemma {:induction false} MatchLits(t: string, ts: seq<Token>, p: string)
    ensures Matches(Lits(t) + ts, p) <==> t <= p && Matches(ts, p[|t|..])
  {
    if t == "" {
      assert Lits(t) + ts == ts && p[0..] == p;
    } else {
      assert (Lits(t) + ts)[1..] == Lits(t[1..]) + ts;
      if p != "" && p[0] == t[0] {
        MatchLits(t[1..], ts, p[1..]);
        assert t <= p <==> t[1..] <= p[1..];
        if t <= p { assert p[1..][|t| - 1..] == p[|t|..]; }
      }
    }
  }

  lemma {:induction false} StarStarMatchesAll(p: string)
    ensures Matches([StarStar], p)
  {
    if p != "" { StarStarMatchesAll(p[1..]); }
  }

  /** What follows one component of a path: nothing, or a slash and more. */
  predicate AtComponentEnd(p: string) { p == "" || p[0] == '/' }

  lemma OptTreeMatches(p: string)
    requires AtComponentEnd(p)
    ensures Matches([OptTree], p)
  {
    assert [StarStar] + [OptTree][1..] == [StarStar];
    if p != "" { StarStarMatchesAll(p[1..]); }
  }

  lemma {:induction false} StarTreeMatches(w: string, p: string)
    requires '/' !in w && AtComponentEnd(p)
    ensures Matches([Star, OptTree], w + p)
  {
    if w == "" {
      OptTreeMatches(p);
      assert w + p == p;
    } else {
      assert (w + p)[1..] == w[1..] + p;
      StarTreeMatches(w[1..], p);
    }
  }

  lemma {:induction false} StarBelowMatches(w: string, p: string)
    requires '/' !in w && AtComponentEnd(p)
    ensures Matches([Star, Lit('/'), StarStar], w + p) <==> p != ""
  {
    if w == "" {
      assert w + p == p;
      if p != "" { StarStarMatchesAll(p[1..]); }
    } else {
      assert (w + p)[1..] == w[1..] + p;
      StarBelowMatches(w[1..], p);
    }
  }
}
