/**
 * Parsing of id map entries such as "u 1000 1000000 65536": parse_idmaps(), and
 * lxc_safe_ulong() with the number formats of strtoul().
 */
module IdMap {
  import opened Libc

  const ULONG_MAX: nat := 0xFFFF_FFFF_FFFF_FFFF

  datatype Map = Map(kind: char, nsid: nat, hostid: nat, range: nat)

  // ---- numbers ----

  /** The value of a digit, or 99. */
  function Digit(c: char): nat {
    if '0' <= c <= '9' then (c - '0') as nat
    else if 'a' <= c <= 'f' then (c - 'a') as nat + 10
    else if 'A' <= c <= 'F' then (c - 'A') as nat + 10
    else 99
  }

  type Base = b: nat | b == 8 || b == 10 || b == 16 witness 10

  /** How many digits of the base the string begins with. */
  function Digits(s: string, base: Base): (n: nat)
    ensures n <= |s|
  {
    if s == "" || Digit(s[0]) >= base then 0 else 1 + Digits(s[1..], base)
  }

  function Scaled(v: nat, base: Base): nat {
    if base == 8 then 8 * v else if base == 10 then 10 * v else 16 * v
  }

  function Value(s: string, base: Base): nat {
    if s == "" then 0 else Scaled(Value(s[..|s| - 1], base), base) + Digit(s[|s| - 1])
  }

  /** strtoul() with base 0 after the sign: a prefix 0x or 0 chooses the base. */
  function Magnitude(s: string): Result<nat> {
    if IsHex(s) then InBase(s[2..], 16) else InBase(s, if s != "" && s[0] == '0' then 8 else 10)
  }

  predicate IsHex(s: string) {
    |s| >= 3 && s[0] == '0' && (s[1] == 'x' || s[1] == 'X') && Digit(s[2]) < 16
  }

  function InBase(text: string, base: Base): Result<nat> {
    var n := Digits(text, base);
    if Value(text[..n], base) > ULONG_MAX then Err(ERANGE)
    else if n == 0 || n < |text| then Err(EINVAL)
    else Ok(Value(text, base))
  }

  function Spaces(s: string): (n: nat)
    ensures n <= |s|
  {
    if s == "" || !IsSpace(s[0]) then 0 else 1 + Spaces(s[1..])
  }

  /** lxc_safe_ulong(): white space is skipped, a minus sign refused. */
  function SafeUlong(s: string): Result<nat> {
    Signed(s[Spaces(s)..])
  }

  function Signed(s: string): Result<nat> {
    if s != "" && s[0] == '-' then Err(EINVAL)
    else Magnitude(if s != "" && s[0] == '+' then s[1..] else s)
  }

  /** How printf() writes a number with %lu. */
  function Decimal(n: nat): (s: string)
    ensures s != ""
    ensures forall i | 0 <= i < |s| :: '0' <= s[i] <= '9'
    ensures n > 0 ==> s[0] != '0'
  {
    var d := ['0' + (n % 10) as char];
    if n < 10 then d else Decimal(n / 10) + d
  }

  lemma {:induction false} DigitsAll(s: string, base: Base)
    requires forall i | 0 <= i < |s| :: Digit(s[i]) < base
    ensures Digits(s, base) == |s|
  {
    if s != "" { DigitsAll(s[1..], base); }
  }

  lemma {:induction false} ValueOfDecimal(n: nat)
    ensures Value(Decimal(n), 10) == n
  {
    var s := Decimal(n);
    var d := n % 10;
    assert Digit('0' + d as char) == d;
    if n >= 10 {
      ValueOfDecimal(n / 10);
      assert s[..|s| - 1] == Decimal(n / 10) && s[|s| - 1] == '0' + d as char;
    } else {
      assert s[..0] == "";
      assert Value(s[..0], 10) == 0;
    }
  }

  lemma ZeroReadsBack()
    ensures Decimal(0) == "0" && Magnitude("0") == Ok(0)
  {
    DigitsAll("0", 8);
    assert "0"[..1] == "0" && "0"[..0] == "";
    assert Value("0", 8) == Scaled(Value("0"[..0], 8), 8) + Digit('0');
  }

  lemma PositiveReadsBack(n: nat)
    requires n > 0
    ensures Magnitude(Decimal(n)) == if n <= ULONG_MAX then Ok(n) else Err(ERANGE)
  {
    var s := Decimal(n);
    ValueOfDecimal(n);
    DigitsAll(s, 10);
    assert s[..|s|] == s;
  }

  lemma DigitFirst(s: string)
    requires s != "" && '0' <= s[0] <= '9'
    ensures SafeUlong(s) == Magnitude(s)
  {
  }

  /** Reading back what was printed. */
  lemma DecimalReadsBack(n: nat)
    ensures SafeUlong(Decimal(n)) == if n <= ULONG_MAX then Ok(n) else Err(ERANGE)
  {
    DigitFirst(Decimal(n));
    if n == 0 {
      ZeroReadsBack();
    } else {
      PositiveReadsBack(n);
    }
  }

  /** The digits in either case. */
  function DigitChar(d: nat, upper: bool): char
    requires d < 16
  {
    if upper then "0123456789ABCDEF"[d] else "0123456789abcdef"[d]
  }

  lemma DigitIsRead(d: nat, upper: bool)
    requires d < 16
    ensures Digit(DigitChar(d, upper)) == d
  {
  }

  /** How printf() writes a number with %lo, %lx or %lX. */
  function Numeral(n: nat, base: Base, upper: bool): (s: string)
    ensures s != ""
  {
    var d := [DigitChar(n % base, upper)];
    if n < base then d else Numeral(Tenth(n, base), base, upper) + d
  }

  function Tenth(n: nat, base: Base): (t: nat)
    ensures n >= base ==> t < n
    ensures Scaled(t, base) + n % base == n
  {
    if base == 8 then n / 8 else if base == 10 then n / 10 else n / 16
  }

  lemma {:induction false} NumeralHasDigits(n: nat, base: Base, upper: bool)
    ensures var s := Numeral(n, base, upper); Digit(s[0]) < base && Digits(s, base) == |s|
  {
    var s, d := Numeral(n, base, upper), n % base;
    DigitIsRead(d, upper);
    if n >= base {
      var t := Numeral(Tenth(n, base), base, upper);
      NumeralHasDigits(Tenth(n, base), base, upper);
      assert s[0] == t[0];
      DigitsMore(t, DigitChar(d, upper), base);
    } else {
      assert s[1..] == "";
    }
  }

  lemma {:induction false} NumeralHasValue(n: nat, base: Base, upper: bool)
    ensures Value(Numeral(n, base, upper), base) == n
  {
    var s, d := Numeral(n, base, upper), n % base;
    DigitIsRead(d, upper);
    if n >= base {
      NumeralHasValue(Tenth(n, base), base, upper);
      assert s[..|s| - 1] == Numeral(Tenth(n, base), base, upper);
    } else {
      assert s[..0] == "";
      assert Value(s[..0], base) == 0;
    }
  }

  /** A string of digits only. */
  lemma AllDigits(s: string, base: Base, n: nat)
    requires s != "" && Digits(s, base) == |s| && Value(s, base) == n
    ensures InBase(s, base) == if n <= ULONG_MAX then Ok(n) else Err(ERANGE)
  {
    assert s[..|s|] == s;
  }

  lemma {:induction false} DigitsMore(s: string, c: char, base: Base)
    requires Digits(s, base) == |s| && Digit(c) < base
    ensures Digits(s + [c], base) == |s| + 1
  {
    if s == "" {
      assert s + [c] == [c] && [c][1..] == "";
    } else {
      DigitsMore(s[1..], c, base);
      assert (s + [c])[1..] == s[1..] + [c];
    }
  }

  /** A number written with 0x or 0X and digits of either case is read back. */
  lemma HexReadsBack(n: nat, x: char, upper: bool)
    requires x == 'x' || x == 'X'
    ensures SafeUlong(['0', x] + Numeral(n, 16, upper)) == if n <= ULONG_MAX then Ok(n) else Err(ERANGE)
  {
    var t := Numeral(n, 16, upper);
    var s := ['0', x] + t;
    NumeralHasDigits(n, 16, upper);
    NumeralHasValue(n, 16, upper);
    AllDigits(t, 16, n);
    DigitFirst(s);
    assert s[2..] == t && s[2] == t[0];
  }

  /** And one written with a leading 0 in octal digits. */
  lemma OctalReadsBack(n: nat)
    ensures SafeUlong(['0'] + Numeral(n, 8, false)) == if n <= ULONG_MAX then Ok(n) else Err(ERANGE)
  {
    var t := Numeral(n, 8, false);
    var s := ['0'] + t;
    NumeralHasDigits(n, 8, false);
    NumeralHasValue(n, 8, false);
    LeadingZero(t, 8);
    ZeroInFront(t);
    AllDigits(s, 8, n);
    DigitFirst(s);
  }

  lemma ZeroInFront(t: string)
    requires t != "" && Digit(t[0]) < 8 && Digits(t, 8) == |t|
    ensures var s := ['0'] + t; Digits(s, 8) == |s| && Magnitude(s) == InBase(s, 8)
  {
    var s := ['0'] + t;
    assert s[1..] == t && s[1] == t[0];
  }

  lemma {:induction false} LeadingZero(t: string, base: Base)
    ensures Value(['0'] + t, base) == Value(t, base)
  {
    var s := ['0'] + t;
    if t == "" {
      assert s == ['0'] && s[..0] == "";
      assert Value(s[..0], base) == 0;
    } else {
      LeadingZero(t[..|t| - 1], base);
      assert s[..|s| - 1] == ['0'] + t[..|t| - 1];
    }
  }

  /** A plus sign changes nothing before a digit, and a minus sign is refused. */
  lemma SignsAreRead(s: string)
    requires s != "" && '0' <= s[0] <= '9'
    ensures SafeUlong(['+'] + s) == SafeUlong(s) && SafeUlong(['-'] + s) == Err(EINVAL)
  {
    DigitFirst(s);
    var p, m := ['+'] + s, ['-'] + s;
    assert p[1..] == s && p[0..] == p && m[0..] == m;
    assert Spaces(p) == 0 && Spaces(m) == 0;
  }

  /** White space in front is skipped. */
  lemma SpaceIsSkipped(s: string, c: char)
    requires IsSpace(c)
    ensures SafeUlong([c] + s) == SafeUlong(s)
  {
    var t := [c] + s;
    assert t[1..] == s && Spaces(t) == 1 + Spaces(s);
    assert t[1 + Spaces(s)..] == s[Spaces(s)..];
  }

  // ---- entries ----

  predicate Blank(c: char) {
    c == ' ' || c == '\t' || c == '\r'
  }

  predicate AllBlank(s: string) {
    forall i | 0 <= i < |s| :: Blank(s[i])
  }

  predicate NoBlank(s: string) {
    forall i | 0 <= i < |s| :: !Blank(s[i])
  }

  predicate OnlySpaceLeft(s: string) {
    forall i | 0 <= i < |s| :: Blank(s[i]) || s[i] == '\n'
  }

  /** strspn() over blanks. */
  function Span(s: string): (n: nat)
    ensures n <= |s|
  {
    if s == "" || !Blank(s[0]) then 0 else 1 + Span(s[1..])
  }

  /** strcspn() over blanks. */
  function WordLen(s: string): (n: nat)
    ensures n <= |s|
  {
    if s == "" || Blank(s[0]) then 0 else 1 + WordLen(s[1..])
  }

  lemma {:induction false} SpanIsBlank(s: string)
    ensures AllBlank(s[..Span(s)]) && (Span(s) < |s| ==> !Blank(s[Span(s)]))
  {
    if s != "" && Blank(s[0]) {
      SpanIsBlank(s[1..]);
      assert s[..Span(s)] == [s[0]] + s[1..][..Span(s[1..])];
    }
  }

  lemma {:induction false} WordHasNoBlank(s: string)
    ensures NoBlank(s[..WordLen(s)]) && (WordLen(s) < |s| ==> Blank(s[WordLen(s)]))
  {
    if s != "" && !Blank(s[0]) {
      WordHasNoBlank(s[1..]);
      assert s[..WordLen(s)] == [s[0]] + s[1..][..WordLen(s[1..])];
    }
  }

  /** A number that must be followed by blanks and something else; the rest starts with that. */
  function TakeNumber(s: string): Result<(nat, string)> {
    var n := WordLen(s);
    if n == 0 || n == |s| then Err(EINVAL)
    else Before(SafeUlong(s[..n]), s[n + 1..])
  }

  /** A number, and what follows the first blank behind it. */
  function Before(v: Result<nat>, rest: string): Result<(nat, string)> {
    if v.Err? then Err(v.error)
    else if Span(rest) == |rest| then Err(EINVAL)
    else Ok((v.value, rest[Span(rest)..]))
  }

  lemma RestAfterNumber(v: Result<nat>, rest: string)
    requires Before(v, rest).Ok?
    ensures Before(v, rest).value.1 == rest[Span(rest)..]
  {
  }

  function TakeLast(s: string): Result<nat> {
    var n := WordLen(s);
    if n == 0 || !OnlySpaceLeft(s[n..]) then Err(EINVAL) else SafeUlong(s[..n])
  }

  function TakeRest(kind: char, s: string): Result<Map> {
    var nsid := TakeNumber(s);
    if nsid.Err? then Err(nsid.error) else
    var hostid := TakeNumber(nsid.value.1);
    if hostid.Err? then Err(hostid.error) else
    var range := TakeLast(hostid.value.1);
    if range.Err? then Err(range.error) else
    Ok(Map(kind, nsid.value.0, hostid.value.0, range.value))
  }

  /** The type, which blanks must follow, and the string after them. */
  function TakeKind(idmap: string): Result<(char, string)> {
    var s := idmap[Span(idmap)..];
    if s == "" || (s[0] != 'u' && s[0] != 'g') then Err(EINVAL) else Behind(s[0], s[1..])
  }

  function Behind(kind: char, rest: string): Result<(char, string)> {
    if Span(rest) == 0 then Err(EINVAL) else Ok((kind, rest[Span(rest)..]))
  }

  lemma RestBehindKind(kind: char, rest: string)
    requires Behind(kind, rest).Ok?
    ensures Span(rest) > 0 && Behind(kind, rest).value == (kind, rest[Span(rest)..])
  {
  }

  function Parse(idmap: string): Result<Map> {
    var kind := TakeKind(idmap);
    if kind.Err? then Err(kind.error) else TakeRest(kind.value.0, kind.value.1)
  }

  lemma {:induction false} SpanOf(g: string, s: string)
    requires AllBlank(g) && (s == "" || !Blank(s[0]))
    ensures Span(g + s) == |g| && (g + s)[|g|..] == s
  {
    if g != "" {
      SpanOf(g[1..], s);
      FirstOff(g, s);
    } else {
      assert g + s == s;
    }
  }

  lemma {:induction false} WordLenOf(w: string, s: string)
    requires NoBlank(w) && (s == "" || Blank(s[0]))
    ensures WordLen(w + s) == |w| && (w + s)[..|w|] == w && (w + s)[|w|..] == s
  {
    if w != "" {
      WordLenOf(w[1..], s);
      FirstOff(w, s);
    } else {
      assert w + s == s;
    }
  }

  lemma FirstOff(w: string, s: string)
    requires w != ""
    ensures (w + s)[0] == w[0] && (w + s)[1..] == w[1..] + s
  {
  }

  /** A word, blanks and a following word: the number is taken and the rest starts at that word. */
  lemma TakeNumberOf(w: string, g: string, s: string)
    requires w != "" && NoBlank(w) && g != "" && AllBlank(g) && s != "" && !Blank(s[0])
    ensures TakeNumber(w + g + s) ==
            var v := SafeUlong(w); if v.Ok? then Ok((v.value, s)) else Err(v.error)
  {
    assert w + g + s == w + (g + s);
    WordLenOf(w, g + s);
    assert (w + (g + s))[|w| + 1..] == g[1..] + s;
    SpanOf(g[1..], s);
  }

  lemma TakeLastOf(w: string, trail: string)
    requires w != "" && NoBlank(w) && (trail == "" || Blank(trail[0]))
    ensures TakeLast(w + trail) == if OnlySpaceLeft(trail) then SafeUlong(w) else Err(EINVAL)
  {
    WordLenOf(w, trail);
  }

  /** The parts that make up an entry: blanks, a type, and three words with blanks between. */
  datatype Parts = Parts(lead: string, kind: char, gap1: string, nsid: string, gap2: string, hostid: string,
                         gap3: string, range: string, trail: string) {
    predicate Valid() {
      && AllBlank(lead) && (kind == 'u' || kind == 'g')
      && gap1 != "" && AllBlank(gap1) && gap2 != "" && AllBlank(gap2) && gap3 != "" && AllBlank(gap3)
      && nsid != "" && NoBlank(nsid) && hostid != "" && NoBlank(hostid) && range != "" && NoBlank(range)
      && OnlySpaceLeft(trail) && (trail == "" || Blank(trail[0]))
    }

    function AfterKind(): string {
      nsid + gap2 + (hostid + gap3 + (range + trail))
    }

    function Text(): string {
      lead + ([kind] + (gap1 + AfterKind()))
    }

    /** What the words mean, or the error of the first that is no number. */
    function Meaning(): Result<Map> {
      var n, h, r := SafeUlong(nsid), SafeUlong(hostid), SafeUlong(range);
      if n.Err? then Err(n.error) else if h.Err? then Err(h.error) else if r.Err? then Err(r.error)
      else Ok(Map(kind, n.value, h.value, r.value))
    }
  }

  lemma TakeRestOf(p: Parts)
    requires p.Valid()
    ensures TakeRest(p.kind, p.AfterKind()) == p.Meaning()
  {
    TakeNumberOf(p.nsid, p.gap2, p.hostid + p.gap3 + (p.range + p.trail));
    TakeNumberOf(p.hostid, p.gap3, p.range + p.trail);
    TakeLastOf(p.range, p.trail);
  }

  lemma NumberErrors(s: string)
    ensures SafeUlong(s).Err? ==> SafeUlong(s).error == EINVAL || SafeUlong(s).error == ERANGE
  {
  }

  lemma TakeErrors(kind: char, s: string)
    ensures TakeRest(kind, s).Err? ==> TakeRest(kind, s).error == EINVAL || TakeRest(kind, s).error == ERANGE
  {
    NumberErrors(s[..WordLen(s)]);
    if TakeNumber(s).Ok? {
      var s2 := TakeNumber(s).value.1;
      NumberErrors(s2[..WordLen(s2)]);
      if TakeNumber(s2).Ok? {
        var s3 := TakeNumber(s2).value.1;
        NumberErrors(s3[..WordLen(s3)]);
      }
    }
  }

  /** A refused entry always gives a reason. */
  lemma ParseErrors(s: string)
    ensures Parse(s).Err? ==> Parse(s).error == EINVAL || Parse(s).error == ERANGE
  {
    if TakeKind(s).Ok? {
      TakeErrors(TakeKind(s).value.0, TakeKind(s).value.1);
    }
  }

  /** Every string made of such parts is read as they mean. */
  lemma PartsAreRead(p: Parts)
    requires p.Valid()
    ensures Parse(p.Text()) == p.Meaning()
  {
    var s := [p.kind] + (p.gap1 + p.AfterKind());
    assert s[0] == p.kind && s[1..] == p.gap1 + p.AfterKind();
    SpanOf(p.lead, s);
    assert p.AfterKind()[0] == p.nsid[0];
    SpanOf(p.gap1, p.AfterKind());
    TakeRestOf(p);
  }

  lemma Cut(s: string, n: nat)
    requires n <= |s|
    ensures s == s[..n] + s[n..]
  {
  }

  lemma BlankFirst(c: char, g: string)
    requires Blank(c) && AllBlank(g)
    ensures AllBlank([c] + g)
  {
  }

  lemma NoNumberTaken(s: string)
    requires WordLen(s) == 0 || WordLen(s) == |s|
    ensures TakeNumber(s).Err?
  {
  }

  lemma NumberTaken(s: string, n: nat)
    requires n == WordLen(s) && 0 < n < |s|
    ensures TakeNumber(s) == Before(SafeUlong(s[..n]), s[n + 1..])
  {
  }

  lemma AroundGap(s: string, n: nat, k: nat)
    requires n < |s| && k <= |s| - n - 1
    ensures s == s[..n] + ([s[n]] + s[n + 1..][..k]) + s[n + 1..][k..]
  {
  }

  lemma NumberParts(s: string) returns (w: string, g: string, rest: string)
    requires TakeNumber(s).Ok?
    ensures w != "" && NoBlank(w) && g != "" && AllBlank(g)
    ensures s == w + g + rest && rest == TakeNumber(s).value.1
  {
    var n := WordLen(s);
    if n == 0 || n == |s| { NoNumberTaken(s); }
    NumberTaken(s, n);
    var after := s[n + 1..];
    var k := Span(after);
    w, g, rest := s[..n], [s[n]] + after[..k], after[k..];
    RestAfterNumber(SafeUlong(w), after);
    WordHasNoBlank(s);
    SpanIsBlank(after);
    BlankFirst(s[n], after[..k]);
    AroundGap(s, n, k);
  }

  lemma RestParts(s: string) returns (p: Parts)
    requires TakeRest('u', s).Ok?
    ensures p.Valid() && p.AfterKind() == s && p.lead == "" && p.gap1 == " " && p.kind == 'u'
  {
    var nsid, gap2, s4 := NumberParts(s);
    var hostid, gap3, s5 := NumberParts(s4);
    var n := WordLen(s5);
    Cut(s5, n);
    WordHasNoBlank(s5);
    p := Parts("", 'u', " ", nsid, gap2, hostid, gap3, s5[..n], s5[n..]);
  }

  lemma RestIsTaken(kind: char, s: string)
    ensures TakeRest(kind, s).Ok? <==> TakeRest('u', s).Ok?
  {
  }

  lemma KindTaken(s: string)
    requires TakeKind(s).Ok?
    ensures var s1 := s[Span(s)..];
      s1 != "" && (s1[0] == 'u' || s1[0] == 'g') && TakeKind(s) == Behind(s1[0], s1[1..])
  {
  }

  lemma FrontParts(s: string) returns (lead: string, kind: char, gap: string, rest: string)
    requires TakeKind(s).Ok?
    ensures AllBlank(lead) && (kind == 'u' || kind == 'g') && gap != "" && AllBlank(gap)
    ensures s == lead + ([kind] + (gap + rest)) && TakeKind(s).value == (kind, rest)
  {
    KindTaken(s);
    var s1 := s[Span(s)..];
    var s2 := s1[1..];
    lead, kind, gap, rest := s[..Span(s)], s1[0], s2[..Span(s2)], s2[Span(s2)..];
    RestBehindKind(kind, s2);
    SpanIsBlank(s);
    SpanIsBlank(s2);
    Cut(s, Span(s));
    Cut(s2, Span(s2));
    assert s1 == [kind] + s2;
  }

  /** Every string that is accepted is made of such parts. */
  lemma AcceptedHasParts(s: string) returns (p: Parts)
    requires Parse(s).Ok?
    ensures p.Valid() && p.Text() == s
  {
    var lead, kind, gap, rest := FrontParts(s);
    RestIsTaken(kind, rest);
    var q := RestParts(rest);
    p := q.(lead := lead, kind := kind, gap1 := gap);
  }

  lemma DecimalHasNoBlank(n: nat)
    ensures NoBlank(Decimal(n))
  {
  }

  /**
   * Printing and parsing: any blanks in front, any blanks between, and after a blank any
   * blanks and newlines behind.
   */
  lemma RoundTrip(m: Map, lead: string, gap1: string, gap2: string, gap3: string, trail: string)
    requires (m.kind == 'u' || m.kind == 'g')
    requires m.nsid <= ULONG_MAX && m.hostid <= ULONG_MAX && m.range <= ULONG_MAX
    requires AllBlank(lead) && gap1 != "" && AllBlank(gap1) && gap2 != "" && AllBlank(gap2)
    requires gap3 != "" && AllBlank(gap3) && OnlySpaceLeft(trail) && (trail == "" || Blank(trail[0]))
    ensures Parse(lead + ([m.kind] + (gap1 + (Decimal(m.nsid) + gap2 + (Decimal(m.hostid) + gap3
                  + (Decimal(m.range) + trail)))))) == Ok(m)
  {
    var p := Parts(lead, m.kind, gap1, Decimal(m.nsid), gap2, Decimal(m.hostid), gap3, Decimal(m.range), trail);
    DecimalHasNoBlank(m.nsid);
    DecimalHasNoBlank(m.hostid);
    DecimalHasNoBlank(m.range);
    PartsAreRead(p);
    DecimalReadsBack(m.nsid);
    DecimalReadsBack(m.hostid);
    DecimalReadsBack(m.range);
  }

  lemma DigitsStop(s: string, base: Base)
    requires s != "" && s[|s| - 1] == '\n' && base <= 16
    ensures Digits(s, base) < |s|
  {
  }

  lemma NewlineIsNoDigit(s: string)
    requires |s| >= 2 && '0' <= s[0] <= '9' && (s[1] == '\n' || '0' <= s[1] <= '9') && s[|s| - 1] == '\n'
    ensures Magnitude(s).Err?
  {
    DigitsStop(s, 8);
    DigitsStop(s, 10);
  }

  lemma NewlineBreaksNumber(n: nat)
    ensures SafeUlong(Decimal(n) + "\n").Err?
  {
    var d := Decimal(n);
    var s := d + "\n";
    assert s[0] == d[0] && s[|s| - 1] == '\n' && s[1] == if |d| > 1 then d[1] else '\n';
    DigitFirst(s);
    NewlineIsNoDigit(s);
  }

  lemma BadRangeIsRefused(p: Parts)
    requires p.Valid() && SafeUlong(p.range).Err?
    ensures Parse(p.Text()).Err?
  {
    PartsAreRead(p);
  }

  /** A newline right behind the range is part of its word, so the entry is refused. */
  lemma NewlineNeedsABlank(p: Parts, n: nat)
    requires p.Valid() && p.range == Decimal(n) + "\n"
    ensures Parse(p.Text()).Err?
  {
    NewlineBreaksNumber(n);
    BadRangeIsRefused(p);
  }

  // ---- what may follow the last word ----

  lemma {:induction false} DigitsEnd(s: string, t: string, base: Base)
    requires Digits(s, base) == |s| && t != "" && t[0] == '\n'
    ensures Digits(s + t, base) == |s|
  {
    if s == "" {
      assert s + t == t;
    } else {
      FirstOff(s, t);
      DigitsEnd(s[1..], t, base);
    }
  }

  lemma {:induction false} DigitsInside(s: string, base: Base, i: nat)
    requires i < Digits(s, base)
    ensures Digit(s[i]) < base
  {
    if i > 0 { DigitsInside(s[1..], base, i - 1); }
  }

  lemma InBaseEnds(s: string, t: string, base: Base)
    requires InBase(s, base).Ok? && t != "" && t[0] == '\n'
    ensures InBase(s + t, base) == Err(EINVAL)
  {
    DigitsEnd(s, t, base);
    assert (s + t)[..|s|] == s && s[..|s|] == s;
  }

  /** An accepted number is a row of digits, so the prefix is no longer than itself. */
  lemma HexStays(s: string, t: string)
    requires Magnitude(s).Ok? && t != "" && t[0] == '\n'
    ensures s != "" && (IsHex(s + t) <==> IsHex(s))
  {
    var u := s + t;
    assert |s| >= 1 && u[0] == s[0];
    if IsHex(s) {
      assert u[1] == s[1] && u[2] == s[2];
    } else if |s| >= 2 {
      DigitsInside(s, if s[0] == '0' then 8 else 10, 1);
      assert u[1] == s[1];
    } else {
      assert u[1] == '\n';
    }
  }

  lemma MagnitudeEnds(s: string, t: string)
    requires Magnitude(s).Ok? && t != "" && t[0] == '\n'
    ensures s != "" && Magnitude(s + t) == Err(EINVAL)
  {
    HexStays(s, t);
    if IsHex(s) {
      assert (s + t)[2..] == s[2..] + t;
      InBaseEnds(s[2..], t, 16);
    } else {
      InBaseEnds(s, t, if s[0] == '0' then 8 else 10);
    }
  }

  lemma SignedEnds(s: string, t: string)
    requires Signed(s).Ok? && t != "" && t[0] == '\n'
    ensures s != "" && Signed(s + t) == Err(EINVAL)
  {
    if s != "" && s[0] == '+' {
      FirstOff(s, t);
      MagnitudeEnds(s[1..], t);
    } else {
      MagnitudeEnds(s, t);
    }
  }

  lemma {:induction false} SpacesStay(s: string, t: string)
    requires Spaces(s) < |s|
    ensures Spaces(s + t) == Spaces(s)
  {
    FirstOff(s, t);
    if IsSpace(s[0]) { SpacesStay(s[1..], t); }
  }

  /** A newline behind an accepted number makes it none. */
  lemma NumberEnds(s: string, t: string)
    requires SafeUlong(s).Ok? && t != "" && t[0] == '\n'
    ensures SafeUlong(s + t) == Err(EINVAL)
  {
    var n := Spaces(s);
    SignedEnds(s[n..], t);
    SpacesStay(s, t);
    assert (s + t)[n..] == s[n..] + t;
  }

  /** Newlines right behind the range belong to its word. */
  lemma NewlinesJoinTheWord(p: Parts, trail: string)
    requires p.Valid() && p.trail == "" && OnlySpaceLeft(trail)
    requires trail != "" && !Blank(trail[0])
    ensures var n := WordLen(trail); var q := p.(range := p.range + trail[..n], trail := trail[n..]);
      n > 0 && trail[0] == '\n' && q.Valid() && q.Text() == p.(trail := trail).Text()
  {
    var n := WordLen(trail);
    WordHasNoBlank(trail);
    assert p.range + trail == p.range + trail[..n] + trail[n..];
  }

  lemma OtherTrailMeans(p: Parts, trail: string)
    ensures p.(trail := trail).Meaning() == p.Meaning()
  {
  }

  lemma OtherRangeMeans(p: Parts, range: string, trail: string)
    requires p.Meaning().Ok? && SafeUlong(range) == Err(EINVAL)
    ensures p.(range := range, trail := trail).Meaning() == Err(EINVAL)
  {
  }

  lemma RangeIsNumber(p: Parts)
    requires p.Meaning().Ok?
    ensures SafeUlong(p.range).Ok?
  {
  }

  /**
   * Blanks and newlines behind an accepted entry: nothing changes if they start with a
   * blank, and the entry is refused if they start with a newline.
   */
  lemma TrailFitsExactlyWhen(p: Parts, trail: string)
    requires p.Valid() && p.trail == "" && p.Meaning().Ok? && OnlySpaceLeft(trail)
    ensures Parse(p.(trail := trail).Text()).Ok? <==> trail == "" || Blank(trail[0])
    ensures Parse(p.(trail := trail).Text()) == if trail == "" || Blank(trail[0]) then p.Meaning() else Err(EINVAL)
  {
    if trail == "" || Blank(trail[0]) {
      PartsAreRead(p.(trail := trail));
      OtherTrailMeans(p, trail);
    } else {
      NewlinesJoinTheWord(p, trail);
      var n := WordLen(trail);
      RangeIsNumber(p);
      NumberEnds(p.range, trail[..n]);
      OtherRangeMeans(p, p.range + trail[..n], trail[n..]);
      PartsAreRead(p.(range := p.range + trail[..n], trail := trail[n..]));
    }
  }

  lemma InBaseLast(s: string, base: Base)
    requires InBase(s, base).Ok?
    ensures s != "" && Digit(s[|s| - 1]) < 16
  {
    DigitsInside(s, base, |s| - 1);
  }

  lemma MagnitudeLast(s: string)
    requires Magnitude(s).Ok?
    ensures s != "" && Digit(s[|s| - 1]) < 16
  {
    if IsHex(s) {
      InBaseLast(s[2..], 16);
    } else {
      InBaseLast(s, if s != "" && s[0] == '0' then 8 else 10);
    }
  }

  lemma NumberLast(s: string)
    requires SafeUlong(s).Ok?
    ensures s != "" && Digit(s[|s| - 1]) < 16
  {
    var t := s[Spaces(s)..];
    MagnitudeLast(if t != "" && t[0] == '+' then t[1..] else t);
  }

  lemma TrailIsLast(p: Parts, trail: string)
    ensures p.(trail := trail).Text() == p.(trail := "").Text() + trail
  {
    assert p.range + trail == p.range + "" + trail;
  }

  lemma RangeIsLast(p: Parts)
    requires p.range != "" && p.trail == ""
    ensures p.Text() != "" && p.Text()[|p.Text()| - 1] == p.range[|p.range| - 1]
  {
    assert p.range + p.trail == p.range;
  }

  lemma LastOf(p: Parts)
    requires p.Valid() && SafeUlong(p.range).Ok?
    ensures var s := p.Text(); s != "" && (Blank(s[|s| - 1]) || s[|s| - 1] == '\n' <==> p.trail != "")
  {
    var front := p.(trail := "");
    TrailIsLast(p, p.trail);
    RangeIsLast(front);
    NumberLast(p.range);
    assert p.Text() == front.Text() + p.trail;
  }

  /**
   * Every string that is accepted stays accepted with a newline behind it, with the same
   * four values, exactly if it already ends in a blank or a newline.
   */
  lemma NewlineFitsExactlyWhen(s: string)
    ensures Parse(s).Ok? ==>
      && s != "" && (Parse(s + "\n").Ok? <==> Blank(s[|s| - 1]) || s[|s| - 1] == '\n')
      && (Parse(s + "\n").Ok? ==> Parse(s + "\n") == Parse(s))
  {
    if Parse(s).Ok? {
      var p := AcceptedHasParts(s);
      PartsAreRead(p);
      RangeIsNumber(p);
      LastOf(p);
      NewlineAdded(p);
    }
  }

  lemma NewlineAdded(p: Parts)
    requires p.Valid() && p.Meaning().Ok?
    ensures Parse(p.Text() + "\n") == if p.trail != "" then p.Meaning() else Err(EINVAL)
  {
    NewlineIsTrail(p);
    OtherTrailMeans(p, "");
    TrailFitsExactlyWhen(p.(trail := ""), p.trail + "\n");
  }

  lemma NewlineIsTrail(p: Parts)
    ensures p.(trail := "").(trail := p.trail + "\n").Text() == p.Text() + "\n"
  {
    TrailIsLast(p, p.trail);
    TrailIsLast(p, p.trail + "\n");
    Regroup(p.(trail := "").Text(), p.trail, "\n");
  }

  lemma Regroup(s: string, t: string, u: string)
    ensures s + (t + u) == s + t + u
  {
  }

  // ---- the parser at work on a copy of the string ----

  /** From position at to its end, the array still holds the string s. */
  predicate Left(a: array<char>, at: nat, s: string)
    reads a
  {
    a.Length > 0 && at + |s| == a.Length - 1 && a[at..a.Length - 1] == s && a[a.Length - 1] == '\0' && NoNul(s)
  }

  lemma LeftMoves(a: array<char>, at: nat, s: string, n: nat)
    requires Left(a, at, s) && n <= |s|
    ensures Left(a, at + n, s[n..]) && (n < |s| ==> a[at + n] == s[n] != '\0') && (n == |s| ==> a[at + n] == '\0')
  {
  }

  method Strspn(a: array<char>, at: nat, ghost s: string) returns (to: nat)
    requires Left(a, at, s)
    ensures to == at + Span(s)
  {
    to := at;
    ghost var n := 0;
    while Blank(a[to])
      invariant n <= |s| && to == at + n && Span(s) == n + Span(s[n..])
      invariant a[to] == if n < |s| then s[n] else '\0'
      decreases |s| - n
    {
      LeftMoves(a, at, s, n + 1);
      assert s[n..][1..] == s[n + 1..];
      to, n := to + 1, n + 1;
    }
  }

  lemma WordGoesOn(s: string, n: nat)
    requires n < |s| && !Blank(s[n])
    ensures WordLen(s[n..]) == 1 + WordLen(s[n + 1..])
  {
    assert s[n..][1..] == s[n + 1..];
  }

  method Strcspn(a: array<char>, at: nat, ghost s: string) returns (to: nat)
    requires Left(a, at, s)
    ensures to == at + WordLen(s)
  {
    to := at;
    ghost var n := 0;
    while a[to] != '\0' && !Blank(a[to])
      invariant n <= |s| && to == at + n && WordLen(s) == n + WordLen(s[n..])
      invariant a[to] == if n < |s| then s[n] else '\0'
      decreases |s| - n
    {
      LeftMoves(a, at, s, n + 1);
      WordGoesOn(s, n);
      to, n := to + 1, n + 1;
    }
    assert n < |s| ==> s[n..][0] == s[n];
  }

  /** Is there nothing but blanks and newlines up to the end? */
  method NothingLeft(a: array<char>, at: nat, ghost s: string) returns (ok: bool)
    requires Left(a, at, s)
    ensures ok <==> OnlySpaceLeft(s)
  {
    var to := at;
    ghost var n := 0;
    while Blank(a[to]) || a[to] == '\n'
      invariant n <= |s| && to == at + n && OnlySpaceLeft(s[..n])
      invariant a[to] == if n < |s| then s[n] else '\0'
      decreases |s| - n
    {
      LeftMoves(a, at, s, n + 1);
      to, n := to + 1, n + 1;
    }
    ok := a[to] == '\0';
  }

  /** The string at a position, up to the first terminator. */
  method CString(a: array<char>, at: nat, ghost end: nat) returns (s: string)
    requires at <= end < a.Length && a[end] == '\0' && '\0' !in a[at..end]
    ensures s == a[at..end]
  {
    var i := at;
    while a[i] != '\0'
      invariant at <= i <= end && (i < end ==> a[i] == a[at..end][i - at])
      decreases end - i
    {
      i := i + 1;
    }
    s := a[at..i];
  }

  /** A word that something follows is cut off with a terminator. */
  method CutWord(a: array<char>, window: nat, ghost s: string) returns (word: Option<string>, after: nat)
    requires Left(a, window, s)
    modifies a
    ensures word == if 0 < WordLen(s) < |s| then Some(s[..WordLen(s)]) else None
    ensures word.Some? ==> Left(a, after, s[WordLen(s) + 1..])
  {
    var slide := Strcspn(a, window, s);
    after := slide + 1;
    ghost var n := WordLen(s);
    LeftMoves(a, window, s, n);
    if slide == window || a[slide] == '\0' {
      return None, after;
    }
    LeftMoves(a, window, s, n + 1);
    assert a[window..slide] == s[..n];
    a[slide] := '\0';
    var text := CString(a, window, slide);
    word := Some(text);
  }

  method SkipBlanks(a: array<char>, at: nat, ghost s: string) returns (more: bool, next: nat)
    requires Left(a, at, s)
    ensures more <==> Span(s) < |s|
    ensures Left(a, next, s[Span(s)..])
  {
    next := Strspn(a, at, s);
    LeftMoves(a, at, s, Span(s));
    more := a[next] != '\0';
  }

  /** One of the first two numbers. */
  method TakeNumberAt(a: array<char>, window: nat, ghost s: string) returns (r: Result<nat>, next: nat)
    requires Left(a, window, s)
    modifies a
    ensures r == var t := TakeNumber(s); if t.Ok? then Ok(t.value.0) else Err(t.error)
    ensures TakeNumber(s).Ok? ==> Left(a, next, TakeNumber(s).value.1)
  {
    var word, after := CutWord(a, window, s);
    if word.None? {
      return Err(EINVAL), window;
    }
    r := SafeUlong(word.value);
    if r.Err? {
      return r, window;
    }
    var more;
    more, next := SkipBlanks(a, after, s[WordLen(s) + 1..]);
    if !more {
      r := Err(EINVAL);
    }
  }

  method TakeLastAt(a: array<char>, window: nat, ghost s: string) returns (r: Result<nat>)
    requires Left(a, window, s)
    modifies a
    ensures r == TakeLast(s)
  {
    var slide := Strcspn(a, window, s);
    ghost var n := WordLen(s);
    LeftMoves(a, window, s, n);
    if slide == window {
      return Err(EINVAL);
    }
    var ok := NothingLeft(a, slide, s[n..]);
    if !ok {
      return Err(EINVAL);
    }
    assert a[window..slide] == s[..n];
    a[slide] := '\0';
    var word := CString(a, window, slide);
    r := SafeUlong(word);
  }

  method TakeKindAt(a: array<char>, ghost idmap: string) returns (r: Result<char>, slide: nat)
    requires Left(a, 0, idmap)
    ensures r == var t := TakeKind(idmap); if t.Ok? then Ok(t.value.0) else Err(t.error)
    ensures TakeKind(idmap).Ok? ==> Left(a, slide, TakeKind(idmap).value.1)
  {
    var more;
    more, slide := SkipBlanks(a, 0, idmap);
    ghost var s := idmap[Span(idmap)..];
    if slide != 0 && !more {
      return Err(EINVAL), slide;
    }
    if a[slide] != 'u' && a[slide] != 'g' {
      return Err(EINVAL), slide;
    }
    r := Ok(a[slide]);
    LeftMoves(a, slide, s, 1);
    var window := slide + 1;
    more, slide := SkipBlanks(a, window, s[1..]);
    if slide == window {
      r := Err(EINVAL);
    }
  }

  /** Reads the entry; if that fails the four results stay what they were. */
  method ParseIdmaps(idmap: string, allocates: bool, was: Map) returns (ret: int, now: Map)
    requires NoNul(idmap)
    ensures ret == if !allocates then -ENOMEM else if Parse(idmap).Ok? then 0 else -Parse(idmap).error
    ensures now == if allocates && Parse(idmap).Ok? then Parse(idmap).value else was
  {
    now := was;
    if !allocates {
      return -ENOMEM, now;
    }
    var dup := new char[|idmap| + 1](i => if 0 <= i < |idmap| then idmap[i] else '\0');
    assert dup[..|idmap|] == idmap;
    var kind, slide := TakeKindAt(dup, idmap);
    if kind.Err? {
      return -kind.error, now;
    }
    ret, now := TakeRestAt(dup, slide, kind.value, was, TakeKind(idmap).value.1);
  }

  method TakeRestAt(dup: array<char>, at: nat, kind: char, was: Map, ghost s: string) returns (ret: int, now: Map)
    requires Left(dup, at, s)
    modifies dup
    ensures ret == if TakeRest(kind, s).Ok? then 0 else -TakeRest(kind, s).error
    ensures now == if TakeRest(kind, s).Ok? then TakeRest(kind, s).value else was
  {
    now := was;
    var nsid, next := TakeNumberAt(dup, at, s);
    if nsid.Err? {
      return -nsid.error, now;
    }
    ghost var s2 := TakeNumber(s).value.1;
    var hostid, last := TakeNumberAt(dup, next, s2);
    if hostid.Err? {
      return -hostid.error, now;
    }
    var range := TakeLastAt(dup, last, TakeNumber(s2).value.1);
    if range.Err? {
      return -range.error, now;
    }
    return 0, Map(kind, nsid.value, hostid.value, range.value);
  }
}
