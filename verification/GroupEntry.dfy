/**
 * The member list of a line of /etc/group: counted, split in place at its commas, and
 * moved together with the line into the buffer of the caller.
 */
module GroupEntry {
  import opened Libc

  // ---- where members begin ----

  /** Every place right after a comma, from k on. */
  function AfterCommas(m: string, k: nat): (c: seq<nat>)
    decreases |m| - k
  {
    if k >= |m| then []
    else if m[k] == ',' then [k + 1] + AfterCommas(m, k + 1)
    else AfterCommas(m, k + 1)
  }

  /** The places where the loop cuts: it does not look at the character after a cut. */
  function Cuts(m: string, k: nat): (c: seq<nat>)
    decreases |m| - k
  {
    if k >= |m| then []
    else if m[k] == ',' then [k + 1] + Cuts(m, k + 2)
    else Cuts(m, k + 1)
  }

  /** The strings between the cuts. */
  function Pieces(m: string, from: nat, cuts: seq<nat>): seq<string>
    requires from <= |m| && Rising(m, from, cuts)
    decreases |cuts|
  {
    if cuts == [] then [m[from..]]
    else [m[from..cuts[0] - 1]] + Pieces(m, cuts[0], cuts[1..])
  }

  predicate Rising(m: string, from: nat, cuts: seq<nat>) {
    && (forall i | 0 <= i < |cuts| :: from < cuts[i] <= |m|)
    && (forall i, j | 0 <= i < j < |cuts| :: cuts[i] < cuts[j])
  }

  lemma RisesFrom(m: string, k: nat, from: nat, cuts: seq<nat>)
    requires Rising(m, from, cuts) && k < |m| && k < from
    ensures Rising(m, k, cuts) && Rising(m, k, [k + 1] + cuts)
  {
  }

  lemma {:induction false} CutsRise(m: string, k: nat)
    ensures Rising(m, k, Cuts(m, k)) && Rising(m, k, AfterCommas(m, k))
    decreases |m| - k
  {
    if k < |m| {
      CutsRise(m, k + 1);
      CutsRise(m, k + 2);
      RisesFrom(m, k, k + 1, Cuts(m, k + 1));
      RisesFrom(m, k, k + 2, Cuts(m, k + 2));
      RisesFrom(m, k, k + 1, AfterCommas(m, k + 1));
    }
  }

  /** What the members ought to be, and what the loop makes of them. */
  function Members(m: string): seq<string> {
    CutsRise(m, 0);
    Pieces(m, 0, AfterCommas(m, 0))
  }

  function Split(m: string): seq<string> {
    CutsRise(m, 0);
    Pieces(m, 0, Cuts(m, 0))
  }

  predicate DoubleComma(m: string, k: nat) {
    exists i :: k <= i < |m| - 1 && m[i] == ',' && m[i + 1] == ','
  }

  lemma {:induction false} CutsAreAllExactlyWhen(m: string, k: nat)
    ensures |Cuts(m, k)| <= |AfterCommas(m, k)|
    ensures !DoubleComma(m, k) ==> Cuts(m, k) == AfterCommas(m, k)
    ensures DoubleComma(m, k) ==> |Cuts(m, k)| < |AfterCommas(m, k)|
    decreases |m| - k
  {
    if k < |m| {
      CutsAreAllExactlyWhen(m, k + 1);
      CutsAreAllExactlyWhen(m, k + 2);
      assert DoubleComma(m, k + 1) ==> DoubleComma(m, k);
      assert DoubleComma(m, k + 2) ==> DoubleComma(m, k + 1);
      if DoubleComma(m, k) && !DoubleComma(m, k + 1) {
        var i :| k <= i < |m| - 1 && m[i] == ',' && m[i + 1] == ',';
        assert i == k;
      }
      if DoubleComma(m, k + 1) && !DoubleComma(m, k + 2) {
        var i :| k + 1 <= i < |m| - 1 && m[i] == ',' && m[i + 1] == ',';
        assert i == k + 1;
      }
    }
  }

  lemma {:induction false} PiecesCount(m: string, from: nat, cuts: seq<nat>)
    requires from <= |m| && Rising(m, from, cuts)
    ensures |Pieces(m, from, cuts)| == |cuts| + 1
    decreases |cuts|
  {
    if cuts != [] {
      PiecesCount(m, cuts[0], cuts[1..]);
    }
  }

  /** The loop finds the members exactly if no two commas meet. */
  lemma SplitFindsMembersExactlyWhen(m: string)
    ensures Split(m) == Members(m) <==> !DoubleComma(m, 0)
  {
    CutsRise(m, 0);
    CutsAreAllExactlyWhen(m, 0);
    PiecesCount(m, 0, Cuts(m, 0));
    PiecesCount(m, 0, AfterCommas(m, 0));
  }

  /** One such list: the empty member in the middle is missed. */
  lemma TwoCommasMissAMember()
    ensures Split("a,,b") != Members("a,,b")
  {
    var m := "a,,b";
    assert m[1] == ',' && m[2] == ',';
    assert DoubleComma(m, 0);
    SplitFindsMembersExactlyWhen(m);
  }

  lemma {:induction false} AfterCommasAreCommas(m: string, k: nat)
    ensures forall c | c in AfterCommas(m, k) :: 0 < c <= |m| && m[c - 1] == ','
    ensures forall i | k <= i < |m| && m[i] == ',' :: i + 1 in AfterCommas(m, k)
    decreases |m| - k
  {
    if k < |m| {
      AfterCommasAreCommas(m, k + 1);
    }
  }

  lemma {:induction false} JoinFirst(p: string, ps: seq<string>)
    requires ps != []
    ensures Join([p] + ps) == p + "," + Join(ps)
  {
    var all := [p] + ps;
    assert all[..|all| - 1] == [p] + ps[..|ps| - 1];
    if |ps| > 1 {
      JoinFirst(p, ps[..|ps| - 1]);
    }
  }

  lemma CutString(m: string, from: nat, c: nat)
    requires from < c <= |m| && m[c - 1] == ','
    ensures m[from..] == m[from..c - 1] + "," + m[c..]
  {
  }

  lemma {:induction false} PiecesJoin(m: string, from: nat, cuts: seq<nat>)
    requires from <= |m| && Rising(m, from, cuts) && forall i | 0 <= i < |cuts| :: m[cuts[i] - 1] == ','
    ensures Pieces(m, from, cuts) != [] && Join(Pieces(m, from, cuts)) == m[from..]
    decreases |cuts|
  {
    if cuts != [] {
      PiecesJoin(m, cuts[0], cuts[1..]);
      JoinFirst(m[from..cuts[0] - 1], Pieces(m, cuts[0], cuts[1..]));
      CutString(m, from, cuts[0]);
    }
  }

  lemma {:induction false} PiecesHaveNoComma(m: string, from: nat, cuts: seq<nat>)
    requires from <= |m| && Rising(m, from, cuts) && forall i | from <= i < |m| && m[i] == ',' :: i + 1 in cuts
    ensures forall p | p in Pieces(m, from, cuts) :: ',' !in p
    decreases |cuts|
  {
    if cuts != [] {
      PiecesHaveNoComma(m, cuts[0], cuts[1..]);
      assert ',' !in m[from..cuts[0] - 1];
    }
  }

  /** Members are what they are called: comma-free strings whose join is the list. */
  lemma MembersAreTheMembers(m: string)
    ensures Members(m) != [] && Join(Members(m)) == m && forall p | p in Members(m) :: ',' !in p
  {
    CutsRise(m, 0);
    AfterCommasAreCommas(m, 0);
    var cuts := AfterCommas(m, 0);
    assert forall i | 0 <= i < |cuts| :: cuts[i] in cuts;
    PiecesJoin(m, 0, AfterCommas(m, 0));
    PiecesHaveNoComma(m, 0, AfterCommas(m, 0));
    assert m[0..] == m;
  }

  // ---- splitting in place ----

  /** The member list m in the line: what getline() read, with its newline overwritten. */
  predicate Holds(line: array<char>, mems: nat, m: string)
    reads line
  {
    && mems + |m| + 2 <= line.Length && NoNul(m) && line[mems..mems + |m|] == m
    && line[mems + |m|] == '\0' && line[mems + |m| + 1] == '\0'
  }

  /** How many members the counting pass makes room for. */
  function Slots(m: string): nat {
    if m == "" then 0 else |AfterCommas(m, 0)| + 1
  }

  /** The counting pass makes room for exactly the members, none for an empty list. */
  lemma SlotsAreMembers(m: string)
    ensures Slots(m) == if m == "" then 0 else |Members(m)|
  {
    CutsRise(m, 0);
    PiecesCount(m, 0, AfterCommas(m, 0));
  }

  method CountMembers(line: array<char>, mems: nat, ghost m: string) returns (nmem: nat)
    requires Holds(line, mems, m)
    ensures nmem == Slots(m)
  {
    nmem := if line[mems] != '\0' then 1 else 0;
    ghost var k := 0;
    var s := mems;
    assert m != "" ==> line[mems..mems + |m|][0] == line[mems];
    while line[s] != '\0'
      invariant k <= |m| && s == mems + k && line[s] == (m + "\0")[k]
      invariant nmem + |AfterCommas(m, k)| == Slots(m)
      decreases |m| - k
    {
      if line[s] == ',' {
        nmem := nmem + 1;
      }
      s, k := s + 1, k + 1;
      assert k < |m| ==> line[mems..mems + |m|][k] == line[s];
    }
  }

  /** The line after terminators were written before the given cuts. */
  function Cutting(m: string, cuts: seq<nat>): string {
    seq(|m|, i requires 0 <= i < |m| => if i + 1 in cuts then '\0' else m[i])
  }

  /** The loop before place k: which cuts it has made, and what is still as it was. */
  ghost predicate Splitting(line: array<char>, mems: nat, mem: array<int>, m: string, k: nat, cuts: seq<nat>)
    reads line, mem
  {
    && k <= |m| + 1 && mems + |m| + 2 <= line.Length && |cuts| < mem.Length
    && line[mems..mems + |m|] == Cutting(m, cuts)
    && (forall j | k <= j < |m| :: line[mems + j] == m[j])
    && line[mems + |m|] == '\0' && line[mems + |m| + 1] == '\0'
    && mem[0] == mems && forall j | 0 <= j < |cuts| :: mem[j + 1] == mems + cuts[j]
  }

  method CutAt(line: array<char>, mems: nat, mem: array<int>, k: nat, i: nat, ghost m: string, ghost cuts: seq<nat>)
    requires Splitting(line, mems, mem, m, k, cuts) && k < |m| && i == |cuts| + 1 < mem.Length
    modifies line, mem
    ensures Splitting(line, mems, mem, m, k + 2, cuts + [k + 1])
  {
    line[mems + k] := '\0';
    mem[i] := mems + k + 1;
    assert line[mems..mems + |m|] == Cutting(m, cuts + [k + 1]);
  }

  /** The loop over the characters. */
  method CutAll(line: array<char>, mems: nat, mem: array<int>, ghost m: string) returns (i: nat, ghost k: nat)
    requires Splitting(line, mems, mem, m, 0, []) && NoNul(m) && |Cuts(m, 0)| < mem.Length
    modifies line, mem
    ensures i == |Cuts(m, 0)| && Splitting(line, mems, mem, m, k, Cuts(m, 0))
  {
    var s := mems;
    i, k := 0, 0;
    ghost var cuts: seq<nat> := [];
    while line[s] != '\0'
      invariant s == mems + k && Splitting(line, mems, mem, m, k, cuts)
      invariant i == |cuts| && Cuts(m, 0) == cuts + Cuts(m, k)
      decreases |m| + 1 - k
    {
      assert line[s] == m[k];
      if line[s] == ',' {
        CutsStep(m, k, cuts);
        CutAt(line, mems, mem, s - mems, i + 1, m, cuts);
        s, i, cuts := s + 1, i + 1, cuts + [k + 1];
        k := k + 1;
      } else {
        NoCutHere(line, mems, mem, m, k, cuts);
      }
      s, k := s + 1, k + 1;
    }
    CutsEnd(line, mems, mem, m, k, cuts);
  }

  lemma NoCutHere(line: array<char>, mems: nat, mem: array<int>, m: string, k: nat, cuts: seq<nat>)
    requires Splitting(line, mems, mem, m, k, cuts) && k < |m| && m[k] != ','
    ensures Splitting(line, mems, mem, m, k + 1, cuts) && Cuts(m, k) == Cuts(m, k + 1)
  {
  }

  lemma CutsStep(m: string, k: nat, cuts: seq<nat>)
    requires k < |m| && m[k] == ','
    ensures cuts + Cuts(m, k) == cuts + [k + 1] + Cuts(m, k + 2)
    ensures |cuts| < |cuts + Cuts(m, k)|
  {
  }

  lemma CutsEnd(line: array<char>, mems: nat, mem: array<int>, m: string, k: nat, cuts: seq<nat>)
    requires Splitting(line, mems, mem, m, k, cuts) && NoNul(m) && line[mems + k] == '\0'
    ensures cuts + Cuts(m, k) == cuts
  {
  }

  /**
   * Splits the list: mem gets the places of the members and a null, here -1, within the
   * space that was counted.
   */
  method SplitMembers(line: array<char>, mems: nat, mem: array<int>, ghost m: string) returns (ghost n: nat)
    requires Holds(line, mems, m) && m != "" && mem.Length == Slots(m) + 1
    modifies line, mem
    ensures n == |Cuts(m, 0)| + 1 < mem.Length && mem[n] == -1
    ensures forall i | 0 <= i < n :: mem[i] == mems + Begin(0, Cuts(m, 0), i)
    ensures line[mems..mems + |m|] == Cutting(m, Cuts(m, 0)) && line[mems + |m|] == '\0'
  {
    CutsAreAllExactlyWhen(m, 0);
    mem[0] := mems;
    assert line[mems..mems + |m|] == Cutting(m, []);
    assert forall j | 0 <= j < |m| :: line[mems..mems + |m|][j] == m[j];
    var i, k := CutAll(line, mems, mem, m);
    mem[i + 1] := -1;
    n := i + 1;
  }

  // ---- reading the members ----

  /** Where piece i begins and ends. */
  function Begin(from: nat, cuts: seq<nat>, i: nat): nat
    requires i <= |cuts|
  {
    if i == 0 then from else cuts[i - 1]
  }

  function End(m: string, cuts: seq<nat>, i: nat): int
    requires i <= |cuts|
  {
    if i < |cuts| then cuts[i] - 1 else |m|
  }

  lemma RisingRest(m: string, from: nat, cuts: seq<nat>)
    requires from <= |m| && Rising(m, from, cuts) && cuts != []
    ensures cuts[0] <= |m| && Rising(m, cuts[0], cuts[1..])
  {
  }

  lemma {:induction false} PieceAt(m: string, from: nat, cuts: seq<nat>, i: nat)
    requires from <= |m| && Rising(m, from, cuts) && i <= |cuts|
    ensures |Pieces(m, from, cuts)| == |cuts| + 1
    ensures Begin(from, cuts, i) <= End(m, cuts, i) <= |m|
    ensures Pieces(m, from, cuts)[i] == m[Begin(from, cuts, i)..End(m, cuts, i)]
    decreases |cuts|
  {
    PiecesCount(m, from, cuts);
    if i > 0 {
      RisingRest(m, from, cuts);
      PieceAt(m, cuts[0], cuts[1..], i - 1);
    }
  }

  lemma BetweenCuts(m: string, cuts: seq<nat>, i: nat, j: nat)
    requires Rising(m, 0, cuts) && i <= |cuts|
    requires Begin(0, cuts, i) <= j < End(m, cuts, i)
    ensures j + 1 !in cuts
  {
    forall l | 0 <= l < |cuts|
      ensures cuts[l] != j + 1
    {
      assert l < i ==> cuts[l] <= cuts[i - 1];
      assert l >= i ==> cuts[l] >= cuts[i];
    }
  }

  // ---- the buffer of the caller ----

  /** A byte of the buffer: a character, or one of the eight bytes of a pointer. */
  datatype Cell = Char(c: char) | Ptr(target: int, part: nat)

  /** Does the array of pointers at this place hold the target at index i? */
  predicate PointerAt(buf: seq<Cell>, mem: nat, i: nat, target: int) {
    mem + 8 * i + 8 <= |buf| && forall k | 0 <= k < 8 :: buf[mem + 8 * i + k] == Ptr(target, k)
  }

  method PutPointer(buf: array<Cell>, mem: nat, i: nat, target: int)
    requires mem + 8 * i + 8 <= buf.Length
    modifies buf
    ensures PointerAt(buf[..], mem, i, target)
    ensures forall j | 0 <= j < buf.Length && !(mem + 8 * i <= j < mem + 8 * i + 8) :: buf[j] == old(buf[j])
  {
    for k := 0 to 8
      invariant forall l | 0 <= l < k :: buf[mem + 8 * i + l] == Ptr(target, l)
      invariant forall j | 0 <= j < buf.Length && !(mem + 8 * i <= j < mem + 8 * i + 8) :: buf[j] == old(buf[j])
    {
      buf[mem + 8 * i + k] := Ptr(target, k);
    }
  }

  method PutText(buf: array<Cell>, at: nat, line: array<char>)
    requires at + line.Length <= buf.Length
    modifies buf
    ensures forall k | 0 <= k < line.Length :: buf[at + k] == Char(line[k])
  {
    for k := 0 to line.Length
      invariant forall l | 0 <= l < k :: buf[at + l] == Char(line[l])
    {
      buf[at + k] := Char(line[k]);
    }
  }

  method PutPointers(buf: array<Cell>, mem: nat, text: nat, places: array<int>, ghost n: nat)
    requires n < places.Length && places[n] == -1 && forall i | 0 <= i < n :: places[i] >= 0
    requires mem + 8 * places.Length <= text <= buf.Length
    modifies buf
    ensures forall i | 0 <= i < n :: PointerAt(buf[..], mem, i, text + places[i])
    ensures PointerAt(buf[..], mem, n, -1)
    ensures forall j | text <= j < buf.Length :: buf[j] == old(buf[j])
  {
    var i := 0;
    while places[i] != -1
      invariant i <= n
      invariant forall l | 0 <= l < i :: PointerAt(buf[..], mem, l, text + places[l])
      invariant forall j | text <= j < buf.Length :: buf[j] == old(buf[j])
      decreases n - i
    {
      ghost var before := buf[..];
      PutPointer(buf, mem, i, text + places[i]);
      assert forall l | 0 <= l < i :: PointerAt(before, mem, l, text + places[l]);
      i := i + 1;
    }
    ghost var before := buf[..];
    PutPointer(buf, mem, i, -1);
    assert forall l | 0 <= l < i :: PointerAt(before, mem, l, text + places[l]);
  }

  /** The line is in the buffer from the given place on. */
  predicate Copied(buf: seq<Cell>, text: nat, line: seq<char>) {
    text + |line| <= |buf| && forall k | 0 <= k < |line| :: buf[text + k] == Char(line[k])
  }

  /** The first n pointers have been moved by the same distance. */
  predicate Moved(buf: seq<Cell>, grMem: nat, text: nat, mem: seq<int>, n: nat) {
    n <= |mem| && forall i | 0 <= i < n :: PointerAt(buf, grMem, i, text + mem[i])
  }

  /**
   * Moves line and pointers into the caller's buffer at the given address.  If the size
   * is too small nothing is written; otherwise everything lies inside the buffer, the
   * pointers first and aligned to 16, the text behind them, and every pointer, moved by
   * the same distance as the text, finds in the copy what it found in the line.
   */
  method Relocate(buf: array<Cell>, address: nat, line: array<char>, mem: array<int>, nmem: nat, name: nat,
                  passwd: nat, ghost n: nat)
    returns (rv: int, grMem: nat, text: nat, grName: nat, grPasswd: nat)
    requires mem.Length == nmem + 1 && n <= nmem && mem[n] == -1 && forall i | 0 <= i < n :: 0 <= mem[i] < line.Length
    modifies buf
    ensures rv == if buf.Length < line.Length + (nmem + 1) * 8 + 32 then ERANGE else 0
    ensures rv != 0 ==> buf[..] == old(buf[..])
    ensures rv == 0 ==>
      && (address + grMem) % 16 == 0 && grMem + 8 * (nmem + 1) == text
      && Copied(buf[..], text, line[..]) && Moved(buf[..], grMem, text, mem[..], n)
      && PointerAt(buf[..], grMem, n, -1) && grName == text + name && grPasswd == text + passwd
  {
    grMem, text, grName, grPasswd := 0, 0, 0, 0;
    if buf.Length < line.Length + (nmem + 1) * 8 + 32 {
      return ERANGE, grMem, text, grName, grPasswd;
    }
    grMem := (16 - address) % 16;
    text := grMem + (nmem + 1) * 8;
    PutText(buf, text, line);
    grName := text + name;
    grPasswd := text + passwd;
    PutPointers(buf, grMem, text, mem, n);
    rv := 0;
  }

  /** The terminated string s is at place t of the buffer. */
  predicate ReadsAt(buf: seq<Cell>, t: int, s: string) {
    && 0 <= t && t + |s| < |buf| && buf[t + |s|] == Char('\0') && NoNul(s)
    && forall k | 0 <= k < |s| :: buf[t + k] == Char(s[k])
  }

  /** The terminated string s is at place p of the line. */
  predicate LineHas(line: seq<char>, p: int, s: string) {
    0 <= p && p + |s| < |line| && line[p..p + |s|] == s && line[p + |s|] == '\0' && NoNul(s)
  }

  /** What is copied is read where the copy is. */
  lemma CopyReads(line: seq<char>, buf: seq<Cell>, text: nat, p: int, s: string)
    requires Copied(buf, text, line) && LineHas(line, p, s)
    ensures ReadsAt(buf, text + p, s)
  {
    forall k | 0 <= k < |s|
      ensures buf[text + p + k] == Char(s[k])
    {
      assert s[k] == line[p..p + |s|][k];
      assert buf[text + (p + k)] == Char(line[p + k]);
    }
    assert buf[text + (p + |s|)] == Char(line[p + |s|]);
  }

  /** Between its cuts the split text still has the piece, with a terminator behind it. */
  lemma PieceInText(m: string, cuts: seq<nat>, i: nat)
    requires Rising(m, 0, cuts) && i <= |cuts|
    ensures |Pieces(m, 0, cuts)| == |cuts| + 1
    ensures Begin(0, cuts, i) <= End(m, cuts, i) <= |m|
    ensures Cutting(m, cuts)[Begin(0, cuts, i)..End(m, cuts, i)] == Pieces(m, 0, cuts)[i]
    ensures Pieces(m, 0, cuts)[i] == m[Begin(0, cuts, i)..End(m, cuts, i)]
    ensures i < |cuts| ==> Cutting(m, cuts)[End(m, cuts, i)] == '\0'
  {
    PieceAt(m, 0, cuts, i);
    forall j | Begin(0, cuts, i) <= j < End(m, cuts, i)
      ensures Cutting(m, cuts)[j] == m[j]
    {
      BetweenCuts(m, cuts, i, j);
    }
  }

  lemma PartOfPart(line: seq<char>, mems: nat, text: string, begin: nat, end: nat)
    requires mems + |text| < |line| && line[mems..mems + |text|] == text && begin <= end <= |text|
    ensures line[mems + begin..mems + end] == text[begin..end]
    ensures end < |text| ==> line[mems + end] == text[end]
  {
    forall k | 0 <= k < end - begin
      ensures line[mems + begin..mems + end][k] == text[begin..end][k]
    {
      assert line[mems..mems + |text|][begin + k] == text[begin + k];
    }
    assert end < |text| ==> line[mems..mems + |text|][end] == text[end];
  }

  /** A piece of the list, where it is in the split line. */
  lemma PieceInLine(line: seq<char>, mems: nat, m: string, i: nat)
    requires mems + |m| < |line| && NoNul(m) && line[mems + |m|] == '\0'
    requires line[mems..mems + |m|] == Cutting(m, Cuts(m, 0)) && i <= |Cuts(m, 0)|
    ensures |Split(m)| == |Cuts(m, 0)| + 1
    ensures LineHas(line, mems + Begin(0, Cuts(m, 0), i), Split(m)[i])
  {
    CutsRise(m, 0);
    var cuts := Cuts(m, 0);
    PieceInText(m, cuts, i);
    PartOfPart(line, mems, Cutting(m, cuts), Begin(0, cuts, i), End(m, cuts, i));
  }

  predicate PointsTo(buf: seq<Cell>, mem: nat, i: nat, t: int, s: string) {
    PointerAt(buf, mem, i, t) && ReadsAt(buf, t, s)
  }

  /** Following pointer i leads to the string s. */
  ghost predicate PointerReads(buf: seq<Cell>, mem: nat, i: nat, s: string) {
    exists t :: PointsTo(buf, mem, i, t, s)
  }

  /** Pointers moved by the same distance as the text lead to what they led to in the line. */
  lemma AllRead(line: seq<char>, buf: seq<Cell>, text: nat, grMem: nat, mem: seq<int>, found: seq<string>)
    requires Copied(buf, text, line) && Located(line, mem, found) && Moved(buf, grMem, text, mem, |found|)
    ensures forall i | 0 <= i < |found| :: PointerReads(buf, grMem, i, found[i])
  {
    forall i | 0 <= i < |found|
      ensures PointerReads(buf, grMem, i, found[i])
    {
      CopyReads(line, buf, text, mem[i], found[i]);
      assert PointsTo(buf, grMem, i, text + mem[i], found[i]);
    }
  }

  /** The members as the loop splits them; an empty list has none. */
  function Found(m: string): seq<string> {
    if m == "" then [] else Split(m)
  }

  /** An empty list has no member; what is found in any other is its members exactly if no two commas meet. */
  lemma FoundAreMembersExactlyWhen(m: string)
    ensures m == "" ==> |Found(m)| == 0
    ensures m != "" ==> (Found(m) == Members(m) <==> !DoubleComma(m, 0))
  {
    SplitFindsMembersExactlyWhen(m);
  }

  predicate Located(line: seq<char>, mem: seq<int>, found: seq<string>) {
    |found| <= |mem| && forall i | 0 <= i < |found| :: LineHas(line, mem[i], found[i])
  }

  /** Counting and splitting together: where the found members are in the line. */
  method FindMembers(line: array<char>, mems: nat, ghost m: string) returns (mem: array<int>, nmem: nat)
    requires Holds(line, mems, m)
    modifies line
    ensures fresh(mem) && nmem == Slots(m) && mem.Length == nmem + 1 && |Found(m)| <= nmem
    ensures mem[|Found(m)|] == -1 && Located(line[..], mem[..], Found(m))
  {
    nmem := CountMembers(line, mems, m);
    mem := new int[nmem + 1];
    assert m != "" ==> line[mems..mems + |m|][0] == line[mems];
    if line[mems] != '\0' {
      ghost var n := SplitMembers(line, mems, mem, m);
      PieceInLine(line[..], mems, m, 0);
      forall i | 0 <= i < n ensures LineHas(line[..], mem[i], Split(m)[i]) {
        PieceInLine(line[..], mems, m, i);
      }
    } else {
      mem[0] := -1;
    }
  }

  /**
   * From the line as read to the buffer of the caller: when the size suffices, pointer i
   * reads member i as the loop has split them, a null pointer ends the list, and name and
   * password have moved with the text.
   */
  method GetMembers(buf: array<Cell>, address: nat, line: array<char>, mems: nat, name: nat, passwd: nat,
                    ghost m: string)
    returns (rv: int, grMem: nat, nmem: nat, text: nat, grName: nat, grPasswd: nat)
    requires Holds(line, mems, m)
    modifies buf, line
    ensures nmem == Slots(m) && rv == if buf.Length < line.Length + (nmem + 1) * 8 + 32 then ERANGE else 0
    ensures rv == 0 ==>
      && (forall i | 0 <= i < |Found(m)| :: PointerReads(buf[..], grMem, i, Found(m)[i]))
      && PointerAt(buf[..], grMem, |Found(m)|, -1)
      && Copied(buf[..], text, line[..]) && grName == text + name && grPasswd == text + passwd
  {
    var mem;
    mem, nmem := FindMembers(line, mems, m);
    rv, grMem, text, grName, grPasswd := Relocate(buf, address, line, mem, nmem, name, passwd, |Found(m)|);
    if rv == 0 {
      AllRead(line[..], buf[..], text, grMem, mem[..], Found(m));
    }
  }
}
