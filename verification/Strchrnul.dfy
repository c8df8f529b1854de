/**
 * The word-at-a-time strchrnul().  Index i of the memory stands for the address i,
 * so a string may start at any alignment; words have 4 or 8 bytes, in either byte
 * order.
 */
module Strchrnul {

  // ---- words of 8 bytes, b0 the least significant ----

  /** All bits set, divided by 0xff, times 0xfe, without its top bit, with its lowest. */
  lemma MagicBits64()
    ensures (((0xFFFF_FFFF_FFFF_FFFF as bv64) / 0xff) * 0xfe << 1 >> 1) | 1 == 0x7EFE_FEFE_FEFE_FEFF
  {
  }

  /** Doubling the character up to the word leaves it in every byte. */
  lemma CharMask64(c: bv8)
    ensures ((((c as bv64) | ((c as bv64) << 8)) | (((c as bv64) | ((c as bv64) << 8)) << 16))
           | ((((c as bv64) | ((c as bv64) << 8)) | (((c as bv64) | ((c as bv64) << 8)) << 16)) << 16 << 16))
         == (c as bv64) | ((c as bv64) << 8) | ((c as bv64) << 16) | ((c as bv64) << 24)
            | ((c as bv64) << 32) | ((c as bv64) << 40) | ((c as bv64) << 48) | ((c as bv64) << 56)
  {
  }

  /** Adding the magic bits leaves a hole unchanged exactly for a zero byte or a top byte 0x80. */
  lemma HoleUnchanged64(b0: bv8, b1: bv8, b2: bv8, b3: bv8, b4: bv8, b5: bv8, b6: bv8, b7: bv8, w: bv64)
    requires w == (b0 as bv64) | ((b1 as bv64) << 8) | ((b2 as bv64) << 16) | ((b3 as bv64) << 24)
            | ((b4 as bv64) << 32) | ((b5 as bv64) << 40) | ((b6 as bv64) << 48) | ((b7 as bv64) << 56)
    ensures ((w + 0x7EFE_FEFE_FEFE_FEFF) ^ !w) & !0x7EFE_FEFE_FEFE_FEFF != 0 <==>
            b0 == 0 || b1 == 0 || b2 == 0 || b3 == 0 || b4 == 0 || b5 == 0 || b6 == 0 || b7 == 0 || b7 == 0x80
  {
  }

  lemma XorBytes64(b0: bv8, b1: bv8, b2: bv8, b3: bv8, b4: bv8, b5: bv8, b6: bv8, b7: bv8, c: bv8)
    ensures ((b0 as bv64) | ((b1 as bv64) << 8) | ((b2 as bv64) << 16) | ((b3 as bv64) << 24)
            | ((b4 as bv64) << 32) | ((b5 as bv64) << 40) | ((b6 as bv64) << 48) | ((b7 as bv64) << 56))
          ^ ((c as bv64) | ((c as bv64) << 8) | ((c as bv64) << 16) | ((c as bv64) << 24)
            | ((c as bv64) << 32) | ((c as bv64) << 40) | ((c as bv64) << 48) | ((c as bv64) << 56))
         == ((b0 ^ c) as bv64) | (((b1 ^ c) as bv64) << 8) | (((b2 ^ c) as bv64) << 16) | (((b3 ^ c) as bv64) << 24)
            | (((b4 ^ c) as bv64) << 32) | (((b5 ^ c) as bv64) << 40) | (((b6 ^ c) as bv64) << 48) | (((b7 ^ c) as bv64) << 56)
  {
  }

  lemma XorHits64(b0: bv8, b1: bv8, b2: bv8, b3: bv8, b4: bv8, b5: bv8, b6: bv8, b7: bv8, c: bv8)
    ensures b0 ^ c == 0 || b1 ^ c == 0 || b2 ^ c == 0 || b3 ^ c == 0
            || b4 ^ c == 0 || b5 ^ c == 0 || b6 ^ c == 0 || b7 ^ c == 0 <==>
            b0 == c || b1 == c || b2 == c || b3 == c || b4 == c || b5 == c || b6 == c || b7 == c
  {
  }

  /** The test for a NUL byte. */
  method ZeroTest64(b0: bv8, b1: bv8, b2: bv8, b3: bv8, b4: bv8, b5: bv8, b6: bv8, b7: bv8) returns (hit: bool)
    ensures hit <==> b0 == 0 || b1 == 0 || b2 == 0 || b3 == 0 || b4 == 0 || b5 == 0 || b6 == 0 || b7 == 0 || b7 == 0x80
  {
    var w := (b0 as bv64) | ((b1 as bv64) << 8) | ((b2 as bv64) << 16) | ((b3 as bv64) << 24)
            | ((b4 as bv64) << 32) | ((b5 as bv64) << 40) | ((b6 as bv64) << 48) | ((b7 as bv64) << 56);
    HoleUnchanged64(b0, b1, b2, b3, b4, b5, b6, b7, w);
    hit := ((w + 0x7EFE_FEFE_FEFE_FEFF) ^ !w) & !0x7EFE_FEFE_FEFE_FEFF != 0;
  }

  /** The test for the character, on the word xored with the character in every byte. */
  method CharTest64(b0: bv8, b1: bv8, b2: bv8, b3: bv8, b4: bv8, b5: bv8, b6: bv8, b7: bv8, c: bv8)
    returns (hit: bool)
    ensures hit <==>
            b0 == c || b1 == c || b2 == c || b3 == c || b4 == c || b5 == c || b6 == c || b7 == c || b7 ^ c == 0x80
  {
    var x := ((b0 as bv64) | ((b1 as bv64) << 8) | ((b2 as bv64) << 16) | ((b3 as bv64) << 24)
            | ((b4 as bv64) << 32) | ((b5 as bv64) << 40) | ((b6 as bv64) << 48) | ((b7 as bv64) << 56))
           ^ ((((c as bv64) | ((c as bv64) << 8)) | (((c as bv64) | ((c as bv64) << 8)) << 16))
            | ((((c as bv64) | ((c as bv64) << 8)) | (((c as bv64) | ((c as bv64) << 8)) << 16)) << 16 << 16));
    CharMask64(c);
    XorBytes64(b0, b1, b2, b3, b4, b5, b6, b7, c);
    HoleUnchanged64(b0 ^ c, b1 ^ c, b2 ^ c, b3 ^ c, b4 ^ c, b5 ^ c, b6 ^ c, b7 ^ c, x);
    XorHits64(b0, b1, b2, b3, b4, b5, b6, b7, c);
    hit := ((x + 0x7EFE_FEFE_FEFE_FEFF) ^ !x) & !0x7EFE_FEFE_FEFE_FEFF != 0;
  }

  // ---- words of 4 bytes, b0 the least significant ----

  /** All bits set, divided by 0xff, times 0xfe, without its top bit, with its lowest. */
  lemma MagicBits32()
    ensures (((0xFFFF_FFFF as bv32) / 0xff) * 0xfe << 1 >> 1) | 1 == 0x7EFE_FEFF
  {
  }

  /** Doubling the character up to the word leaves it in every byte. */
  lemma CharMask32(c: bv8)
    ensures (((c as bv32) | ((c as bv32) << 8)) | (((c as bv32) | ((c as bv32) << 8)) << 16))
         == (c as bv32) | ((c as bv32) << 8) | ((c as bv32) << 16) | ((c as bv32) << 24)
  {
  }

  /** Adding the magic bits leaves a hole unchanged exactly for a zero byte or a top byte 0x80. */
  lemma HoleUnchanged32(b0: bv8, b1: bv8, b2: bv8, b3: bv8, w: bv32)
    requires w == (b0 as bv32) | ((b1 as bv32) << 8) | ((b2 as bv32) << 16) | ((b3 as bv32) << 24)
    ensures ((w + 0x7EFE_FEFF) ^ !w) & !0x7EFE_FEFF != 0 <==>
            b0 == 0 || b1 == 0 || b2 == 0 || b3 == 0 || b3 == 0x80
  {
  }

  lemma XorBytes32(b0: bv8, b1: bv8, b2: bv8, b3: bv8, c: bv8)
    ensures ((b0 as bv32) | ((b1 as bv32) << 8) | ((b2 as bv32) << 16) | ((b3 as bv32) << 24))
          ^ ((c as bv32) | ((c as bv32) << 8) | ((c as bv32) << 16) | ((c as bv32) << 24))
         == ((b0 ^ c) as bv32) | (((b1 ^ c) as bv32) << 8) | (((b2 ^ c) as bv32) << 16) | (((b3 ^ c) as bv32) << 24)
  {
  }

  lemma XorHits32(b0: bv8, b1: bv8, b2: bv8, b3: bv8, c: bv8)
    ensures b0 ^ c == 0 || b1 ^ c == 0 || b2 ^ c == 0 || b3 ^ c == 0 <==>
            b0 == c || b1 == c || b2 == c || b3 == c
  {
  }

  /** The test for a NUL byte. */
  method ZeroTest32(b0: bv8, b1: bv8, b2: bv8, b3: bv8) returns (hit: bool)
    ensures hit <==> b0 == 0 || b1 == 0 || b2 == 0 || b3 == 0 || b3 == 0x80
  {
    var w := (b0 as bv32) | ((b1 as bv32) << 8) | ((b2 as bv32) << 16) | ((b3 as bv32) << 24);
    HoleUnchanged32(b0, b1, b2, b3, w);
    hit := ((w + 0x7EFE_FEFF) ^ !w) & !0x7EFE_FEFF != 0;
  }

  /** The test for the character, on the word xored with the character in every byte. */
  method CharTest32(b0: bv8, b1: bv8, b2: bv8, b3: bv8, c: bv8) returns (hit: bool)
    ensures hit <==> b0 == c || b1 == c || b2 == c || b3 == c || b3 ^ c == 0x80
  {
    var x := ((b0 as bv32) | ((b1 as bv32) << 8) | ((b2 as bv32) << 16) | ((b3 as bv32) << 24))
           ^ (((c as bv32) | ((c as bv32) << 8)) | (((c as bv32) | ((c as bv32) << 8)) << 16));
    CharMask32(c);
    XorBytes32(b0, b1, b2, b3, c);
    HoleUnchanged32(b0 ^ c, b1 ^ c, b2 ^ c, b3 ^ c, x);
    XorHits32(b0, b1, b2, b3, c);
    hit := ((x + 0x7EFE_FEFF) ^ !x) & !0x7EFE_FEFF != 0;
  }

  // ---- the test on a word in memory ----

  predicate Stops(b: bv8, c: bv8) {
    b == c || b == 0
  }

  /** p is the first place at or after start that holds c or NUL. */
  predicate FirstStop(mem: seq<bv8>, start: nat, c: bv8, p: nat) {
    start <= p < |mem| && Stops(mem[p], c) && forall i | start <= i < p :: !Stops(mem[i], c)
  }

  predicate StopIn(mem: seq<bv8>, at: nat, size: nat, c: bv8)
    requires at + size <= |mem|
  {
    exists i | at <= i < at + size :: Stops(mem[i], c)
  }

  function WordSize(wide: bool): nat {
    if wide then 8 else 4
  }

  /** The byte that becomes the most significant one when the word is loaded. */
  function TopByte(mem: seq<bv8>, at: nat, wide: bool, bigEndian: bool): bv8
    requires at + WordSize(wide) <= |mem|
  {
    if bigEndian then mem[at] else mem[at + WordSize(wide) - 1]
  }

  /** A word without a stop that the test still reports. */
  predicate Misfires(top: bv8, c: bv8) {
    top == 0x80 || top ^ c == 0x80
  }

  /**
   * The test on one word: it fires on every word with a stop, and on the others
   * exactly when the most significant byte is 0x80 or differs from c by 0x80.
   */
  method Suspicious(mem: seq<bv8>, at: nat, c: bv8, wide: bool, bigEndian: bool) returns (hit: bool)
    requires at + WordSize(wide) <= |mem|
    ensures hit <==> StopIn(mem, at, WordSize(wide), c) || Misfires(TopByte(mem, at, wide, bigEndian), c)
  {
    if wide {
      hit := Suspicious64(mem, at, c, bigEndian);
    } else {
      hit := Suspicious32(mem, at, c, bigEndian);
    }
  }

  method Test64(b0: bv8, b1: bv8, b2: bv8, b3: bv8, b4: bv8, b5: bv8, b6: bv8, b7: bv8, c: bv8)
    returns (hit: bool)
    ensures hit <==>
            Stops(b0, c) || Stops(b1, c) || Stops(b2, c) || Stops(b3, c)
            || Stops(b4, c) || Stops(b5, c) || Stops(b6, c) || Stops(b7, c) || Misfires(b7, c)
  {
    hit := ZeroTest64(b0, b1, b2, b3, b4, b5, b6, b7);
    if !hit {
      hit := CharTest64(b0, b1, b2, b3, b4, b5, b6, b7, c);
    }
  }

  lemma StopIn64(mem: seq<bv8>, at: nat, c: bv8)
    requires at + 8 <= |mem|
    ensures StopIn(mem, at, 8, c) <==>
            Stops(mem[at], c) || Stops(mem[at + 1], c) || Stops(mem[at + 2], c) || Stops(mem[at + 3], c)
            || Stops(mem[at + 4], c) || Stops(mem[at + 5], c) || Stops(mem[at + 6], c) || Stops(mem[at + 7], c)
  {
  }

  method Suspicious64(mem: seq<bv8>, at: nat, c: bv8, bigEndian: bool) returns (hit: bool)
    requires at + 8 <= |mem|
    ensures hit <==> StopIn(mem, at, 8, c) || Misfires(TopByte(mem, at, true, bigEndian), c)
  {
    StopIn64(mem, at, c);
    if bigEndian {
      hit := Test64(mem[at + 7], mem[at + 6], mem[at + 5], mem[at + 4],
                   mem[at + 3], mem[at + 2], mem[at + 1], mem[at], c);
    } else {
      hit := Test64(mem[at], mem[at + 1], mem[at + 2], mem[at + 3],
                   mem[at + 4], mem[at + 5], mem[at + 6], mem[at + 7], c);
    }
  }

  method Test32(b0: bv8, b1: bv8, b2: bv8, b3: bv8, c: bv8) returns (hit: bool)
    ensures hit <==>
            Stops(b0, c) || Stops(b1, c) || Stops(b2, c) || Stops(b3, c) || Misfires(b3, c)
  {
    hit := ZeroTest32(b0, b1, b2, b3);
    if !hit {
      hit := CharTest32(b0, b1, b2, b3, c);
    }
  }

  lemma StopIn32(mem: seq<bv8>, at: nat, c: bv8)
    requires at + 4 <= |mem|
    ensures StopIn(mem, at, 4, c) <==>
            Stops(mem[at], c) || Stops(mem[at + 1], c) || Stops(mem[at + 2], c) || Stops(mem[at + 3], c)
  {
  }

  method Suspicious32(mem: seq<bv8>, at: nat, c: bv8, bigEndian: bool) returns (hit: bool)
    requires at + 4 <= |mem|
    ensures hit <==> StopIn(mem, at, 4, c) || Misfires(TopByte(mem, at, false, bigEndian), c)
  {
    StopIn32(mem, at, c);
    if bigEndian {
      hit := Test32(mem[at + 3], mem[at + 2], mem[at + 1], mem[at], c);
    } else {
      hit := Test32(mem[at], mem[at + 1], mem[at + 2], mem[at + 3], c);
    }
  }

  /** Which of the bytes was it, if any? */
  method CheckWord(mem: seq<bv8>, at: nat, c: bv8, wide: bool) returns (found: bool, cp: nat)
    requires at + WordSize(wide) <= |mem|
    ensures found <==> StopIn(mem, at, WordSize(wide), c)
    ensures found ==> FirstStop(mem, at, c, cp)
  {
    found, cp := CheckFour(mem, at, c);
    if !found && wide {
      found, cp := CheckFour(mem, at + 4, c);
    }
  }

  method CheckFour(mem: seq<bv8>, at: nat, c: bv8) returns (found: bool, cp: nat)
    requires at + 4 <= |mem|
    ensures found <==> StopIn(mem, at, 4, c)
    ensures found ==> FirstStop(mem, at, c, cp)
  {
    cp := at;
    if mem[cp] == c || mem[cp] == 0 { return true, cp; }
    cp := cp + 1;
    if mem[cp] == c || mem[cp] == 0 { return true, cp; }
    cp := cp + 1;
    if mem[cp] == c || mem[cp] == 0 { return true, cp; }
    cp := cp + 1;
    if mem[cp] == c || mem[cp] == 0 { return true, cp; }
    found := false;
  }

  // ---- the search ----

  /**
   * Finds the first c or NUL of a string that has a NUL somewhere, whatever the
   * alignment of its start; memory ends on a word boundary, as pages do.
   */
  method Find(mem: seq<bv8>, start: nat, cIn: int, wide: bool, bigEndian: bool, ghost nul: nat)
    returns (p: nat)
    requires start <= nul < |mem| && mem[nul] == 0
    requires |mem| % WordSize(wide) == 0
    ensures FirstStop(mem, start, (cIn % 256) as bv8, p)
  {
    var c := (cIn % 256) as bv8;
    var size := WordSize(wide);
    p := start;
    while p % size != 0
      invariant start <= p <= nul
      invariant forall i | start <= i < p :: !Stops(mem[i], c)
      decreases nul - p
    {
      if mem[p] == c || mem[p] == 0 {
        return;
      }
      p := p + 1;
    }
    p := FindByWords(mem, start, p, c, wide, bigEndian, nul);
  }

  /** An aligned place inside the memory has a whole word, and the next word is aligned too. */
  lemma WordFits(wide: bool, p: nat, end: nat)
    requires p % WordSize(wide) == 0 && end % WordSize(wide) == 0 && p < end
    ensures p + WordSize(wide) <= end && (p + WordSize(wide)) % WordSize(wide) == 0
  {
    if wide {
      EightFit(p, end);
    } else {
      FourFit(p, end);
    }
  }

  lemma EightFit(p: nat, end: nat)
    requires p % 8 == 0 && end % 8 == 0 && p < end
    ensures p + 8 <= end && (p + 8) % 8 == 0
  {
    var m, n := p / 8, end / 8;
    assert p == 8 * m && end == 8 * n;
  }

  lemma FourFit(p: nat, end: nat)
    requires p % 4 == 0 && end % 4 == 0 && p < end
    ensures p + 4 <= end && (p + 4) % 4 == 0
  {
    var m, n := p / 4, end / 4;
    assert p == 4 * m && end == 4 * n;
  }

  lemma NoStopInWord(mem: seq<bv8>, p: nat, size: nat, c: bv8)
    requires p + size <= |mem| && !StopIn(mem, p, size, c)
    ensures forall i | p <= i < p + size :: !Stops(mem[i], c)
  {
  }

  method FindByWords(mem: seq<bv8>, start: nat, aligned: nat, c: bv8, wide: bool, bigEndian: bool, ghost nul: nat)
    returns (p: nat)
    requires start <= aligned <= nul < |mem| && mem[nul] == 0
    requires aligned % WordSize(wide) == 0 && |mem| % WordSize(wide) == 0
    requires forall i | start <= i < aligned :: !Stops(mem[i], c)
    ensures FirstStop(mem, start, c, p)
  {
    var size := WordSize(wide);
    p := aligned;
    while true
      invariant start <= p <= nul && p % size == 0
      invariant forall i | start <= i < p :: !Stops(mem[i], c)
      decreases nul - p
    {
      WordFits(wide, p, |mem|);
      var hit := Suspicious(mem, p, c, wide, bigEndian);
      if hit {
        var found, cp := CheckWord(mem, p, c, wide);
        if found {
          return cp;
        }
      }
      NoStopInWord(mem, p, size, c);
      p := p + size;
    }
  }

  lemma FirstStopIsUnique(mem: seq<bv8>, start: nat, c: bv8, p: nat, q: nat)
    requires FirstStop(mem, start, c, p) && FirstStop(mem, start, c, q)
    ensures p == q
  {
  }
}
