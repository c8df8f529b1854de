/**
 * The overflow-checked arithmetic of compiler.h for every width of integer: what the
 * macros compute on wrapped values, divided quotients and sign bits is compared with
 * arithmetic on unbounded integers.
 */
module Overflow {
  import opened Powers

  /** An integer type of at least 2 bits. */
  datatype IntType = IntType(bits: nat, signed: bool) {
    predicate Valid() {
      bits >= 2
    }

    /** The values of the type. */
    predicate Has(x: int)
      requires Valid()
    {
      if signed then -Pow2(bits - 1) <= x < Pow2(bits - 1) else 0 <= x < Pow2(bits)
    }
  }

  /** Conversion to the type: the value congruent to x modulo 2^bits. */
  function Convert(t: IntType, x: int): int
    requires t.Valid()
  {
    var u := x % Pow2(t.bits);
    if t.signed && u >= Pow2(t.bits - 1) then u - Pow2(t.bits) else u
  }

  lemma DivMod(x: int, m: int)
    requires m > 0
    ensures x == m * (x / m) + x % m && 0 <= x % m < m
  {
  }

  lemma MultipleSize(m: int, k: int)
    requires m > 0
    ensures k >= 1 ==> m * k >= m
    ensures k <= -1 ==> m * k <= -m
  {
  }

  lemma ModUnique(x: int, m: int, k: int, r: int)
    requires m > 0 && x == m * k + r && 0 <= r < m
    ensures x % m == r
  {
    DivMod(x, m);
    assert r - x % m == m * (x / m - k);
    MultipleSize(m, x / m - k);
  }

  /** What conversion gives is of the type and congruent to x, and nothing else is. */
  lemma ConvertIsTheCongruentValue(t: IntType, x: int, k: int, r: int)
    requires t.Valid()
    requires t.Has(r) && x == Pow2(t.bits) * k + r
    ensures Convert(t, x) == r && t.Has(Convert(t, x))
  {
    var m := Pow2(t.bits);
    if r >= 0 {
      ModUnique(x, m, k, r);
    } else {
      assert m * k == m * (k - 1) + m;
      ModUnique(x, m, k - 1, r + m);
    }
  }

  lemma ConvertHas(t: IntType, x: int) returns (k: int)
    requires t.Valid()
    ensures t.Has(Convert(t, x)) && x == Pow2(t.bits) * k + Convert(t, x)
  {
    var m := Pow2(t.bits);
    DivMod(x, m);
    k := x / m;
    if t.signed && x % m >= Pow2(t.bits - 1) {
      assert m * (k + 1) == m * k + m;
      k := k + 1;
    }
  }

  lemma ConvertExact(t: IntType, x: int)
    requires t.Valid()
    ensures Convert(t, x) == x <==> t.Has(x)
  {
    var k := ConvertHas(t, x);
    if t.Has(x) {
      ConvertIsTheCongruentValue(t, x, 0, x);
    }
  }

  lemma MultiplesAdd(m: int, j: int, c: int, k: int)
    ensures m * (j + c * k) == m * j + (m * c) * k
  {
  }

  /** Computing in a wider word first makes no difference to what is stored. */
  lemma ThroughWord(t: IntType, word: nat, x: int, y: int, k: int)
    requires t.Valid() && t.bits <= word && x == y + Pow2(word) * k
    ensures Convert(t, x) == Convert(t, y)
  {
    Pow2Add(t.bits, word - t.bits);
    var m, c := Pow2(t.bits), Pow2(word - t.bits);
    var j := ConvertHas(t, y);
    MultiplesAdd(m, j, c, k);
    ConvertIsTheCongruentValue(t, x, j + c * k, Convert(t, y));
  }

  // ---- the limits ----

  function HalfMax(t: IntType): int
    requires t.Valid()
  {
    Pow2(t.bits - 1 - (if t.signed then 1 else 0))
  }

  function TypeMax(t: IntType): int
    requires t.Valid()
  {
    Convert(t, (HalfMax(t) - 1) + HalfMax(t))
  }

  function TypeMin(t: IntType): int
    requires t.Valid()
  {
    Convert(t, -TypeMax(t) - 1)
  }

  /** The limits bound the type tightly. */
  lemma LimitsAreTight(t: IntType)
    requires t.Valid()
    ensures t.Has(TypeMax(t)) && t.Has(TypeMin(t))
    ensures forall x :: t.Has(x) <==> TypeMin(t) <= x <= TypeMax(t)
  {
    ConvertExact(t, (HalfMax(t) - 1) + HalfMax(t));
    if t.signed {
      ConvertExact(t, -TypeMax(t) - 1);
    } else {
      assert -TypeMax(t) - 1 == Pow2(t.bits) * -1 + 0;
      ConvertIsTheCongruentValue(t, -TypeMax(t) - 1, -1, 0);
    }
  }

  // ---- unsigned ----

  datatype Checked = Checked(value: int, overflow: bool)

  /** The promise of the macros: the wrapped result, and overflow exactly if it had to wrap. */
  predicate Exact(t: IntType, c: Checked, x: int)
    requires t.Valid()
  {
    c.value == Convert(t, x) && (c.overflow <==> !t.Has(x))
  }

  function UnsignedAdd(t: IntType, a: int, b: int): Checked
    requires t.Valid()
  {
    var d := Convert(t, a + b);
    Checked(d, d < a)
  }

  function UnsignedSub(t: IntType, a: int, b: int): Checked
    requires t.Valid()
  {
    Checked(Convert(t, a - b), a < b)
  }

  /** The branch depends on which operand the compiler knows to be constant. */
  function UnsignedMul(t: IntType, a: int, b: int, bIsConstant: bool): Checked
    requires t.Valid()
  {
    Checked(Convert(t, a * b),
            if bIsConstant then b > 0 && a > TypeMax(t) / b else a > 0 && b > TypeMax(t) / a)
  }

  lemma UnsignedAddExact(t: IntType, a: int, b: int)
    requires t.Valid() && !t.signed && t.Has(a) && t.Has(b)
    ensures Exact(t, UnsignedAdd(t, a, b), a + b)
  {
    if t.Has(a + b) {
      ConvertExact(t, a + b);
    } else {
      ConvertIsTheCongruentValue(t, a + b, 1, a + b - Pow2(t.bits));
    }
  }

  lemma UnsignedSubExact(t: IntType, a: int, b: int)
    requires t.Valid() && !t.signed && t.Has(a) && t.Has(b)
    ensures Exact(t, UnsignedSub(t, a, b), a - b)
  {
  }

  /** Comparing with a quotient is comparing the product. */
  lemma QuotientBound(x: int, n: int, c: int)
    requires n >= 0 && c > 0
    ensures x > n / c <==> x * c > n
  {
    DivMod(n, c);
    var q := n / c;
    if x > q {
      assert x * c >= (q + 1) * c == c * q + c;
    } else {
      assert x * c <= q * c == c * q;
    }
  }

  lemma QuotientTest(a: int, b: int, max: int)
    requires a >= 0 && b >= 0 && max >= 0
    ensures (b > 0 && a > max / b) <==> a * b > max
    ensures a * b >= 0
  {
    if b > 0 {
      QuotientBound(a, max, b);
    }
  }

  lemma UnsignedMulExact(t: IntType, a: int, b: int, bIsConstant: bool)
    requires t.Valid() && !t.signed && t.Has(a) && t.Has(b)
    ensures Exact(t, UnsignedMul(t, a, b, bIsConstant), a * b)
  {
    LimitsAreTight(t);
    if bIsConstant {
      QuotientTest(a, b, TypeMax(t));
    } else {
      QuotientTest(b, a, TypeMax(t));
      assert b * a == a * b;
    }
  }

  // ---- signed ----

  /** Bit i of the two's complement of x, for i as large as you like. */
  predicate Bit(x: int, i: nat) {
    x / Pow2(i) % 2 == 1
  }

  /** From its sign bit on, a value of the type has the same bit everywhere. */
  lemma SignBits(t: IntType, x: int, i: nat)
    requires t.Valid() && t.signed && t.Has(x) && i >= t.bits - 1
    ensures Bit(x, i) <==> x < 0
  {
    Pow2Add(t.bits - 1, i - (t.bits - 1));
    MultipleSize(Pow2(t.bits - 1), Pow2(i - (t.bits - 1)));
    SmallQuotient(x, Pow2(i));
  }

  lemma SmallQuotient(x: int, p: int)
    requires p > 0 && -p <= x < p
    ensures x / p == if x < 0 then -1 else 0
  {
    DivMod(x, p);
    MultipleSize(p, x / p);
    MultipleSize(p, x / p + 1);
    assert p * (x / p + 1) == p * (x / p) + p;
  }

  /** The smallest value has no bit below its sign bit. */
  lemma MinHasSignBitsOnly(t: IntType, i: nat)
    requires t.Valid() && t.signed
    ensures Bit(-Pow2(t.bits - 1), i) <==> i >= t.bits - 1
  {
    if i >= t.bits - 1 {
      SignBits(t, -Pow2(t.bits - 1), i);
    } else {
      LowBitOfPower(t.bits - 1, i);
    }
  }

  lemma LowBitOfPower(n: nat, i: nat)
    requires i < n
    ensures !Bit(-Pow2(n), i)
  {
    Pow2Add(i + 1, n - 1 - i);
    var p, q := Pow2(i), Pow2(n - 1 - i);
    EvenMultiple(p, q);
    assert Pow2(n) == 2 * p * q;
  }

  lemma EvenMultiple(p: int, q: int)
    requires p > 0
    ensures -(2 * p * q) / p % 2 == 0
  {
    assert -(2 * p * q) == p * (2 * -q);
    DivExact(2 * -q, p);
  }

  lemma DivExact(k: int, m: int)
    requires m > 0
    ensures m * k / m == k
  {
    DivMod(m * k, m);
    assert m * k % m == m * (k - m * k / m);
    MultipleSize(m, k - m * k / m);
  }

  /** Some bit of (~(a ^ b) & (d ^ a)) & TypeMin, in arithmetic of the given width. */
  predicate AddTest(t: IntType, width: nat, a: int, b: int, d: int)
    requires t.Valid()
  {
    exists i: nat | i < width :: Bit(a, i) == Bit(b, i) && Bit(d, i) != Bit(a, i) && Bit(TypeMin(t), i)
  }

  /** Some bit of ((a ^ b) & (d ^ a)) & TypeMin. */
  predicate SubTest(t: IntType, width: nat, a: int, b: int, d: int)
    requires t.Valid()
  {
    exists i: nat | i < width :: Bit(a, i) != Bit(b, i) && Bit(d, i) != Bit(a, i) && Bit(TypeMin(t), i)
  }

  lemma MaskKeepsSigns(t: IntType, i: nat, a: int)
    requires t.Valid() && t.signed && t.Has(a)
    ensures Bit(TypeMin(t), i) <==> i >= t.bits - 1
    ensures i >= t.bits - 1 ==> (Bit(a, i) <==> a < 0)
  {
    ConvertExact(t, (HalfMax(t) - 1) + HalfMax(t));
    ConvertExact(t, -TypeMax(t) - 1);
    MinHasSignBitsOnly(t, i);
    if i >= t.bits - 1 {
      SignBits(t, a, i);
    }
  }

  /** The tests read off the signs, in arithmetic at least as wide as the type. */
  lemma TestsReadSigns(t: IntType, width: nat, a: int, b: int, d: int)
    requires t.Valid() && t.signed && t.Has(a) && t.Has(b) && t.Has(d) && t.bits <= width
    ensures AddTest(t, width, a, b, d) <==> ((a < 0) == (b < 0) && (d < 0) != (a < 0))
    ensures SubTest(t, width, a, b, d) <==> ((a < 0) != (b < 0) && (d < 0) != (a < 0))
  {
    forall i: nat
      ensures Bit(TypeMin(t), i) <==> i >= t.bits - 1
      ensures i >= t.bits - 1 ==> (Bit(a, i) <==> a < 0) && (Bit(b, i) <==> b < 0) && (Bit(d, i) <==> d < 0)
    {
      MaskKeepsSigns(t, i, a);
      MaskKeepsSigns(t, i, b);
      MaskKeepsSigns(t, i, d);
    }
    assert Bit(TypeMin(t), t.bits - 1);
  }

  /** The operands cast to the widest unsigned type, and the result wrapped there. */
  function Word(word: nat, x: int): int {
    x % Pow2(word)
  }

  function SignedAdd(t: IntType, word: nat, width: nat, a: int, b: int): Checked
    requires t.Valid()
  {
    var d := Convert(t, Word(word, Word(word, a) + Word(word, b)));
    Checked(d, AddTest(t, width, a, b, d))
  }

  function SignedSub(t: IntType, word: nat, width: nat, a: int, b: int): Checked
    requires t.Valid()
  {
    var d := Convert(t, Word(word, Word(word, a) - Word(word, b)));
    Checked(d, SubTest(t, width, a, b, d))
  }

  /** Division of C99: towards zero. */
  function Quotient(n: int, c: int): int
    requires c != 0
  {
    if (n < 0) == (c < 0) then Abs(n) / Abs(c) else -(Abs(n) / Abs(c))
  }

  function Abs(x: int): nat {
    if x < 0 then -x else x
  }

  function SignedMul(t: IntType, word: nat, a: int, b: int): Checked
    requires t.Valid()
  {
    var max, min := TypeMax(t), TypeMin(t);
    Checked(Convert(t, Word(word, Word(word, a) * Word(word, b))),
            || (b > 0 && (a > Quotient(max, b) || a < Quotient(min, b)))
            || (b < -1 && (a > Quotient(min, b) || a < Quotient(max, b)))
            || (b == -1 && a == min))
  }

  lemma WordOff(word: nat, x: int) returns (k: int)
    ensures Word(word, x) == x + Pow2(word) * k
  {
    DivMod(x, Pow2(word));
    k := -(x / Pow2(word));
    assert Pow2(word) * k == -(Pow2(word) * (x / Pow2(word)));
  }

  lemma WordSum(word: nat, a: int, b: int) returns (k: int)
    ensures Word(word, Word(word, a) + Word(word, b)) == a + b + Pow2(word) * k
  {
    var i := WordOff(word, a);
    var j := WordOff(word, b);
    var l := WordOff(word, Word(word, a) + Word(word, b));
    k := i + j + l;
  }

  lemma WordDifference(word: nat, a: int, b: int) returns (k: int)
    ensures Word(word, Word(word, a) - Word(word, b)) == a - b + Pow2(word) * k
  {
    var i := WordOff(word, a);
    var j := WordOff(word, b);
    var l := WordOff(word, Word(word, a) - Word(word, b));
    k := i - j + l;
  }

  lemma MulOff(a: int, b: int, w: int, i: int, j: int, l: int) returns (k: int)
    ensures (a + w * i) * (b + w * j) + w * l == a * b + w * k
  {
    var n := a * j + i * b + i * (w * j);
    assert (a + w * i) * (b + w * j) == a * b + a * (w * j) + (w * i) * b + (w * i) * (w * j);
    assert a * (w * j) == w * (a * j);
    assert (w * i) * b == w * (i * b);
    assert (w * i) * (w * j) == w * (i * (w * j));
    k := n + l;
    assert w * k == w * n + w * l;
  }

  lemma WordProduct(word: nat, a: int, b: int) returns (k: int)
    ensures Word(word, Word(word, a) * Word(word, b)) == a * b + Pow2(word) * k
  {
    var w := Pow2(word);
    var i := WordOff(word, a);
    var j := WordOff(word, b);
    var l := WordOff(word, Word(word, a) * Word(word, b));
    k := MulOff(a, b, w, i, j, l);
  }

  lemma SignedAddExact(t: IntType, word: nat, width: nat, a: int, b: int)
    requires t.Valid() && t.signed && t.Has(a) && t.Has(b) && t.bits <= word && t.bits <= width
    ensures Exact(t, SignedAdd(t, word, width, a, b), a + b)
  {
    var k := WordSum(word, a, b);
    ThroughWord(t, word, Word(word, Word(word, a) + Word(word, b)), a + b, k);
    var d := Convert(t, a + b);
    SumSigns(t, a, b);
    TestsReadSigns(t, width, a, b, d);
  }

  lemma SumSigns(t: IntType, a: int, b: int)
    requires t.Valid() && t.signed && t.Has(a) && t.Has(b)
    ensures var d := Convert(t, a + b);
      t.Has(d) && (!t.Has(a + b) <==> (a < 0) == (b < 0) && (d < 0) != (a < 0))
  {
    if t.Has(a + b) {
      ConvertExact(t, a + b);
    } else if a < 0 {
      ConvertIsTheCongruentValue(t, a + b, -1, a + b + Pow2(t.bits));
    } else {
      ConvertIsTheCongruentValue(t, a + b, 1, a + b - Pow2(t.bits));
    }
  }

  lemma SignedSubExact(t: IntType, word: nat, width: nat, a: int, b: int)
    requires t.Valid() && t.signed && t.Has(a) && t.Has(b) && t.bits <= word && t.bits <= width
    ensures Exact(t, SignedSub(t, word, width, a, b), a - b)
  {
    var k := WordDifference(word, a, b);
    ThroughWord(t, word, Word(word, Word(word, a) - Word(word, b)), a - b, k);
    var d := Convert(t, a - b);
    DifferenceSigns(t, a, b);
    TestsReadSigns(t, width, a, b, d);
  }

  lemma DifferenceSigns(t: IntType, a: int, b: int)
    requires t.Valid() && t.signed && t.Has(a) && t.Has(b)
    ensures var d := Convert(t, a - b);
      t.Has(d) && (!t.Has(a - b) <==> (a < 0) != (b < 0) && (d < 0) != (a < 0))
  {
    if t.Has(a - b) {
      ConvertExact(t, a - b);
    } else if a < 0 {
      ConvertIsTheCongruentValue(t, a - b, -1, a - b + Pow2(t.bits));
    } else {
      ConvertIsTheCongruentValue(t, a - b, 1, a - b - Pow2(t.bits));
    }
  }

  /** Comparing with a quotient rounded towards zero, for divisors of either sign. */
  lemma SignedQuotientBounds(a: int, max: int, min: int, b: int)
    requires min < 0 <= max && b != 0
    ensures b > 0 ==> (a > Quotient(max, b) <==> a * b > max) && (a < Quotient(min, b) <==> a * b < min)
    ensures b < 0 ==> (a > Quotient(min, b) <==> a * b < min) && (a < Quotient(max, b) <==> a * b > max)
  {
    if b > 0 {
      PositiveDivisor(a, max, min, b);
    } else {
      NegativeDivisor(a, max, min, b);
    }
  }

  lemma PositiveDivisor(a: int, max: int, min: int, b: int)
    requires min < 0 <= max && b > 0
    ensures (a > Quotient(max, b) <==> a * b > max) && (a < Quotient(min, b) <==> a * b < min)
  {
    assert Quotient(max, b) == max / b && Quotient(min, b) == -((-min) / b);
    QuotientBound(a, max, b);
    QuotientBound(-a, -min, b);
    assert -a * b == -(a * b);
  }

  lemma NegativeDivisor(a: int, max: int, min: int, b: int)
    requires min < 0 <= max && b < 0
    ensures (a > Quotient(min, b) <==> a * b < min) && (a < Quotient(max, b) <==> a * b > max)
  {
    var m := -b;
    assert Quotient(min, b) == (-min) / m && Quotient(max, b) == -(max / m);
    QuotientBound(a, -min, m);
    QuotientBound(-a, max, m);
    assert a * m == -(a * b) && -a * m == a * b;
  }

  lemma SignedMulExact(t: IntType, word: nat, a: int, b: int)
    requires t.Valid() && t.signed && t.Has(a) && t.Has(b) && t.bits <= word
    ensures Exact(t, SignedMul(t, word, a, b), a * b)
  {
    var k := WordProduct(word, a, b);
    ThroughWord(t, word, Word(word, Word(word, a) * Word(word, b)), a * b, k);
    LimitsAreTight(t);
    LimitsMirror(t);
    if b != 0 {
      SignedQuotientBounds(a, TypeMax(t), TypeMin(t), b);
    }
  }

  /** There is one more negative value than there are positive ones. */
  lemma LimitsMirror(t: IntType)
    requires t.Valid() && t.signed
    ensures TypeMin(t) == -TypeMax(t) - 1 && TypeMax(t) > 0
  {
    ConvertExact(t, (HalfMax(t) - 1) + HalfMax(t));
    ConvertExact(t, -TypeMax(t) - 1);
  }
}
