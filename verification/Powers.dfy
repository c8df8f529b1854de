/** Powers of two. */
module Powers {
  function Pow2(n: nat): (p: int)
    ensures p > 0
  {
    if n == 0 then 1 else 2 * Pow2(n - 1)
  }

  lemma {:induction false} Pow2Add(m: nat, n: nat)
    ensures Pow2(m + n) == Pow2(m) * Pow2(n)
  {
    if n > 0 {
      Pow2Add(m, n - 1);
      assert m + n - 1 == m + (n - 1);
      TwiceTimes(Pow2(m), Pow2(n - 1));
    }
  }

  lemma TwiceTimes(p: int, q: int)
    ensures p * (2 * q) == 2 * (p * q)
  {
  }
}
