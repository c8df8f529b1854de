/** First and last positions of a kind. */
module Positions {
  type Positions = nat -> bool

  /** The last of these positions before n, or -1. */
  function LastBefore(n: nat, p: Positions): (k: int)
    ensures -1 <= k < n && (k >= 0 ==> p(k))
    ensures forall j: nat | k < j < n :: !p(j)
  {
    if n == 0 then -1 else if p(n - 1) then n - 1 else LastBefore(n - 1, p)
  }

  /** The first of these positions before n, or -1. */
  function FirstBefore(n: nat, p: Positions): (k: int)
    ensures -1 <= k < n
    ensures if k < 0 then forall j: nat | j < n :: !p(j) else p(k) && forall j: nat | j < k :: !p(j)
  {
    if n == 0 then -1
    else
      var k := FirstBefore(n - 1, p);
      if k >= 0 then k else if p(n - 1) then n - 1 else -1
  }
}
