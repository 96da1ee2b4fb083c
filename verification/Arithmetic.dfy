/** Division and powers. */
module Arithmetic {
  lemma AtLeast(x: int, m: int)
    requires x >= 1 && m > 0
    ensures x * m >= m
  {
    assert (x - 1) * m >= 0;
  }

  /** Quotient and remainder are determined by the equation between them. */
  lemma RemainderOf(a: int, m: int, q: int, r: int)
    requires m > 0 && 0 <= r < m && a == q * m + r
    ensures a % m == r && a / m == q
  {
    var p, s := a / m, a % m;
    assert (q - p) * m == s - r;
    if q - p >= 1 {
      AtLeast(q - p, m);
    } else if p - q >= 1 {
      AtLeast(p - q, m);
    }
  }

  function Pow(p: nat, k: nat): (r: nat)
    ensures p >= 1 ==> r >= 1
  {
    if k == 0 then 1 else p * Pow(p, k - 1)
  }

  lemma {:induction false} PowGrows(p: nat, j: nat, k: nat)
    requires p >= 1 && j <= k
    ensures Pow(p, j) <= Pow(p, k)
  {
    if j < k {
      PowGrows(p, j, k - 1);
      if p > 1 {
        AtLeast(p, Pow(p, k - 1));
      }
    }
  }

  /** The j-th child of node `i`. */
  function Child(i: nat, j: nat, p: nat): nat { i * p + j }

  lemma ParentOfChild(i: nat, j: nat, p: nat)
    requires j < p
    ensures Child(i, j, p) / p == i && Child(i, j, p) % p == j
  {
    RemainderOf(i * p + j, p, i, j);
  }

  lemma ChildOfParent(k: nat, p: nat)
    requires p > 0
    ensures Child(k / p, k % p, p) == k
  {
  }

  lemma ChildInRange(i: nat, j: nat, p: nat, n: nat)
    requires j < p && i < n
    ensures Child(i, j, p) < n * p
  {
    assert (n - i - 1) * p >= 0;
  }

  lemma ParentInRange(k: nat, p: nat, n: nat)
    requires p > 0 && k < n * p
    ensures k / p < n
  {
  }

  lemma Sign(x: int, m: int)
    requires x <= 0 && m >= 0
    ensures x * m <= 0
  {
  }

  /** A product above -m has a factor of zero at least. */
  lemma FactorFrom(x: int, m: int)
    requires m > 0 && x * m > -m
    ensures x >= 0
  {
    if x < 0 {
      Sign(x + 1, m);
    }
  }

  lemma DivGrows(a: nat, b: nat, m: nat)
    requires m > 0 && a <= b
    ensures a / m <= b / m
  {
    var x := b / m - a / m;
    assert x * m == b - a - b % m + a % m;
    FactorFrom(x, m);
  }

  /** Division rounding up. */
  function CeilDiv(x: nat, m: nat): (c: nat)
    requires m > 0
  {
    if x == 0 then 0 else (x - 1) / m + 1
  }

  lemma CeilDivBounds(x: nat, m: nat)
    requires m > 0
    ensures x <= CeilDiv(x, m) * m < x + m
  {
    if x > 0 {
      assert x - 1 == ((x - 1) / m) * m + (x - 1) % m;
    }
  }
}
