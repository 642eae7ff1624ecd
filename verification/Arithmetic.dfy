/** Integer division facts. */
module Arithmetic {

  function Max(a: int, b: int): int { if a >= b then a else b }

  function Min(a: int, b: int): int { if a <= b then a else b }

  /** ceil(a / b) */
  function CeilDiv(a: nat, b: nat): nat
    requires b > 0
  {
    (a + b - 1) / b
  }

  lemma {:induction false} ProductAtLeast(d: nat, n: nat)
    requires d >= 1
    ensures d * n >= n
  {
    if d <= 1 {
    } else {
      ProductAtLeast(d - 1, n);
      assert d * n == (d - 1) * n + n;
    }
  }

  lemma MultiplesApart(a: int, b: int, n: nat)
    ensures a < b ==> a * n + n <= b * n
  {
    if a < b {
      ProductAtLeast(b - a, n);
      assert b * n == a * n + (b - a) * n;
    }
  }

  lemma DivideExactly(k: nat, n: nat, r: nat)
    requires n >= 1 && r < n
    ensures (k * n + r) / n == k
  {
    var x := k * n + r;
    assert x == (x / n) * n + x % n;
    MultiplesApart(k, x / n, n);
    MultiplesApart(x / n, k, n);
  }

  lemma CeilBetween(total: nat, limit: nat, k: nat)
    requires limit >= 1
    ensures k < CeilDiv(total, limit) <==> k * limit < total
  {
    var p := CeilDiv(total, limit);
    assert total + limit - 1 == p * limit + (total + limit - 1) % limit;
    if k < p { assert (k + 1) * limit <= p * limit; } else { assert p * limit <= k * limit; }
  }

  /** The product, for proofs that need only the facts below. */
  function Times(k: nat, n: nat): nat { k * n }

  lemma TimesNext(k: nat, n: nat)
    ensures Times(k + 1, n) == Times(k, n) + n && Times(0, n) == 0
  {
  }

  lemma TimesApart(a: nat, b: nat, n: nat)
    ensures a < b ==> Times(a, n) + n <= Times(b, n)
  {
    MultiplesApart(a, b, n);
  }

  lemma TimesCommute(k: nat, n: nat)
    ensures Times(k, n) == n * k
  {
  }

  /** x in whole multiples of n. */
  lemma TimesDivided(x: nat, n: nat)
    requires n > 0
    ensures Times(x / n, n) <= x < Times(x / n, n) + n && x % n == x - Times(x / n, n)
  {
  }
}
