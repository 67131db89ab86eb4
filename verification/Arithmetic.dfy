/** Integer division as the source does it, powers of ten, and division facts the solver needs spelled out. */
module Arithmetic {
  function Pow10(n: nat): (r: nat)
    ensures r > 0
  {
    if n == 0 then 1 else 10 * Pow10(n - 1)
  }

  function Min(a: nat, b: nat): nat {
    if a < b then a else b
  }

  /** Division truncating toward zero. */
  function TruncDiv(x: int, y: int): int
    requires y > 0
  {
    if x >= 0 then x / y else -(-x / y)
  }

  lemma Distribute(a: int, b: int, n: int)
    ensures (a - b) * n == a * n - b * n && (a + b) * n == a * n + b * n
  {}

  lemma MulAtLeast(d: int, n: nat)
    ensures d == 0 ==> d * n == 0
    ensures d >= 1 ==> d * n >= n
    ensures d <= -1 ==> d * n + n <= 0
  {
    if d >= 1 { Distribute(d - 1, -1, n); } else if d <= -1 { Distribute(d + 1, 1, n); }
  }

  lemma DivModUnique(x: nat, q: int, r: nat, n: nat)
    requires n > 0 && x == q * n + r && r < n
    ensures x / n == q && x % n == r
  {
    var d := q - x / n;
    Distribute(q, x / n, n);
    MulAtLeast(d, n);
  }
}
