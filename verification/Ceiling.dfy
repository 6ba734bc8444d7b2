/** Division rounded up: the number of pages, and of chunks. */
module Ceiling {
  /** `n` divided by `d`, rounded up. */
  function CeilDiv(n: nat, d: nat): nat
    requires d > 0
  {
    if n == 0 then 0 else if n <= d then 1 else 1 + CeilDiv(n - d, d)
  }

  lemma Product(a: nat, b: nat, d: nat)
    requires a <= b
    ensures a * d <= b * d && (b + 1) * d == b * d + d
  {}

  lemma {:induction false} CeilDivBounds(n: nat, d: nat)
    requires d > 0
    ensures var q := CeilDiv(n, d); n <= q * d && (q > 0 ==> (q - 1) * d < n)
  {
    if n > d {
      CeilDivBounds(n - d, d);
      var q := CeilDiv(n - d, d);
      assert (q + 1) * d == q * d + d && (q - 1) * d == q * d - d;
    }
  }

  lemma CeilDivUnique(n: nat, d: nat, q: nat)
    requires d > 0 && n <= q * d && (q > 0 ==> (q - 1) * d < n)
    ensures q == CeilDiv(n, d)
  {
    var c := CeilDiv(n, d);
    CeilDivBounds(n, d);
    if q < c {
      Product(q, c - 1, d);
    } else if c < q {
      Product(c, q - 1, d);
    }
  }
}
