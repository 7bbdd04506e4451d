/** Facts about multiples and quotients that the solver needs spelled out. */
module Arith {
  /** Integer division as Go and SQLite do it, towards zero. */
  function Quo(a: int, b: int): int
    requires b > 0
  {
    if a >= 0 then a / b else -(-a / b)
  }

  lemma MulMono(x: int, y: int, b: int)
    ensures b >= 0 && x <= y ==> x * b <= y * b
  {
    if b >= 0 && x <= y {
      var n := y - x;
      assert n * b >= 0;
      assert n * b == y * b - x * b;
    }
  }

  lemma MulStep(x: int, b: int)
    ensures (x + 1) * b == x * b + b
  {
  }

  lemma MulSum(x: int, y: int, b: int)
    ensures (x + y) * b == x * b + y * b
  {
  }

  lemma Euclid(a: int, b: int)
    requires b > 0
    ensures a / b * b + a % b == a && 0 <= a % b < b
  {
  }

  lemma DivIs(a: int, b: int, q: int)
    requires b > 0 && q * b <= a < q * b + b
    ensures a / b == q && a % b == a - q * b
  {
    Euclid(a, b);
    MulMono(q + 1, a / b, b);
    MulMono(a / b + 1, q, b);
    MulStep(q, b);
    MulStep(a / b, b);
  }

  lemma DivMono(a: int, c: int, b: int)
    requires b > 0 && a <= c
    ensures a / b <= c / b
  {
    Euclid(a, b);
    Euclid(c, b);
    MulMono(c / b + 1, a / b, b);
    MulStep(c / b, b);
  }

  lemma ModOfMultiple(q: int, b: int)
    requires b > 0
    ensures q * b % b == 0 && q * b / b == q
  {
    DivIs(q * b, b, q);
  }

  lemma ModPlus(a: int, b: int)
    requires b > 0
    ensures (a + b) % b == a % b
  {
    Euclid(a, b);
    MulStep(a / b, b);
    DivIs(a + b, b, a / b + 1);
  }
}
