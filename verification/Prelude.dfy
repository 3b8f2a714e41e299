// Small value types shared by every module of the model.
module Prelude {

  datatype Option<+T> = None | Some(value: T)

  function Min(x: int, y: int): int {
    if x < y then x else y
  }

  /** The floor-division facts the rate arithmetic relies on. */
  lemma DivBounds(d: int, n: int)
    requires 0 <= d && 1 <= n
    ensures 0 <= d / n
    ensures (d / n) * n <= d < (d / n) * n + n
    ensures d % n == d - (d / n) * n
  {
    assert d == (d / n) * n + d % n;
    if d / n < 0 {
      MulMono(d / n, -1, n);
    }
  }

  lemma MulMono(a: int, b: int, n: int)
    requires a <= b && 0 <= n
    ensures a * n <= b * n
  {
    assert (b - a) * n == b * n - a * n;
  }

  lemma Distribute(n: int, a: int, b: int)
    ensures n * (a + b) == n * a + n * b
  {
  }

  lemma DivMono(d: int, e: int, n: int)
    requires 0 <= d <= e && 1 <= n
    ensures d / n <= e / n
  {
    DivBounds(d, n);
    DivBounds(e, n);
    if e / n < d / n {
      MulMono(e / n + 1, d / n, n);
    }
  }
}
