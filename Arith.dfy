/** Small definitions shared by the other modules: an optional value, the
    minimum and maximum of two integers, and the facts about integer
    multiplication and Dafny's Euclidean division that their size, offset and
    hashing arithmetic rests on. */
module Arith {

  datatype Option<T> = None | Some(value: T)

  function Min(a: int, b: int): int { if a <= b then a else b }
  function Max(a: int, b: int): int { if a >= b then a else b }

  /** Multiplying by a non-negative factor keeps the order. */
  lemma MulMonotone(n: int, x: int, y: int)
    requires n >= 0 && x <= y
    ensures n * x <= n * y
  {
  }

  /** Euclidean division has one quotient and one remainder. */
  lemma DivModUnique(y: int, n: int, q: int, r: int)
    requires n > 0 && 0 <= r < n && y == n * q + r
    ensures y / n == q && y % n == r
  {
    var q', r' := y / n, y % n;
    assert y == n * q' + r';
    if q' > q {
      assert n * q' >= n * (q + 1) by { MulMonotone(n, q + 1, q'); }
      assert false;
    } else if q' < q {
      assert n * q >= n * (q' + 1) by { MulMonotone(n, q' + 1, q); }
      assert false;
    }
  }

  /** A multiple of a positive number leaves no remainder. */
  lemma MultipleMod(q: int, d: int)
    requires d > 0
    ensures (q * d) % d == 0
  {
    DivModUnique(q * d, d, q, 0);
  }
}
