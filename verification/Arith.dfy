/** Division, remainder and powers of two: the facts the ring indices and bit fields rest on. */
module Arith {
  lemma AtLeastOneTimes(n: nat, k: int)
    requires k >= 1
    ensures n * k >= n
  {
  }

  /** A quotient and a remainder in range are the quotient and the remainder. */
  lemma DivModUnique(a: int, n: nat, q: int, r: nat)
    requires n >= 1 && r < n && a == n * q + r
    ensures a / n == q && a % n == r
  {
    var q', r' := a / n, a % n;
    assert a == n * q' + r' && 0 <= r' < n;
    assert n * (q - q') == r' - r by { assert n * (q - q') == n * q - n * q'; }
    assert n * (q' - q) == r - r' by { assert n * (q' - q) == n * q' - n * q; }
    if q - q' >= 1 {
      AtLeastOneTimes(n, q - q');
    } else if q' - q >= 1 {
      AtLeastOneTimes(n, q' - q);
    }
  }

  lemma AddLap(a: int, n: nat)
    requires n >= 1
    ensures (a + n) % n == a % n && (a + n) / n == a / n + 1
  {
    assert n * (a / n + 1) == n * (a / n) + n;
    DivModUnique(a + n, n, a / n + 1, a % n);
  }

  lemma {:induction false} SameResidue(a: nat, b: nat, n: nat)
    requires n >= 1 && a <= b
    ensures a % n == b % n <==> (b - a) % n == 0
    decreases b
  {
    if b - a >= n {
      AddLap(b - n, n);
      AddLap(b - a - n, n);
      SameResidue(a, b - n, n);
    } else if a >= n {
      AddLap(a - n, n);
      AddLap(b - n, n);
      SameResidue(a - n, b - n, n);
    } else {
      DivModUnique(a, n, 0, a);
      DivModUnique(b - a, n, 0, b - a);
      if b >= n {
        DivModUnique(b, n, 1, b - n);
      } else {
        DivModUnique(b, n, 0, b);
      }
    }
  }

  /** Incrementing a wrapped counter wraps the incremented one. */
  lemma WrapIncrement(a: nat, n: nat)
    requires n >= 1
    ensures (a % n + 1) % n == (a + 1) % n
  {
    var q, r := a / n, a % n;
    assert a == n * q + r;
    if r + 1 < n {
      DivModUnique(a + 1, n, q, r + 1);
      DivModUnique(r + 1, n, 0, r + 1);
    } else {
      assert n * (q + 1) == n * q + n;
      DivModUnique(a + 1, n, q + 1, 0);
      DivModUnique(n, n, 1, 0);
    }
  }
}
