/** Division and remainder facts the solver needs spelled out. */
module NonlinearArith {

  lemma DivModUnique(x: nat, d: nat, q: nat, r: nat)
    requires d > 0 && x == d * q + r && r < d
    ensures x / d == q && x % d == r
  {
    var q', r' := x / d, x % d;
    assert x == d * q' + r';
    if q' > q {
      MulMono(d, q + 1, q');
      assert false;
    } else if q' < q {
      MulMono(d, q' + 1, q);
      assert false;
    }
  }

  lemma SmallMod(x: nat, p: nat)
    requires x < p
    ensures x % p == x
  {
    DivModUnique(x, p, 0, x);
  }

  lemma MulMono(d: nat, a: nat, b: nat)
    requires a <= b
    ensures d * a <= d * b
  {
  }

  lemma ModMultiple(t: nat, y: nat, p: nat)
    requires p > 0
    ensures (p * t + y) % p == y % p
  {
    assert p * t + y == p * (t + y / p) + y % p;
    DivModUnique(p * t + y, p, t + y / p, y % p);
  }

  lemma ModMul(a: nat, b: nat, p: nat)
    requires p > 0
    ensures ((a % p) * b) % p == (a * b) % p
  {
    var q, r := a / p, a % p;
    assert a * b == p * (q * b) + r * b;
    ModMultiple(q * b, r * b, p);
  }

  /**
    * Halving commutes with division and remainder by m: x / 2m is (x / 2) / m,
    * and x mod 2m keeps the low bit of x and halves to (x / 2) mod m.
    */
  lemma HalveDivMod(x: nat, m: nat)
    requires m > 0
    ensures (x / 2) / m == x / (2 * m)
    ensures (x % (2 * m)) % 2 == x % 2
    ensures (x % (2 * m)) / 2 == (x / 2) % m
  {
    var a, b := x / 2, x % 2;
    var q, s := a / m, a % m;
    assert a == m * q + s;
    assert x == (2 * m) * q + (2 * s + b) by {
      assert x == 2 * a + b;
      assert 2 * (m * q) == (2 * m) * q;
    }
    DivModUnique(x, 2 * m, q, 2 * s + b);
  }
}
