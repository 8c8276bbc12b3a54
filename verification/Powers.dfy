/** Powers of two and the alignment facts that dyadic blocks rest on. */
module Powers {

  function Pow2(k: nat): (p: int)
    ensures p > 0
  {
    if k == 0 then 1 else 2 * Pow2(k - 1)
  }

  lemma {:induction false} Pow2Add(a: nat, b: nat)
    ensures Pow2(a + b) == Pow2(a) * Pow2(b)
  {
    if a == 0 {
    } else {
      Pow2Add(a - 1, b);
      assert Pow2(a + b) == 2 * (Pow2(a - 1) * Pow2(b));
    }
  }

  lemma Pow2Zero()
    ensures Pow2(0) == 1
  {
  }

  lemma Pow2Half(k: nat)
    requires k > 0
    ensures Pow2(k) == 2 * Pow2(k - 1)
  {
  }

  lemma EvenSplit(n: nat, h: nat, p: int)
    requires n == 2 * h
    ensures n * p == h * (2 * p)
  {
  }

  lemma OddSplit(n: nat, h: nat, p: int)
    requires n == 2 * h + 1
    ensures n * p == h * (2 * p) + p
  {
  }

  lemma Pow2Monotone(a: nat, b: nat)
    requires a <= b
    ensures Pow2(a) <= Pow2(b)
  {
    if a < b {
      Pow2Monotone(a, b - 1);
    }
  }

  lemma MulPos(a: int, p: int)
    requires p > 0
    ensures a >= 1 ==> a * p >= p
    ensures a <= -1 ==> a * p <= -p
  {
    if a >= 1 {
      assert (a - 1) * p >= 0;
    } else if a <= -1 {
      assert (-a - 1) * p >= 0;
    }
  }

  /** Quotient and remainder are the only pair that fit the division equation. */
  lemma DivModUnique(x: int, p: int, q: int, r: int)
    requires 0 <= r < p && x == q * p + r
    ensures x / p == q && x % p == r
  {
    var d, m := x / p, x % p;
    assert x == d * p + m;
    assert (q - d) * p == q * p - d * p;
    MulPos(q - d, p);
  }

  lemma ModAdd(a: int, b: int, m: int)
    requires m > 0
    ensures (a % m + b) % m == (a + b) % m
  {
    var q, x := a / m, a % m + b;
    assert a == q * m + a % m;
    assert (q + x / m) * m == q * m + (x / m) * m;
    DivModUnique(a + b, m, q + x / m, x % m);
  }

  lemma ModOnce(x: int, m: int)
    requires 0 <= x < 2 * m
    ensures x % m == if x < m then x else x - m
  {
    DivModUnique(x, m, if x < m then 0 else 1, if x < m then x else x - m);
  }

  /** Being a multiple, with the quotient as witness. */
  lemma MultipleMod(q: int, p: int)
    requires p > 0
    ensures (q * p) % p == 0 && (q * p) / p == q
  {
    DivModUnique(q * p, p, q, 0);
  }

  lemma ModMultiple(x: int, p: int)
    requires p > 0 && x % p == 0
    ensures x == (x / p) * p
  {
  }

  /** A multiple of p below another multiple of p is below it by at least p. */
  lemma MultipleGap(x: int, y: int, p: int)
    requires p > 0 && x % p == 0 && y % p == 0 && x < y
    ensures x + p <= y
  {
    ModMultiple(x, p);
    ModMultiple(y, p);
    assert (y / p - x / p) * p == y - x;
    MulPos(y / p - x / p, p);
  }

  lemma FactorMod(q: int, r: int, p: int)
    requires p > 0
    ensures (q * (r * p)) % p == 0
  {
    assert q * (r * p) == (q * r) * p;
    MultipleMod(q * r, p);
  }

  /** Alignment to a larger power implies alignment to a smaller one. */
  lemma AlignDown(x: int, a: nat, b: nat)
    requires a <= b && x % Pow2(b) == 0
    ensures x % Pow2(a) == 0
  {
    hide Pow2;
    Pow2Add(b - a, a);
    ModMultiple(x, Pow2(b));
    FactorMod(x / Pow2(b), Pow2(b - a), Pow2(a));
  }

  lemma ShiftAligned(x: int, p: int)
    requires p > 0 && x % p == 0
    ensures (x + p) % p == 0 && (x - p) % p == 0
  {
    ModMultiple(x, p);
    assert x + p == (x / p + 1) * p;
    assert x - p == (x / p - 1) * p;
    MultipleMod(x / p + 1, p);
    MultipleMod(x / p - 1, p);
  }

  /** A multiple of p that is not a multiple of 2p has multiples of 2p on both sides,
      and a multiple of 2p has none. */
  lemma OddMultiple(x: int, p: int)
    requires p > 0 && x % p == 0
    ensures x % (2 * p) != 0 <==> (x - p) % (2 * p) == 0
    ensures x % (2 * p) != 0 <==> (x + p) % (2 * p) == 0
  {
    ModMultiple(x, p);
    var q := x / p;
    var h := q / 2;
    if q % 2 == 0 {
      assert x == h * (2 * p);
      MultipleMod(h, 2 * p);
      NotMultiple(x, 2 * p, p);
    } else {
      assert q == 2 * h + 1;
      assert x - p == h * (2 * p);
      assert x + p == (h + 1) * (2 * p);
      MultipleMod(h, 2 * p);
      MultipleMod(h + 1, 2 * p);
      NotMultiple(x - p, 2 * p, p);
    }
  }

  lemma NotMultiple(x: int, m: int, d: int)
    requires m > 0 && x % m == 0 && 0 < d < m
    ensures (x + d) % m != 0 && (x - d) % m != 0
  {
    if (x + d) % m == 0 {
      MultipleGap(x, x + d, m);
    }
    if (x - d) % m == 0 {
      MultipleGap(x - d, x, m);
    }
  }
}
