/** Bitwise operations on naturals, for the places where the source masks and shifts. */
module Bits {

  function Pow2(k: nat): (r: nat)
    ensures r > 0
  {
    if k == 0 then 1 else 2 * Pow2(k - 1)
  }

  /** Bitwise `&`. */
  function And(a: nat, b: nat): (r: nat)
    decreases a
  {
    if a == 0 then 0 else 2 * And(a / 2, b / 2) + (if a % 2 == 1 && b % 2 == 1 then 1 else 0)
  }

  /** `a >> k`. */
  function Shr(a: nat, k: nat): (r: nat) {
    if k == 0 then a else Shr(a / 2, k - 1)
  }

  lemma ModTwice(a: nat, m: nat)
    requires m > 0
    ensures a % (2 * m) == 2 * ((a / 2) % m) + a % 2
  {
    HalfDivMod(a, m);
  }

  lemma HalfDivMod(a: nat, m: nat)
    requires m > 0
    ensures a / (2 * m) == (a / 2) / m
    ensures a % (2 * m) == 2 * ((a / 2) % m) + a % 2
  {
    var q, r := (a / 2) / m, (a / 2) % m;
    var s := q * m;
    assert a / 2 == s + r;
    assert q * (2 * m) == 2 * s;
    DivModUnique(a, 2 * m, q, 2 * r + a % 2);
  }

  lemma DivModUnique(a: nat, m: nat, q: nat, r: nat)
    requires m > 0 && r < m && a == q * m + r
    ensures a / m == q && a % m == r
  {
    var q' := a / m;
    if q' < q {
      MulGap(q', q, m);
    } else if q < q' {
      MulGap(q, q', m);
    }
  }

  lemma MulGap(p: nat, q: nat, m: nat)
    requires p < q
    ensures p * m + m <= q * m
  {
    var d: nat := q - p - 1;
    assert (p + 1 + d) * m == p * m + m + d * m;
    assert q == p + 1 + d;
  }

  /** Masking with a power of two minus one is the remainder. */
  lemma {:induction false} MaskIsMod(a: nat, k: nat)
    ensures And(a, Pow2(k) - 1) == a % Pow2(k)
    decreases k
  {
    if k == 0 {
      AndZero(a);
    } else {
      MaskIsMod(a / 2, k - 1);
      ModTwice(a, Pow2(k - 1));
      AndOdd(a, Pow2(k - 1) - 1);
    }
  }

  lemma AndOdd(a: nat, c: nat)
    ensures And(a, 2 * c + 1) == 2 * And(a / 2, c) + a % 2
  {
    var b := 2 * c + 1;
    assert b / 2 == c && b % 2 == 1;
  }

  lemma {:induction false} AndZero(a: nat)
    ensures And(a, 0) == 0
  {
    if a != 0 { AndZero(a / 2); }
  }

  /** Shifting right by `k` divides by the power. */
  lemma {:induction false} ShrIsDiv(a: nat, k: nat)
    ensures Shr(a, k) == a / Pow2(k)
  {
    if k != 0 {
      ShrIsDiv(a / 2, k - 1);
      HalfDivMod(a, Pow2(k - 1));
    }
  }

  lemma {:induction false} Pow2Adds(j: nat, k: nat)
    ensures Pow2(j + k) == Pow2(j) * Pow2(k)
  {
    if j != 0 {
      Pow2Adds(j - 1, k);
      assert 2 * (Pow2(j - 1) * Pow2(k)) == 2 * Pow2(j - 1) * Pow2(k);
    }
  }

  /** A remainder modulo `2 * m` is a remainder modulo `m`, or that plus `m`. */
  lemma ModHalves(a: nat, m: nat, d: nat)
    requires m > 0 && d == 2 * m
    ensures a % d == a % m || a % d == a % m + m
    ensures (a % d) % m == a % m
  {
    ModTwofold(a, m, d);
  }

  predicate Twice(d: nat, m: nat) {
    d == 2 * m
  }

  lemma ModTwofold(a: nat, m: nat, d: nat)
    requires m > 0 && d > 0 && Twice(d, m)
    ensures a % d == a % m || a % d == a % m + m
    ensures (a % d) % m == a % m
  {
    hide Twice;
    DivModDef(a, d);
    HalvesOf(a, m, d, a / d, a % d);
  }

  lemma DivModDef(a: nat, d: nat)
    requires d > 0
    ensures a == (a / d) * d + a % d && a % d < d
  {
  }

  lemma HalvesOf(a: nat, m: nat, d: nat, q: nat, r: nat)
    requires m > 0 && Twice(d, m) && a == q * d + r && r < d
    ensures if r < m then a % m == r && r % m == r else a % m == r - m && r % m == r - m
  {
    MulTwice(q, m, d);
    if r < m {
      DivModUnique(a, m, 2 * q, r);
      DivModUnique(r, m, 0, r);
    } else {
      MulNext(2 * q, m);
      DivModUnique(a, m, 2 * q + 1, r - m);
      DivModUnique(r, m, 1, r - m);
    }
  }

  lemma MulTwice(q: nat, m: nat, d: nat)
    requires d == 2 * m
    ensures q * d == (2 * q) * m
  {
  }

  lemma MulNext(q: nat, m: nat)
    ensures (q + 1) * m == q * m + m
  {
  }
}
