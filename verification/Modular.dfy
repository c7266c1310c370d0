/** Congruence modulo a power of two, as the wrap-around of unsigned machine words uses it. */
module Modular {
  import opened Bits

  /** `x` and `y` differ by a multiple of `m`. */
  ghost predicate Cong(x: int, y: int, m: nat)
    requires m > 0
  {
    x % m == y % m
  }

  lemma CongIff(x: int, y: int, m: nat)
    requires m > 0
    ensures Cong(x, y, m) <==> (x - y) % m == 0
  {
    var k, j := x / m, y / m;
    assert x == k * m + x % m && y == j * m + y % m;
    if Cong(x, y, m) {
      assert x - y == (k - j) * m;
      DivModUnique(x - y, m, k - j, 0);
    }
    if (x - y) % m == 0 {
      ModAddMul(y, (x - y) / m, m);
    }
  }

  lemma CongMul(x: int, k: int, m: nat)
    requires m > 0
    ensures Cong(x + k * m, x, m)
  {
    ModAddMul(x, k, m);
  }

  lemma CongMod(x: int, m: nat)
    requires m > 0
    ensures Cong(x % m, x, m)
  {
    assert x == x % m + (x / m) * m;
    ModAddMul(x % m, x / m, m);
  }

  lemma AddCong(x: int, x': int, y: int, y': int, m: nat)
    requires m > 0 && Cong(x, x', m) && Cong(y, y', m)
    ensures Cong(x + y, x' + y', m)
  {
    CongIff(x, x', m);
    CongIff(y, y', m);
    var k, j := (x - x') / m, (y - y') / m;
    assert x + y == x' + y' + (k + j) * m;
    ModAddMul(x' + y', k + j, m);
  }

  lemma MulCong(x: int, x': int, y: int, y': int, m: nat)
    requires m > 0 && Cong(x, x', m) && Cong(y, y', m)
    ensures Cong(x * y, x' * y', m)
  {
    CongIff(x, x', m);
    CongIff(y, y', m);
    var k, j := (x - x') / m, (y - y') / m;
    assert x == x' + k * m && y == y' + j * m;
    var z := x' * j + k * y' + k * m * j;
    assert x * y == x' * y' + z * m by { Expand(x', y', k, j, m); }
    ModAddMul(x' * y', z, m);
  }

  lemma Expand(x: int, y: int, k: int, j: int, m: int)
    ensures (x + k * m) * (y + j * m) == x * y + (x * j + k * y + k * m * j) * m
  {
    calc {
      (x + k * m) * (y + j * m);
      x * y + x * (j * m) + (k * m) * y + (k * m) * (j * m);
      { assert x * (j * m) == (x * j) * m;
        assert (k * m) * y == (k * y) * m;
        assert (k * m) * (j * m) == (k * m * j) * m; }
      x * y + (x * j) * m + (k * y) * m + (k * m * j) * m;
      x * y + (x * j + k * y + k * m * j) * m;
    }
  }

  /** A congruence modulo `2^n` holds modulo every smaller power. */
  lemma CongDown(x: int, y: int, k: nat, n: nat)
    requires k <= n && Cong(x, y, Pow2(n))
    ensures Cong(x, y, Pow2(k))
  {
    CongIff(x, y, Pow2(n));
    CongIff(x, y, Pow2(k));
    Pow2Add(k, n - k);
    Multiple(x - y, Pow2(k), Pow2(n - k));
  }

  lemma Multiple(d: int, a: nat, b: nat)
    requires a > 0 && b > 0 && a * b > 0 && d % (a * b) == 0
    ensures d % a == 0
  {
    var q := d / (a * b);
    assert d == q * (a * b) == (q * b) * a;
    DivModUnique(d, a, q * b, 0);
  }

  /** `y` agrees with `x` in the low `k` bits; so it agrees in one more bit, or differs
      exactly there. */
  lemma NextBit(x: nat, y: nat, k: nat)
    requires Cong(x, y, Pow2(k))
    ensures BitAt(x, k) == BitAt(y, k) <==> Cong(x, y, Pow2(k + 1))
    ensures BitAt(x, k) != BitAt(y, k) <==> Cong(x + Pow2(k), y, Pow2(k + 1))
  {
    LowBits(x, k);
    LowBits(y, k);
    FlipBit(x, k);
    LowBits(x + Pow2(k), k);
  }

  lemma FlipBit(x: nat, k: nat)
    ensures BitAt(x + Pow2(k), k) != BitAt(x, k)
    ensures (x + Pow2(k)) % Pow2(k) == x % Pow2(k)
  {
    DivAddOnce(x, Pow2(k));
  }

  lemma DivAddOnce(x: int, p: nat)
    requires p > 0
    ensures (x + p) / p == x / p + 1 && (x + p) % p == x % p
  {
    DivModUnique(x + p, p, x / p + 1, x % p);
  }

  predicate BitAt(x: nat, k: nat)
  {
    (x / Pow2(k)) % 2 == 1
  }

  lemma LowBits(x: nat, k: nat)
    ensures x % Pow2(k + 1) == x % Pow2(k) + (if BitAt(x, k) then Pow2(k) else 0)
  {
    ModTwice(x, Pow2(k));
  }

  lemma ModTwice(x: nat, p: nat)
    requires p > 0
    ensures x % (2 * p) == x % p + (if (x / p) % 2 == 1 then p else 0)
  {
    var q, r := x / p, x % p;
    var h, odd := q / 2, q % 2;
    assert x == q * p + r;
    RegroupTwice(h, odd, p);
    DivModUnique(x, 2 * p, h, (if odd == 1 then p else 0) + r);
  }

  lemma RegroupTwice(h: int, odd: int, p: int)
    requires 0 <= odd < 2
    ensures (2 * h + odd) * p == h * (2 * p) + (if odd == 1 then p else 0)
  {
  }

  lemma ParityOfFour(x: nat)
    ensures x % 2 == (x % 4) % 2
  {
    var q, r := x / 4, x % 4;
    assert x == r + (2 * q) * 2;
    ModAddMul(r, 2 * q, 2);
  }

  lemma ParityOfSum(x: nat, y: nat)
    requires y % 2 == 0
    ensures (x + y) % 2 == x % 2
  {
    assert y == (y / 2) * 2;
    ModAddMul(x, y / 2, 2);
  }
}
