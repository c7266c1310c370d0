/** Powers of two, bitwise operators on naturals, and the facts about remainders
    that the masks in the sources (`x & (n - 1)`, `x | (1 << i)`) rely on. */
module Bits {

  function Pow2(n: nat): (r: nat)
    ensures r >= 1
    ensures n >= 1 ==> r % 2 == 0
  {
    if n == 0 then 1 else 2 * Pow2(n - 1)
  }

  lemma {:induction false} Pow2Add(m: nat, n: nat)
    ensures Pow2(m + n) == Pow2(m) * Pow2(n)
  {
    if m > 0 {
      Pow2Add(m - 1, n);
      assert Pow2(m + n) == 2 * Pow2((m - 1) + n);
      TwiceProduct(Pow2(m - 1), Pow2(n));
    }
  }

  lemma TwiceProduct(x: nat, y: nat)
    ensures (2 * x) * y == 2 * (x * y)
  {
  }

  lemma {:induction false} Pow2Monotone(m: nat, n: nat)
    requires m <= n
    ensures Pow2(m) <= Pow2(n)
    ensures m < n ==> 2 * Pow2(m) <= Pow2(n)
  {
    if m < n {
      Pow2Monotone(m, n - 1);
    }
  }

  lemma Pow2Values()
    ensures Pow2(8) == 0x100 && Pow2(16) == 0x1_0000 && Pow2(32) == 0x1_0000_0000
    ensures Pow2(64) == 0x1_0000_0000_0000_0000
    ensures Pow2(128) == 0x1_0000_0000_0000_0000_0000_0000_0000_0000
  {
    Pow2Double(4, 8, 16, 0x100);
    Pow2Double(8, 16, 0x100, 0x1_0000);
    Pow2Double(16, 32, 0x1_0000, 0x1_0000_0000);
    Pow2Double(32, 64, 0x1_0000_0000, 0x1_0000_0000_0000_0000);
    Pow2Double(64, 128, 0x1_0000_0000_0000_0000, 0x1_0000_0000_0000_0000_0000_0000_0000_0000);
  }

  lemma Pow2Double(n: nat, m: nat, v: nat, w: nat)
    requires m == n + n && Pow2(n) == v && w == v * v
    ensures Pow2(m) == w
  {
    Pow2Add(n, n);
  }

  /** Bitwise AND of two naturals, least significant bit first. */
  function And(x: nat, y: nat): nat
  {
    if x == 0 || y == 0 then 0
    else (if x % 2 == 1 && y % 2 == 1 then 1 else 0) + 2 * And(x / 2, y / 2)
  }

  lemma {:induction false} AndAtMost(x: nat, y: nat)
    ensures And(x, y) <= y
  {
    if x != 0 && y != 0 {
      AndAtMost(x / 2, y / 2);
    }
  }

  /** Masking with `2^k - 1` is the remainder modulo `2^k`. */
  lemma {:induction false} AndMask(x: nat, k: nat)
    ensures And(x, Pow2(k) - 1) == x % Pow2(k)
  {
    if k == 0 || x == 0 {
    } else {
      var p := Pow2(k - 1);
      AndMask(x / 2, k - 1);
      assert (Pow2(k) - 1) / 2 == p - 1 && (Pow2(k) - 1) % 2 == 1;
      ModHalf(x, p);
    }
  }

  /** `x mod 2p` from the low bit of `x` and `x/2 mod p`. */
  lemma ModHalf(x: nat, p: nat)
    requires p > 0
    ensures x % (2 * p) == x % 2 + 2 * ((x / 2) % p)
  {
    var h := x / 2;
    var q := h / p;
    DivModUnique(x, 2 * p, q, x % 2 + 2 * (h % p));
  }

  lemma DivModUnique(x: int, d: nat, q: int, r: nat)
    requires d > 0 && x == q * d + r && r < d
    ensures x / d == q && x % d == r
  {
    var q', r' := x / d, x % d;
    assert x == q' * d + r';
    assert (q - q') * d == r' - r;
    if q > q' {
      MulAtLeast(q - q', d);
      assert false;
    } else if q < q' {
      assert (q' - q) * d == r - r';
      MulAtLeast(q' - q, d);
      assert false;
    }
  }

  lemma MulAtLeast(k: int, d: nat)
    requires k >= 1
    ensures k * d >= d
  {
    assert k * d == d + (k - 1) * d;
    assert (k - 1) * d >= 0;
  }

  /** Adding whole multiples of `d` does not change the remainder. */
  lemma ModAddMul(x: int, k: int, d: nat)
    requires d > 0
    ensures (x + k * d) % d == x % d
  {
    DivModUnique(x + k * d, d, x / d + k, x % d);
  }

  /** Two numbers with one remainder that are less than `d` apart are equal. */
  lemma ModDistinct(p: nat, q: nat, d: nat)
    requires d > 0 && p % d == q % d && p < q
    ensures p + d <= q
  {
    var k := q / d - p / d;
    assert q - p == k * d;
    if k <= 0 {
      MulNonPositive(k, d);
    } else {
      MulAtLeast(k, d);
    }
  }

  lemma MulNonPositive(k: int, d: nat)
    requires k <= 0
    ensures k * d <= 0
  {
  }

  /** `x << k` in a word with modulus `m`, for `p == 2^k`. */
  function Wrapped(x: nat, p: nat, m: nat): nat
    requires m > 0
  {
    x * p % m
  }

  /** `x >> k`, for `p == 2^k`. */
  function Quotient(x: nat, p: nat): nat
    requires p > 0
  {
    x / p
  }

  lemma DivDiv(x: nat, p: nat)
    requires p > 0
    ensures (x / 2) / p == x / (2 * p)
  {
    var h := x / 2;
    var q, r := h / p, h % p;
    assert q * (2 * p) == 2 * (q * p);
    DivModUnique(x, 2 * p, q, 2 * r + x % 2);
  }

  /** Testing a single bit. */
  lemma {:induction false} AndBit(x: nat, i: nat)
    ensures And(x, Pow2(i)) == if (x / Pow2(i)) % 2 == 1 then Pow2(i) else 0
  {
    if i == 0 {
      assert And(x / 2, 0) == 0;
    } else {
      AndBit(x / 2, i - 1);
      DivDiv(x, Pow2(i - 1));
    }
  }

  /** Bitwise OR of two naturals. */
  function Or(x: nat, y: nat): nat
    decreases x + y
  {
    if x == 0 then y
    else if y == 0 then x
    else (if x % 2 == 1 || y % 2 == 1 then 1 else 0) + 2 * Or(x / 2, y / 2)
  }

  /** Where no bit of the operands meets, OR is addition. */
  lemma OrDisjoint(x: nat, y: nat, i: nat)
    requires x < Pow2(i)
    ensures Or(x, y * Pow2(i)) == x + y * Pow2(i)
    ensures Or(y * Pow2(i), x) == x + y * Pow2(i)
  {
    OrMultiple(x, y, i, y * Pow2(i));
  }

  lemma {:induction false} OrMultiple(x: nat, y: nat, i: nat, w: nat)
    requires x < Pow2(i) && w == y * Pow2(i)
    ensures Or(x, w) == x + w == Or(w, x)
  {
    if i > 0 {
      var z := HalfProduct(y, Pow2(i - 1), w);
      OrMultiple(x / 2, y, i - 1, z);
      OrDisjointStep(x, z, w);
    }
  }

  lemma OrDisjointStep(x: nat, z: nat, w: nat)
    requires w == 2 * z && Or(x / 2, z) == x / 2 + z == Or(z, x / 2)
    ensures Or(x, w) == x + w == Or(w, x)
  {
    OrDouble(x, z);
  }

  lemma HalfProduct(y: nat, p: nat, w: nat) returns (z: nat)
    requires w == y * (2 * p)
    ensures z == y * p && w == 2 * z
  {
    z := y * p;
  }

  lemma {:induction false} OrDouble(x: nat, z: nat)
    ensures Or(x, 2 * z) == x % 2 + 2 * Or(x / 2, z)
    ensures Or(2 * z, x) == x % 2 + 2 * Or(z, x / 2)
  {
    if x == 0 || z == 0 {
      assert Or(x / 2, 0) == x / 2 && Or(0, x / 2) == x / 2;
    } else {
      var d := 2 * z;
      assert d / 2 == z && d % 2 == 0;
      assert Or(x, d) == (if x % 2 == 1 then 1 else 0) + 2 * Or(x / 2, z);
    }
  }

  /** Bitwise exclusive or of two naturals. */
  function Xor(x: nat, y: nat): nat
    decreases x + y
  {
    if x == 0 then y
    else if y == 0 then x
    else (if x % 2 != y % 2 then 1 else 0) + 2 * Xor(x / 2, y / 2)
  }

  lemma {:induction false} AndSelf(x: nat)
    ensures And(x, x) == x
  {
    if x > 0 {
      AndSelf(x / 2);
    }
  }

  ghost predicate IsPow2(n: nat) { exists k: nat :: n == Pow2(k) }

  lemma {:induction false} HalfIsPow2(n: nat)
    requires n >= 2
    ensures IsPow2(n) <==> n % 2 == 0 && IsPow2(n / 2)
  {
    if IsPow2(n) {
      var k: nat :| n == Pow2(k);
      assert n == 2 * Pow2(k - 1);
    }
    if n % 2 == 0 && IsPow2(n / 2) {
      var k: nat :| n / 2 == Pow2(k);
      assert n == Pow2(k + 1);
    }
  }

  /** `n & (n - 1)` vanishes exactly for the powers of two. */
  lemma {:induction false} PowerOfTwoIff(n: nat)
    requires n >= 1
    ensures And(n, n - 1) == 0 <==> IsPow2(n)
  {
    if n == 1 {
      assert n == Pow2(0);
    } else {
      HalfIsPow2(n);
      if n % 2 == 0 {
        PowerOfTwoIff(n / 2);
        assert And(n, n - 1) == 2 * And(n / 2, n / 2 - 1);
      } else {
        AndSelf(n / 2);
        assert And(n, n - 1) == 2 * And(n / 2, n / 2);
      }
    }
  }
}
