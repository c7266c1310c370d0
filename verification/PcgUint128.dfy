/** The emulated 128-bit unsigned integer of four 32-bit limbs: its operators are the
    arithmetic of the integers modulo `2^128`, and `divmod` is exact division. */
module PcgUint128 {
  import opened Bits

  const B: nat := 0x1_0000_0000
  const B2: nat := 0x1_0000_0000_0000_0000
  const B4: nat := 0x1_0000_0000_0000_0000_0000_0000_0000_0000

  ghost predicate Limbs(s: seq<nat>)
  {
    forall i :: 0 <= i < |s| ==> s[i] < B
  }

  /** The number a sequence of limbs denotes, least significant limb first. */
  ghost function Val(s: seq<nat>): nat
  {
    if s == [] then 0 else s[0] + B * Val(s[1..])
  }

  /** A `uint_x4`: the four words `w.v0` to `w.v3`, also read as the two double words
      `d.v01` and `d.v23`. */
  datatype U128 = U128(w: seq<nat>)
  {
    ghost predicate Valid() { |w| == 4 && Limbs(w) }

    ghost function V(): nat { Val(w) }

    function V01(): nat
      requires |w| == 4
    {
      w[0] + B * w[1]
    }

    function V23(): nat
      requires |w| == 4
    {
      w[2] + B * w[3]
    }

    lemma Halves()
      requires Valid()
      ensures V() == V01() + B2 * V23()
      ensures V01() < B2 && V23() < B2 && V() < B4
      ensures V() == Four(w[0], w[1], w[2], w[3])
    {
      assert w[1..][1..] == w[2..] && w[2..][1..] == w[3..] && w[3..][1..] == [];
      assert Val(w) == w[0] + B * Val(w[1..]);
      assert Val(w[1..]) == w[1] + B * Val(w[2..]);
      assert Val(w[2..]) == w[2] + B * Val(w[3..]);
      assert Val(w[3..]) == w[3] + B * Val([]);
    }
  }

  function FromWords(v0: nat, v1: nat, v2: nat, v3: nat): U128
  {
    U128([v0, v1, v2, v3])
  }

  /** The constructor from a double word. */
  function FromDouble(x: nat): (r: U128)
    requires x < B2
    ensures r.Valid() && r.V() == x
  {
    var r := FromWords(x % B, x / B, 0, 0);
    r.Halves();
    r
  }

  /** The number that four limbs hold. */
  ghost function Four(v0: nat, v1: nat, v2: nat, v3: nat): nat
  {
    v0 + B * v1 + B2 * (v2 + B * v3)
  }

  // ---------------------------------------------------------------- addition and subtraction

  ghost function Bit(c: bool): nat { if c then 1 else 0 }

  function AddWithCarry(x: nat, y: nat, carryin: bool): (r: (nat, bool))
    requires x < B && y < B
    ensures r.0 < B
    ensures r.0 + B * Bit(r.1) == x + y + Bit(carryin)
  {
    var half := (y + if carryin then 1 else 0) % B;
    var result := (x + half) % B;
    (result, half < y || result < x)
  }

  function SubWithCarry(x: nat, y: nat, carryin: bool): (r: (nat, bool))
    requires x < B && y < B
    ensures r.0 < B
    ensures r.0 - B * Bit(r.1) == x - y - Bit(carryin)
  {
    var half := (y + if carryin then 1 else 0) % B;
    var result := (x - half) % B;
    (result, half < y || result > x)
  }

  method Carry(x: nat, y: nat, carryin: bool) returns (r: nat, carryout: bool)
    requires x < B && y < B
    ensures r < B && r + B * Bit(carryout) == x + y + Bit(carryin)
  {
    var p := AddWithCarry(x, y, carryin);
    return p.0, p.1;
  }

  method Borrow(x: nat, y: nat, carryin: bool) returns (r: nat, carryout: bool)
    requires x < B && y < B
    ensures r < B && r - B * Bit(carryout) == x - y - Bit(carryin)
  {
    var p := SubWithCarry(x, y, carryin);
    return p.0, p.1;
  }

  method Add(a: U128, b: U128) returns (r: U128)
    requires a.Valid() && b.Valid()
    ensures r.Valid() && r.V() == (a.V() + b.V()) % B4
  {
    var v0, c0 := Carry(a.w[0], b.w[0], false);
    var v1, c1 := Carry(a.w[1], b.w[1], c0);
    var v2, c2 := Carry(a.w[2], b.w[2], c1);
    var v3, c3 := Carry(a.w[3], b.w[3], c2);
    r := FromWords(v0, v1, v2, v3);
    Carried(a, b, r, Bit(c0), Bit(c1), Bit(c2), Bit(c3));
    DivModUnique(a.V() + b.V(), B4, Bit(c3), r.V());
  }

  /** Four limb sums with their carries are the sum of the values, and the last carry. */
  lemma Carried(a: U128, b: U128, v: U128, c0: nat, c1: nat, c2: nat, c3: nat)
    requires a.Valid() && b.Valid() && v.Valid()
    requires v.w[0] + B * c0 == a.w[0] + b.w[0] && v.w[1] + B * c1 == a.w[1] + b.w[1] + c0
    requires v.w[2] + B * c2 == a.w[2] + b.w[2] + c1 && v.w[3] + B * c3 == a.w[3] + b.w[3] + c2
    ensures v.V() + c3 * B4 == a.V() + b.V() && v.V() < B4
  {
    a.Halves();
    b.Halves();
    v.Halves();
    Chain(a.w[0], a.w[1], a.w[2], a.w[3], b.w[0], b.w[1], b.w[2], b.w[3], v.w[0], v.w[1], v.w[2], v.w[3],
          c0, c1, c2, c3);
  }

  lemma Chain(a0: int, a1: int, a2: int, a3: int, b0: int, b1: int, b2: int, b3: int,
              v0: int, v1: int, v2: int, v3: int, c0: int, c1: int, c2: int, c3: int)
    requires v0 + B * c0 == a0 + b0 && v1 + B * c1 == a1 + b1 + c0
    requires v2 + B * c2 == a2 + b2 + c1 && v3 + B * c3 == a3 + b3 + c2
    ensures v0 + B * v1 + B2 * (v2 + B * v3) + c3 * B4
         == a0 + B * a1 + B2 * (a2 + B * a3) + (b0 + B * b1 + B2 * (b2 + B * b3))
  {
  }

  method Sub(a: U128, b: U128) returns (r: U128)
    requires a.Valid() && b.Valid()
    ensures r.Valid() && r.V() == (a.V() - b.V()) % B4
  {
    var v0, c0 := Borrow(a.w[0], b.w[0], false);
    var v1, c1 := Borrow(a.w[1], b.w[1], c0);
    var v2, c2 := Borrow(a.w[2], b.w[2], c1);
    var v3, c3 := Borrow(a.w[3], b.w[3], c2);
    r := FromWords(v0, v1, v2, v3);
    // Read backwards, the borrows of a - b are the carries of r + b.
    Carried(r, b, a, Bit(c0), Bit(c1), Bit(c2), Bit(c3));
    r.Halves();
    DivModUnique(a.V() - b.V(), B4, 0 - Bit(c3), r.V());
  }

  /** `operator<` compares the double words. */
  predicate Less(a: U128, b: U128)
    requires |a.w| == 4 && |b.w| == 4
  {
    a.V23() < b.V23() || (a.V23() == b.V23() && a.V01() < b.V01())
  }

  lemma LessIs(a: U128, b: U128)
    requires a.Valid() && b.Valid()
    ensures Less(a, b) <==> a.V() < b.V()
  {
    a.Halves();
    b.Halves();
  }

  // ---------------------------------------------------------------- multiplication

  /** Adding `y` to limb 1 (with a high part to limb 2) and rippling the carry up. */
  method AddAt1(v1: nat, v2: nat, v3: nat, y: nat) returns (r1: nat, r2: nat, r3: nat)
    requires v1 < B && v2 < B && v3 < B - 1 && y < B
    ensures r1 < B && r2 < B && r3 < B
    ensures r1 + B * r2 + B2 * r3 == v1 + B * v2 + B2 * v3 + y
  {
    var c: bool;
    r1, c := Carry(v1, y, false);
    r2, c := Carry(v2, 0, c);
    r3, c := Carry(v3, 0, c);
  }

  /** Adding a limb product `p` to limbs 2 and 3, as far as the source propagates it. */
  method AddAt2(v2: nat, v3: nat, y: nat, z: nat) returns (r2: nat, r3: nat, ghost c: bool)
    requires v2 < B && v3 < B && y < B && z < B
    ensures r2 < B && r3 < B && r2 + B * r3 + B2 * Bit(c) == v2 + B * v3 + y + B * z
  {
    var carry: bool;
    r2, carry := Carry(v2, y, false);
    r3, carry := Carry(v3, z, carry);
    c := carry;
  }

  /** The product of the low double words, limb product by limb product as the source adds them. */
  method MulLow(a0: nat, a1: nat, b0: nat, b1: nat) returns (v0: nat, v1: nat, v2: nat, v3: nat)
    requires a0 < B && a1 < B && b0 < B && b1 < B
    ensures v0 < B && v1 < B && v2 < B && v3 < B
    ensures Four(v0, v1, v2, v3) == a0 * b0 + B * (a1 * b0) + B * (a0 * b1) + B2 * (a1 * b1)
  {
    LimbProduct(a0, b0);
    LimbProduct(a1, b0);
    LimbProduct(a0, b1);
    LimbProduct(a1, b1);
    var a0b0, a1b0, a0b1, a1b1 := a0 * b0, a1 * b0, a0 * b1, a1 * b1;
    ghost var c: bool;
    Fits(a0, a1, b0, b1);
    v0, v1 := a0b0 % B, a0b0 / B;
    v1, v2, v3 := AddAt1(v1, a1b0 / B, 0, a1b0 % B);
    assert Four(v0, v1, v2, v3) == a0b0 + B * a1b0;
    assert v3 == 0 by { SmallTop(v0, v1, v2, v3, a0b0 + B * a1b0); }
    v2, v3, c := AddAt2(v2, v3, a0b1 / B, 0);
    assert v3 <= 1;
    v1, v2, v3 := AddAt1(v1, v2, v3, a0b1 % B);
    assert Four(v0, v1, v2, v3) == a0b0 + B * a1b0 + B * a0b1;
    v2, v3, c := AddAt2(v2, v3, a1b1 % B, a1b1 / B);
    assert Four(v0, v1, v2, v3) + B4 * Bit(c) == a0b0 + B * a1b0 + B * a0b1 + B2 * a1b1;
  }

  lemma SmallTop(v0: nat, v1: nat, v2: nat, v3: nat, x: nat)
    requires Four(v0, v1, v2, v3) == x < B2 * B
    ensures v3 == 0
  {
  }

  lemma LimbProduct(x: nat, y: nat)
    requires x < B && y < B
    ensures 0 <= x * y <= (B - 1) * (B - 1)
  {
    MulMono(x, y, B - 1, B - 1);
    MulMono(0, 0, x, y);
  }

  lemma MulMono(x: nat, y: nat, p: nat, q: nat)
    requires x <= p && y <= q
    ensures x * y <= p * q
  {
    assert x * y <= x * q;
    assert x * q <= p * q;
  }

  /** The product of two double words needs no fifth limb. */
  lemma Fits(a0: nat, a1: nat, b0: nat, b1: nat)
    requires a0 < B && a1 < B && b0 < B && b1 < B
    ensures a0 * b0 + B * (a1 * b0) + B * (a0 * b1) + B2 * (a1 * b1) < B4
    ensures (a0 + B * a1) * (b0 + B * b1) == a0 * b0 + B * (a1 * b0) + B * (a0 * b1) + B2 * (a1 * b1)
  {
    MulMono(a0, b0, B - 1, B - 1);
    MulMono(a1, b0, B - 1, B - 1);
    MulMono(a0, b1, B - 1, B - 1);
    MulMono(a1, b1, B - 1, B - 1);
    Expand(a0, a1, b0, b1);
  }

  lemma Expand(a0: int, a1: int, b0: int, b1: int)
    ensures (a0 + B * a1) * (b0 + B * b1) == a0 * b0 + B * (a1 * b0) + B * (a0 * b1) + B2 * (a1 * b1)
  {
    assert (a0 + B * a1) * (b0 + B * b1) == a0 * (b0 + B * b1) + B * (a1 * (b0 + B * b1));
    assert a0 * (b0 + B * b1) == a0 * b0 + B * (a0 * b1);
    assert a1 * (b0 + B * b1) == a1 * b0 + B * (a1 * b1);
  }

  method Mul(a: U128, b: U128) returns (r: U128)
    requires a.Valid() && b.Valid()
    ensures r.Valid() && r.V() == (a.V() * b.V()) % B4
  {
    var v0, v1, v2, v3 := MulLow(a.w[0], a.w[1], b.w[0], b.w[1]);
    var a01, a23, b01, b23 := a.V01(), a.V23(), b.V01(), b.V23();
    var cross := (a01 * b23 + a23 * b01) % B2;
    var v23 := ((v2 + B * v3) + cross) % B2;
    r := FromWords(v0, v1, v23 % B, v23 / B);
    LowProduct(a.w[0], a.w[1], b.w[0], b.w[1], v0, v1, v2, v3);
    JoinHalves(v0, v1, v23, r);
    MulCombine(a, b, a01, a23, b01, b23, v0 + B * v1, v2 + B * v3, r);
  }

  /** The low double words multiplied limb by limb. */
  lemma LowProduct(a0: nat, a1: nat, b0: nat, b1: nat, v0: nat, v1: nat, v2: nat, v3: nat)
    requires a0 < B && a1 < B && b0 < B && b1 < B
    requires Four(v0, v1, v2, v3) == a0 * b0 + B * (a1 * b0) + B * (a0 * b1) + B2 * (a1 * b1)
    ensures (v0 + B * v1) + B2 * (v2 + B * v3) == (a0 + B * a1) * (b0 + B * b1)
  {
    Expand(a0, a1, b0, b1);
  }

  lemma MulCombine(a: U128, b: U128, a01: nat, a23: nat, b01: nat, b23: nat, lo: nat, hi: nat, r: U128)
    requires a.Valid() && b.Valid() && lo < B2 && lo + B2 * hi == a01 * b01
    requires a01 == a.V01() && a23 == a.V23() && b01 == b.V01() && b23 == b.V23()
    requires r.V() == lo + B2 * ((hi + (a01 * b23 + a23 * b01) % B2) % B2)
    ensures r.V() == (a.V() * b.V()) % B4
  {
    assert a.V() == a01 + B2 * a23 by { a.Halves(); }
    assert b.V() == b01 + B2 * b23 by { b.Halves(); }
    MulHigh(a01, a23, b01, b23, lo, hi, r.V());
  }

  lemma JoinHalves(v0: nat, v1: nat, high: nat, r: U128)
    requires v0 < B && v1 < B && high < B2 && r == FromWords(v0, v1, high % B, high / B)
    ensures r.Valid() && r.V() == v0 + B * v1 + B2 * high
  {
    r.Halves();
  }

  /** Double words: everything from `2^128` on is dropped. */
  lemma MulHigh(a: nat, a': nat, b: nat, b': nat, lo: nat, hi: nat, r: nat)
    requires lo < B2 && lo + B2 * hi == a * b
    requires r == lo + B2 * ((hi + (a * b' + a' * b) % B2) % B2)
    ensures r == ((a + B2 * a') * (b + B2 * b')) % B4
  {
    var x := a * b' + a' * b;
    var k := x / B2;
    var h := hi + x % B2;
    var j := h / B2;
    assert (a + B2 * a') * (b + B2 * b') == a * b + B2 * x + B4 * (a' * b') by {
      assert (a + B2 * a') * (b + B2 * b') == a * (b + B2 * b') + B2 * (a' * (b + B2 * b'));
      assert a * (b + B2 * b') == a * b + B2 * (a * b');
      assert a' * (b + B2 * b') == a' * b + B2 * (a' * b');
    }
    assert B4 == B2 * B2;
    DivModUnique((a + B2 * a') * (b + B2 * b'), B4, a' * b' + k + j, r);
  }

  // ---------------------------------------------------------------- shifts

  /** `2^(32 n)`. */
  ghost function BPow(n: nat): nat
  {
    if n == 0 then 1 else B * BPow(n - 1)
  }

  lemma {:induction false} BPowIsPow2(n: nat)
    ensures BPow(n) == Pow2(32 * n)
  {
    Pow2Values();
    if n > 0 {
      BPowIsPow2(n - 1);
      Pow2Add(32, 32 * (n - 1));
    }
  }

  lemma {:induction false} ValAppend(s: seq<nat>, t: seq<nat>)
    ensures Val(s + t) == Val(s) + BPow(|s|) * Val(t)
  {
    if s == [] {
      assert s + t == t;
    } else {
      ValAppend(s[1..], t);
      assert (s + t)[1..] == s[1..] + t;
      assert B * (BPow(|s| - 1) * Val(t)) == (B * BPow(|s| - 1)) * Val(t);
    }
  }

  lemma {:induction false} ValZeros(s: seq<nat>)
    requires forall i :: 0 <= i < |s| ==> s[i] == 0
    ensures Val(s) == 0
  {
    if s != [] { ValZeros(s[1..]); }
  }

  /** A word cut in two, scaled. */
  lemma CutWord(x: nat, p: nat, q: nat)
    requires p > 0 && q > 0 && x < p * q
    ensures x / q < p && (x % q) * p <= p * q - p
    ensures x * p == (x / q) * (p * q) + (x % q) * p
    ensures (x * p) % (p * q) == (x % q) * p
  {
    var hi, lo := x / q, x % q;
    assert x == hi * q + lo;
    if hi >= p { MulMono(p, q, hi, q); }
    assert (hi * q + lo) * p == hi * (p * q) + lo * p;
    MulMono(lo, p, q - 1, p);
    assert (q - 1) * p == p * q - p;
    DivModUnique(x * p, p * q, hi, lo * p);
  }

  /** A 32-bit word shifted left by `m`, with the bits that fall out at the top. */
  lemma ShlWord(x: nat, carry: nat, m: nat, p: nat, q: nat)
    requires x < B && 0 < m < 32 && p == Pow2(m) && q == Pow2(32 - m) && carry < p
    ensures (x * p) % B == (x % q) * p && x / q < p
    ensures carry + (x * p) % B < B
    ensures carry + (x * p) % B + B * (x / q) == x * p + carry
  {
    WordWidth(m);
    CutWord(x, p, q);
  }

  /** OR of bits that do not meet: the low `i` bits and a multiple of `2^i`. */
  method JoinBits(hi: nat, lo: nat, i: nat, ghost k: nat) returns (r: nat)
    requires lo < Pow2(i) && hi == k * Pow2(i)
    ensures r == lo + hi
  {
    OrDisjoint(lo, k, i);
    r := Or(hi, lo);
  }

  lemma WordWidth(m: nat)
    requires m <= 32
    ensures Pow2(32 - m) * Pow2(m) == B
  {
    Pow2Values();
    Pow2Add(32 - m, m);
  }

  /** The bits of a word that a right shift drops, moved to the top of the next word. */
  lemma ShrCarry(x: nat, m: nat, p: nat, q: nat)
    requires x < B && 0 < m < 32 && p == Pow2(32 - m) && q == Pow2(m)
    ensures (x * p) % B == (x % q) * p
  {
    WordWidth(m);
    CutWord(x, p, q);
  }

  /** A 32-bit word shifted right by `m`, joined with the bits dropped by the word above. */
  lemma ShrWord(x: nat, low: nat, m: nat, p: nat, q: nat)
    requires x < B && 0 < m < 32 && p == Pow2(32 - m) && q == Pow2(m) && low < q
    ensures x / q < p && x / q + low * p < B
    ensures (x / q + low * p) * q + x % q == x + B * low
  {
    WordWidth(m);
    CutWord(x, p, q);
    ShrAlgebra(x, low, p, q);
  }

  lemma ShrAlgebra(x: nat, low: nat, p: nat, q: nat)
    requires q > 0 && low < q && x < p * q
    ensures (x / q + low * p) * q + x % q == x + (p * q) * low
    ensures x / q + low * p < p * q
  {
    var hi := x / q;
    assert x == hi * q + x % q;
    assert (hi + low * p) * q == hi * q + low * (p * q);
    if hi >= p { MulMono(p, q, hi, q); }
    MulMono(low, p, q - 1, p);
    assert (q - 1) * p == p * q - p;
  }

  /** The limbs `x` hold the low limbs of `v` shifted left by `m` bits, with `carry` over. */
  ghost predicate ShlPart(v: seq<nat>, x: seq<nat>, carry: nat, m: nat)
  {
    |x| <= |v| && Val(x) + BPow(|x|) * carry == Val(v[..|x|]) * Pow2(m)
  }

  lemma ShlStep(v: seq<nat>, x: seq<nat>, carry: nat, m: nat, out: nat, carry': nat)
    requires |x| < |v| && ShlPart(v, x, carry, m)
    requires out + B * carry' == v[|x|] * Pow2(m) + carry
    ensures ShlPart(v, x + [out], carry', m)
  {
    var n := |x|;
    ValAppend(x, [out]);
    ValAppend(v[..n], [v[n]]);
    assert v[..n + 1] == v[..n] + [v[n]];
    assert Val([out]) == out + B * Val([]) && Val([v[n]]) == v[n] + B * Val([]);
    ShlStepAlgebra(Val(x), Val(v[..n]), BPow(n), carry, carry', out, v[n], Pow2(m));
  }

  lemma ShlStepAlgebra(x: int, v: int, b: int, c: int, c': int, out: int, d: int, p: int)
    requires x + b * c == v * p && out + B * c' == d * p + c
    ensures x + b * out + (B * b) * c' == (v + b * d) * p
  {
    assert b * (out + B * c') == b * (d * p + c);
    assert b * (out + B * c') == b * out + (B * b) * c';
    assert b * (d * p + c) == (b * d) * p + b * c;
    assert (v + b * d) * p == v * p + (b * d) * p;
  }

  /** Putting the shifted limbs above `sd` zero limbs multiplies by `2^(32 sd + m)`; what does not
      fit is dropped. */
  lemma ShlFinish(v: seq<nat>, w: seq<nat>, x: seq<nat>, sd: nat, carry: nat, m: nat)
    requires |v| == 4 && sd <= 4 && |x| == 4 - sd && Limbs(w) && ShlPart(v, x, carry, m)
    requires |w| == 4 && w[sd..] == x && forall i :: 0 <= i < sd ==> w[i] == 0
    ensures Val(w) == (Val(v) * Pow2(32 * sd + m)) % B4
  {
    var n := 4 - sd;
    AboveZeros(w, x, sd);
    ValAppend(v[..n], v[n..]);
    assert v == v[..n] + v[n..];
    LimbPowers(sd, m);
    U128(w).Halves();
    ShlNumbers(Val(x), Val(v[..n]), Val(v[n..]), BPow(sd), BPow(n), carry, Pow2(m));
  }

  lemma AboveZeros(w: seq<nat>, x: seq<nat>, sd: nat)
    requires sd <= |w| && w[sd..] == x && forall i :: 0 <= i < sd ==> w[i] == 0
    ensures Val(w) == BPow(sd) * Val(x)
  {
    ValAppend(w[..sd], x);
    assert w == w[..sd] + x;
    ValZeros(w[..sd]);
  }

  lemma LimbPowers(sd: nat, m: nat)
    requires sd <= 4
    ensures BPow(sd) * BPow(4 - sd) == B4 && Pow2(32 * sd + m) == BPow(sd) * Pow2(m)
  {
    BPowIsPow2(sd);
    Pow2Add(32 * sd, m);
    AllLimbs(sd);
  }

  lemma AllLimbs(sd: nat)
    requires sd <= 4
    ensures BPow(sd) * BPow(4 - sd) == B4
  {
    BPowIsPow2(sd);
    BPowIsPow2(4 - sd);
    Pow2Values();
    Pow2Add(32 * sd, 32 * (4 - sd));
  }

  lemma ShlNumbers(x: nat, lo: nat, hi: nat, s: nat, b: nat, c: nat, p: nat)
    requires x + b * c == lo * p && s * b == B4 && s * x < B4
    ensures s * x == ((lo + b * hi) * (s * p)) % B4
  {
    ShlFinishAlgebra(x, lo, hi, s, b, c, p);
    DivModUnique((lo + b * hi) * (s * p), B4, c + hi * p, s * x);
  }

  lemma ShlFinishAlgebra(x: int, lo: int, hi: int, s: int, b: int, c: int, p: int)
    requires x + b * c == lo * p
    ensures (lo + b * hi) * (s * p) == (c + hi * p) * (s * b) + s * x
  {
    assert (lo + b * hi) * (s * p) == s * (lo * p) + (b * hi) * (s * p);
    assert s * (lo * p) == s * (x + b * c) == s * x + c * (s * b);
    assert (b * hi) * (s * p) == (hi * p) * (s * b);
    assert (c + hi * p) * (s * b) == c * (s * b) + (hi * p) * (s * b);
  }

  /** Before round `out` of the loop: the limbs from `sd` on are the shifted low limbs of `v`. */
  ghost predicate ShlState(v: seq<nat>, w: seq<nat>, sd: nat, out: nat, carry: nat, m: nat)
  {
    && |v| == 4 && |w| == 4 && Limbs(w) && sd <= out
    && (forall i :: 0 <= i < 4 && (i < sd || out <= i) ==> w[i] == 0)
    && (if sd <= 4 then out <= 4 && ShlPart(v, w[sd..out], carry, m) else out == sd)
  }

  lemma ShlInit(v: seq<nat>, sd: nat, m: nat)
    requires |v| == 4
    ensures ShlState(v, [0, 0, 0, 0], sd, sd, 0, m)
  {
    assert v[..0] == [];
    if sd <= 4 { assert [0, 0, 0, 0][sd..sd] == []; }
  }

  lemma ShlRound(v: seq<nat>, w: seq<nat>, sd: nat, out: nat, carry: nat, m: nat, limb: nat, carry': nat)
    requires ShlState(v, w, sd, out, carry, m) && out < 4 && limb < B
    requires limb + B * carry' == v[out - sd] * Pow2(m) + carry
    ensures ShlState(v, w[out := limb], sd, out + 1, carry', m)
  {
    ShlStep(v, w[sd..out], carry, m, limb, carry');
    assert w[out := limb][sd..out + 1] == w[sd..out] + [limb];
  }

  lemma ShlDone(v: seq<nat>, w: seq<nat>, shift: nat, sd: nat, out: nat, carry: nat, m: nat)
    requires ShlState(v, w, sd, out, carry, m) && out >= 4 && shift == 32 * sd + m
    ensures Val(w) == (Val(v) * Pow2(shift)) % B4
  {
    if sd <= 4 {
      ShlFinish(v, w, w[sd..out], sd, carry, m);
    } else {
      ValZeros(w);
      NothingLeft(Val(v), shift);
    }
  }

  lemma TopPower(e: nat)
    ensures Pow2(e + 128) == Pow2(e) * B4
  {
    Pow2Values();
    Pow2Add(e, 128);
  }

  lemma NothingLeft(x: nat, shift: nat)
    requires shift >= 128
    ensures (x * Pow2(shift)) % B4 == 0
  {
    var e := shift - 128;
    TopPower(e);
    MultipleOfAll(x, Pow2(e));
  }

  method ShlLimb(x: nat, carry: nat, m: nat) returns (limb: nat, carry': nat)
    requires x < B && 0 < m < 32 && carry < Pow2(m)
    ensures limb < B && carry' < Pow2(m) && limb + B * carry' == x * Pow2(m) + carry
  {
    var p, q := Pow2(m), Pow2(32 - m);
    ShlWord(x, carry, m, p, q);
    limb := JoinBits(Wrapped(x, p, B), carry, m, x % q);
    carry' := Quotient(x, q);
  }

  method ShlBits(v: seq<nat>, sd: nat, m: nat) returns (w: seq<nat>, ghost carry: nat, ghost end: nat)
    requires |v| == 4 && Limbs(v) && 0 < m < 32
    ensures ShlState(v, w, sd, end, carry, m) && end >= 4
  {
    w := [0, 0, 0, 0];
    var carryover: nat := 0;
    var out, inp := sd, 0;
    ShlInit(v, sd, m);
    while out < 4
      invariant inp == out - sd && ShlState(v, w, sd, out, carryover, m) && carryover < Pow2(m)
    {
      var limb, next := ShlLimb(v[inp], carryover, m);
      ShlRound(v, w, sd, out, carryover, m, limb, next);
      w := w[out := limb];
      carryover := next;
      out, inp := out + 1, inp + 1;
    }
    carry, end := carryover, out;
  }

  method ShlWords(v: seq<nat>, sd: nat) returns (w: seq<nat>, ghost end: nat)
    requires |v| == 4 && Limbs(v)
    ensures ShlState(v, w, sd, end, 0, 0) && end >= 4
  {
    w := [0, 0, 0, 0];
    var out, inp := sd, 0;
    ShlInit(v, sd, 0);
    while out < 4
      invariant inp == out - sd && ShlState(v, w, sd, out, 0, 0)
    {
      ShlRound(v, w, sd, out, 0, 0, v[inp], 0);
      w := w[out := v[inp]];
      out, inp := out + 1, inp + 1;
    }
    end := out;
  }

  /** `operator<<`, for every shift count the type admits. */
  method Shl(v: U128, shift: nat) returns (r: U128)
    requires v.Valid() && shift < 256
    ensures r.Valid() && r.V() == (v.V() * Pow2(shift)) % B4
  {
    var w;
    var shiftdiv, shiftmod := shift / 32, shift % 32;
    ghost var carry, end := 0, 0;
    if shiftmod != 0 {
      w, carry, end := ShlBits(v.w, shiftdiv, shiftmod);
    } else {
      w, end := ShlWords(v.w, shiftdiv);
    }
    ShlDone(v.w, w, shift, shiftdiv, end, carry, shiftmod);
    r := U128(w);
  }

  lemma MultipleOfAll(x: nat, y: nat)
    ensures (x * (y * B4)) % B4 == 0
  {
    assert x * (y * B4) == (x * y) * B4;
    DivModUnique(x * (y * B4), B4, x * y, 0);
  }

  /** Before the round that fills limb `out - 1`: the limbs from `out` on are the limbs of `v` from
      `out + sd` on, shifted right by `m` bits, and `low` are the bits that dropped out. */
  ghost predicate ShrState(v: seq<nat>, w: seq<nat>, sd: nat, out: nat, low: nat, m: nat)
  {
    && |v| == 4 && |w| == 4 && Limbs(v) && Limbs(w) && sd + out <= 4 && low < Pow2(m)
    && (forall i :: 4 - sd <= i < 4 ==> w[i] == 0)
    && Val(v[sd + out..]) == Val(w[out..4 - sd]) * Pow2(m) + low
  }

  lemma ShrInit(v: seq<nat>, sd: nat, m: nat)
    requires |v| == 4 && Limbs(v) && sd <= 4
    ensures ShrState(v, [0, 0, 0, 0], sd, 4 - sd, 0, m)
  {
    assert v[4..] == [] && [0, 0, 0, 0][4 - sd..4 - sd] == [];
  }

  lemma ShrRound(v: seq<nat>, w: seq<nat>, sd: nat, out: nat, low: nat, m: nat, limb: nat, low': nat)
    requires ShrState(v, w, sd, out, low, m) && out > 0 && limb < B && low' < Pow2(m)
    requires limb * Pow2(m) + low' == v[sd + out - 1] + B * low
    ensures ShrState(v, w[out - 1 := limb], sd, out - 1, low', m)
  {
    var i := sd + out - 1;
    var w' := w[out - 1 := limb];
    assert v[i..][1..] == v[i + 1..];
    assert w'[out - 1..4 - sd][1..] == w[out..4 - sd] && w'[out - 1..4 - sd][0] == limb;
    ShrRoundAlgebra(v[i], Val(v[i + 1..]), limb, Val(w[out..4 - sd]), Pow2(m), low, low');
  }

  lemma ShrRoundAlgebra(x: int, v: int, limb: int, r: int, q: int, low: int, low': int)
    requires v == r * q + low && limb * q + low' == x + B * low
    ensures x + B * v == (limb + B * r) * q + low'
  {
    assert (limb + B * r) * q == limb * q + B * (r * q);
  }

  lemma {:induction false} ValBound(s: seq<nat>)
    requires Limbs(s)
    ensures Val(s) < BPow(|s|)
  {
    if s != [] { ValBound(s[1..]); }
  }

  lemma ShrDone(v: seq<nat>, w: seq<nat>, sd: nat, low: nat, m: nat)
    requires ShrState(v, w, sd, 0, low, m)
    ensures Val(w) == Val(v) / Pow2(32 * sd + m)
  {
    ghost var r := Val(w[0..4 - sd]);
    assert Val(w) == r by { BelowZeros(w, 4 - sd); }
    assert Val(v[sd..]) == r * Pow2(m) + low;
    CutLimbs(v, sd);
    LimbPowers(sd, m);
    ShrNumbers(Val(v[..sd]), Val(v[sd..]), r, BPow(sd), Pow2(m), low);
  }

  lemma BelowZeros(w: seq<nat>, n: nat)
    requires n <= |w| && forall i :: n <= i < |w| ==> w[i] == 0
    ensures Val(w) == Val(w[0..n])
  {
    assert w == w[0..n] + w[n..];
    ValAppend(w[0..n], w[n..]);
    ValZeros(w[n..]);
  }

  lemma CutLimbs(v: seq<nat>, n: nat)
    requires n <= |v| && Limbs(v)
    ensures Val(v) == Val(v[..n]) + BPow(n) * Val(v[n..]) && Val(v[..n]) < BPow(n)
  {
    assert v == v[..n] + v[n..];
    ValAppend(v[..n], v[n..]);
    ValBound(v[..n]);
  }

  lemma ShrNumbers(lo: nat, hi: nat, r: nat, s: nat, q: nat, low: nat)
    requires s > 0 && q > 0 && lo < s && low < q && hi == r * q + low && s * q > 0
    ensures (lo + s * hi) / (s * q) == r
  {
    ShrRegroup(r, q, low, s);
    RemainderBelow(lo, s, low, q);
    DivModUnique(lo + s * hi, s * q, r, lo + s * low);
  }

  lemma ShrRegroup(r: nat, q: nat, low: nat, s: nat)
    ensures s * (r * q + low) == r * (s * q) + s * low
  {
    assert s * (r * q) == r * (s * q);
  }

  lemma RemainderBelow(lo: nat, s: nat, low: nat, q: nat)
    requires lo < s && low < q
    ensures 0 <= lo + s * low < s * q
  {
    MulMono(s, low, s, q - 1);
    assert s * (q - 1) == s * q - s;
  }

  method ShrLimb(x: nat, carry: nat, m: nat, ghost low: nat) returns (limb: nat, carry': nat, ghost low': nat)
    requires x < B && 0 < m < 32 && low < Pow2(m) && carry == low * Pow2(32 - m)
    ensures limb < B && low' < Pow2(m) && limb * Pow2(m) + low' == x + B * low
    ensures carry' == low' * Pow2(32 - m)
  {
    ShrBelow(x, m);
    limb := JoinBits(carry, x / Pow2(m), 32 - m, low);
    ShrLimbIs(x, carry, m, low, limb);
    ShrCarry(x, m, Pow2(32 - m), Pow2(m));
    carry', low' := (x * Pow2(32 - m)) % B, x % Pow2(m);
  }

  lemma ShrBelow(x: nat, m: nat)
    requires x < B && 0 < m < 32
    ensures x / Pow2(m) < Pow2(32 - m)
  {
    WordWidth(m);
    CutWord(x, Pow2(32 - m), Pow2(m));
  }

  lemma ShrLimbIs(x: nat, carry: nat, m: nat, low: nat, limb: nat)
    requires x < B && 0 < m < 32 && low < Pow2(m) && carry == low * Pow2(32 - m)
    requires limb == x / Pow2(m) + carry
    ensures limb < B && limb * Pow2(m) + x % Pow2(m) == x + B * low
  {
    ShrWord(x, low, m, Pow2(32 - m), Pow2(m));
  }

  method ShrBits(v: seq<nat>, sd: nat, m: nat) returns (w: seq<nat>, ghost low: nat)
    requires |v| == 4 && Limbs(v) && sd <= 4 && 0 < m < 32
    ensures ShrState(v, w, sd, 0, low, m)
  {
    w := [0, 0, 0, 0];
    var carryover: nat := 0;
    var out: nat, inp: nat := 4 - sd, 4;
    low := 0;
    ShrInit(v, sd, m);
    while out != 0
      invariant inp == out + sd && ShrState(v, w, sd, out, low, m) && carryover == low * Pow2(32 - m)
    {
      out, inp := out - 1, inp - 1;
      var limb, carry, left := ShrLimb(v[inp], carryover, m, low);
      ShrRound(v, w, sd, out + 1, low, m, limb, left);
      w := w[out := limb];
      carryover, low := carry, left;
    }
  }

  method ShrWords(v: seq<nat>, sd: nat) returns (w: seq<nat>)
    requires |v| == 4 && Limbs(v) && sd <= 4
    ensures ShrState(v, w, sd, 0, 0, 0)
  {
    w := [0, 0, 0, 0];
    var out: nat, inp: nat := 4 - sd, 4;
    ShrInit(v, sd, 0);
    while out != 0
      invariant inp == out + sd && ShrState(v, w, sd, out, 0, 0)
    {
      out, inp := out - 1, inp - 1;
      ShrRound(v, w, sd, out + 1, 0, 0, v[inp], 0);
      w := w[out := v[inp]];
    }
  }

  /** `operator>>`. From 160 on the loop of the source would index outside its four limbs. */
  method Shr(v: U128, shift: nat) returns (r: U128)
    requires v.Valid() && shift < 160
    ensures r.Valid() && r.V() == v.V() / Pow2(shift)
  {
    var w;
    var shiftdiv, shiftmod := shift / 32, shift % 32;
    ghost var low := 0;
    if shiftmod != 0 {
      w, low := ShrBits(v.w, shiftdiv, shiftmod);
    } else {
      w := ShrWords(v.w, shiftdiv);
    }
    ShrDone(v.w, w, shiftdiv, low, shiftmod);
    r := U128(w);
  }

  // ---------------------------------------------------------------- flog2 and divmod

  /** `31 - clz(v)` for a non-zero word. */
  function FLog2Word(v: nat): (r: nat)
    requires v > 0
    ensures Pow2(r) <= v < Pow2(r + 1)
  {
    if v == 1 then 0 else 1 + FLog2Word(v / 2)
  }

  lemma {:induction false} FLog2Bound(v: nat, n: nat)
    requires 0 < v < Pow2(n)
    ensures FLog2Word(v) < n
  {
    if FLog2Word(v) >= n { Pow2Monotone(n, FLog2Word(v)); }
  }

  /** The highest limb that is not zero, counted from 1. */
  method HighestLimb(v: U128) returns (i: nat)
    requires v.Valid() && v.V() > 0
    ensures 1 <= i <= 4 && v.w[i - 1] != 0 && Val(v.w[i..]) == 0
  {
    i := 4;
    assert v.w[4..] == [] && v.w[0..] == v.w;
    while i != 0 && v.w[i - 1] == 0
      invariant 0 <= i <= 4 && Val(v.w[i..]) == 0
    {
      i := i - 1;
      assert v.w[i..][1..] == v.w[i + 1..];
    }
  }

  /** The position of the highest set bit, from the highest non-zero limb. */
  method FLog2(v: U128) returns (r: nat)
    requires v.Valid() && v.V() > 0
    ensures Pow2(r) <= v.V() < Pow2(r + 1) && r < 128
  {
    var i := HighestLimb(v);
    var k := FLog2Word(v.w[i - 1]);
    r := k + 32 * (i - 1);
    HighestBit(v, i - 1, k);
  }

  lemma HighestBit(v: U128, i: nat, k: nat)
    requires v.Valid() && i < 4 && v.w[i] != 0 && Val(v.w[i + 1..]) == 0 && k == FLog2Word(v.w[i])
    ensures Pow2(k + 32 * i) <= v.V() < Pow2(k + 32 * i + 1) && k + 32 * i < 128
  {
    WordLog(v.w[i], k);
    TopLimb(v.w, i, k);
  }

  lemma WordLog(x: nat, k: nat)
    requires 0 < x < B && k == FLog2Word(x)
    ensures k < 32
  {
    Pow2Values();
    FLog2Bound(x, 32);
  }

  lemma TopLimb(w: seq<nat>, i: nat, k: nat)
    requires Limbs(w) && i < |w| == 4 && Val(w[i + 1..]) == 0 && Pow2(k) <= w[i] < Pow2(k + 1)
    ensures Pow2(k + 32 * i) <= Val(w) < Pow2(k + 32 * i + 1)
  {
    TopLimbValue(w, i);
    LimbBit(i, k);
    LimbBit(i, k + 1);
    TopLimbNumbers(Val(w[..i]), w[i], BPow(i), Pow2(k), Pow2(k + 1));
  }

  lemma TopLimbValue(w: seq<nat>, i: nat)
    requires Limbs(w) && i < |w| && Val(w[i + 1..]) == 0
    ensures Val(w) == Val(w[..i]) + BPow(i) * w[i] && Val(w[..i]) < BPow(i)
  {
    assert w[i..][1..] == w[i + 1..];
    CutLimbs(w, i);
  }

  lemma LimbBit(i: nat, k: nat)
    ensures Pow2(k + 32 * i) == BPow(i) * Pow2(k)
  {
    BPowIsPow2(i);
    Pow2Add(32 * i, k);
    assert 32 * i + k == k + 32 * i;
  }

  lemma TopLimbNumbers(lo: nat, x: nat, s: nat, p: nat, p': nat)
    requires lo < s && p <= x < p'
    ensures s * p <= lo + s * x < s * p'
  {
    MulMono(s, p, s, x);
    MulMono(s, x, s, p' - 1);
    assert s * (p' - 1) == s * p' - s;
  }

  /** The shifted factor still stands for `2^k` divisors, or the division is over. */
  ghost predicate Factors(factor: U128, qfactor: U128, dividend: U128, d: nat, alive: bool, k: nat)
  {
    && factor.Valid() && qfactor.Valid() && dividend.Valid()
    && (if alive then factor.V() == d * Pow2(k) && qfactor.V() == Pow2(k)
        else dividend.V() < d && qfactor.V() == 0)
  }

  /** Halving both factors. */
  method HalveFactors(factor: U128, qfactor: U128, dividend: U128, ghost d: nat, ghost alive: bool, ghost k: nat)
    returns (f: U128, q: U128, ghost alive': bool, ghost k': nat)
    requires Factors(factor, qfactor, dividend, d, alive, k) && dividend.V() < factor.V()
    ensures Factors(f, q, dividend, d, alive', k') && f.V() < factor.V()
  {
    f := Shr(factor, 1);
    q := Shr(qfactor, 1);
    assert Pow2(1) == 2 * Pow2(0) == 2;
    alive', k' := alive && k > 0, if k > 0 then k - 1 else 0;
    if alive && k > 0 {
      HalfPow(d, k);
    }
  }

  lemma HalfPow(d: nat, k: nat)
    requires k > 0
    ensures (d * Pow2(k)) / 2 == d * Pow2(k - 1) && Pow2(k) / 2 == Pow2(k - 1)
  {
    assert d * (2 * Pow2(k - 1)) == 2 * (d * Pow2(k - 1));
  }

  /** Before each round: what is left to divide holds at least one shifted factor. */
  ghost predicate DivState(orig: nat, d: nat, quotient: U128, dividend: U128)
  {
    quotient.Valid() && dividend.Valid() && quotient.V() * d + dividend.V() == orig < B4
  }

  /** One subtraction of the shifted factor. */
  method SubtractFactor(ghost orig: nat, ghost d: nat, quotient: U128, dividend: U128,
                        factor: U128, qfactor: U128, ghost k: nat)
    returns (q: U128, r: U128)
    requires d > 0 && DivState(orig, d, quotient, dividend) && Factors(factor, qfactor, dividend, d, true, k)
    requires factor.V() <= dividend.V()
    ensures DivState(orig, d, q, r) && r.V() == dividend.V() - factor.V()
  {
    r := Sub(dividend, factor);
    q := Add(quotient, qfactor);
    dividend.Halves();
    DivModUnique(dividend.V() - factor.V(), B4, 0, dividend.V() - factor.V());
    RoomForQuotient(quotient.V(), Pow2(k), d, dividend.V(), orig);
    DivModUnique(quotient.V() + qfactor.V(), B4, 0, quotient.V() + qfactor.V());
  }

  lemma RoomForQuotient(q: nat, p: nat, d: nat, dividend: nat, orig: nat)
    requires d > 0 && q * d + dividend == orig < B4 && d * p <= dividend
    ensures q + p < B4 && (q + p) * d + (dividend - d * p) == orig
  {
    assert (q + p) * d == q * d + d * p;
    MulMono(q + p, 1, q + p, d);
  }

  /** Halving both factors until the shifted divisor is no larger than what is left. */
  method LowerFactors(factor: U128, qfactor: U128, dividend: U128, ghost d: nat, ghost k: nat)
    returns (f: U128, q: U128, ghost alive: bool, ghost k': nat)
    requires Factors(factor, qfactor, dividend, d, true, k)
    ensures Factors(f, q, dividend, d, alive, k') && f.V() <= dividend.V()
  {
    f, q, alive, k' := factor, qfactor, true, k;
    LessIs(dividend, f);
    while Less(dividend, f)
      invariant Factors(f, q, dividend, d, alive, k')
      invariant Less(dividend, f) <==> dividend.V() < f.V()
      decreases f.V()
    {
      f, q, alive, k' := HalveFactors(f, q, dividend, d, alive, k');
      LessIs(dividend, f);
    }
  }

  /** Division with remainder: for every non-zero divisor it terminates, the shifted factor never
      overflows, and the result is exact. */
  method DivMod(orig: U128, divisor: U128) returns (quotient: U128, remainder: U128)
    requires orig.Valid() && divisor.Valid() && divisor.V() > 0
    ensures quotient.Valid() && remainder.Valid()
    ensures quotient.V() * divisor.V() + remainder.V() == orig.V() && remainder.V() < divisor.V()
  {
    LessIs(orig, divisor);
    orig.Halves();
    if Less(orig, divisor) {
      return FromDouble(0), orig;
    }
    var dividend := orig;
    var log2Divisor := FLog2(divisor);
    var log2Dividend := FLog2(dividend);
    if log2Dividend < log2Divisor { Pow2Monotone(log2Dividend + 1, log2Divisor); }
    var logdiff: nat := log2Dividend - log2Divisor;
    var one := FromDouble(1);
    if logdiff == 0 {
      remainder := Sub(dividend, divisor);
      DivModUnique(dividend.V() - divisor.V(), B4, 0, dividend.V() - divisor.V());
      return one, remainder;
    }
    logdiff := logdiff - 1;
    quotient := FromDouble(0);
    var qfactor := Shl(one, logdiff);
    var factor := Shl(divisor, logdiff);
    NoOverflow(divisor.V(), dividend.V(), log2Divisor, logdiff);
    ghost var d, k, alive := divisor.V(), logdiff, true;
    while true
      invariant DivState(orig.V(), d, quotient, dividend) && Factors(factor, qfactor, dividend, d, true, k)
      invariant factor.V() <= dividend.V()
      decreases dividend.V()
    {
      ghost var before := dividend.V();
      quotient, dividend := SubtractFactor(orig.V(), d, quotient, dividend, factor, qfactor, k);
      assert factor.V() > 0 by { MulMono(1, 1, d, Pow2(k)); }
      factor, qfactor, alive, k := LowerFactors(factor, qfactor, dividend, d, k);
      LessIs(dividend, divisor);
      if Less(dividend, divisor) {
        return quotient, dividend;
      }
    }
  }

  lemma NoOverflow(d: nat, n: nat, l: nat, e: nat)
    requires Pow2(l) <= d < Pow2(l + 1) && Pow2(l + 1 + e) <= n < B4
    ensures (d * Pow2(e)) % B4 == d * Pow2(e) <= n
    ensures (1 * Pow2(e)) % B4 == Pow2(e)
  {
    Pow2Add(l + 1, e);
    MulMono(d, Pow2(e), Pow2(l + 1), Pow2(e));
    MulMono(0, 0, d, Pow2(e));
    Pow2Monotone(e, l + 1 + e);
    Unwrapped(d * Pow2(e));
    Unwrapped(Pow2(e));
  }

  lemma Unwrapped(x: int)
    requires 0 <= x < B4
    ensures x % B4 == x
  {
    DivModUnique(x, B4, 0, x);
  }
}
