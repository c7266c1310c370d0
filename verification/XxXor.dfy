/** Exclusive or, byte by byte: how to compute it for large numbers. */
module XxXor {
  import opened Bits
  import opened XxPermutes

  function Differ(a: nat, b: nat): nat { if a != b then 1 else 0 }

  /** What determines an exclusive or: its low bit, and the rest. */
  ghost predicate LowAt(f: (nat, nat) -> nat, a: nat, x: nat, b: nat, y: nat)
  {
    a < 2 && b < 2 ==> f(a + 2 * x, b + 2 * y) == Differ(a, b) + 2 * f(x, y)
  }

  ghost predicate XorLike(f: (nat, nat) -> nat)
  {
    f(0, 0) == 0 && forall a, x, b, y :: LowAt(f, a, x, b, y)
  }

  function Operator(): (nat, nat) -> nat { (x: nat, y: nat) => Xor(x, y) }

  lemma XorIsLike()
    ensures XorLike(Operator())
  {
    forall a: nat, x: nat, b: nat, y: nat ensures LowAt(Operator(), a, x, b, y) {
      if a < 2 && b < 2 {
        LowBit(a, x);
        LowBit(b, y);
        XorStep(a + 2 * x, b + 2 * y);
      }
    }
  }

  /** The low `k` bits and the others do not meet. */
  lemma {:induction false} SplitAt(f: (nat, nat) -> nat, a: nat, x: nat, b: nat, y: nat, k: nat, p: nat)
    requires XorLike(f) && p == Pow2(k) && a < p && b < p
    ensures f(a + p * x, b + p * y) == f(a, b) + p * f(x, y)
    decreases k
  {
    if k == 0 {
      assert p == 1 && a == 0 && b == 0;
    } else {
      var q := Pow2(k - 1);
      var a0, a1, b0, b1 := a % 2, a / 2, b % 2, b / 2;
      SplitAt(f, a1, x, b1, y, k - 1, q);
      assert LowAt(f, a0, a1 + q * x, b0, b1 + q * y) && LowAt(f, a0, a1, b0, b1);
      Doubled(a, x, q);
      Doubled(b, y, q);
      Regrouped(Differ(a0, b0), f(a1, b1), q, f(x, y));
    }
  }

  lemma Doubled(a: nat, x: nat, q: nat)
    ensures a + (2 * q) * x == a % 2 + 2 * (a / 2 + q * x)
  {
    assert (2 * q) * x == 2 * (q * x);
  }

  lemma Regrouped(d: nat, z: nat, q: nat, w: nat)
    ensures d + 2 * (z + q * w) == (d + 2 * z) + (2 * q) * w
  {
    assert (2 * q) * w == 2 * (q * w);
  }

  // -------------------------------------------------------------------------
  // One byte
  // -------------------------------------------------------------------------

  function Bit(x: bv8, i: bv8): (b: nat)
    requires i < 8
    ensures b < 2
  {
    if (x >> i) & 1 == 1 then 1 else 0
  }

  function Join(a0: nat, a1: nat, a2: nat, a3: nat, high: nat): nat
  {
    a0 + 2 * (a1 + 2 * (a2 + 2 * (a3 + 2 * high)))
  }

  lemma ByteBits(x: bv8)
    ensures x as nat
            == Join(Bit(x, 0), Bit(x, 1), Bit(x, 2), Bit(x, 3), Join(Bit(x, 4), Bit(x, 5), Bit(x, 6), Bit(x, 7), 0))
  {
  }

  lemma BitXor(x: bv8, y: bv8, i: bv8)
    requires i < 8
    ensures Bit(x ^ y, i) == Differ(Bit(x, i), Bit(y, i))
  {
    assert ((x ^ y) >> i) & 1 == ((x >> i) & 1) ^ ((y >> i) & 1);
    assert (x >> i) & 1 == 0 || (x >> i) & 1 == 1;
    assert (y >> i) & 1 == 0 || (y >> i) & 1 == 1;
  }

  lemma JoinAt(f: (nat, nat) -> nat, a0: nat, a1: nat, a2: nat, a3: nat, x: nat,
               b0: nat, b1: nat, b2: nat, b3: nat, y: nat)
    requires XorLike(f) && a0 < 2 && a1 < 2 && a2 < 2 && a3 < 2 && b0 < 2 && b1 < 2 && b2 < 2 && b3 < 2
    ensures f(Join(a0, a1, a2, a3, x), Join(b0, b1, b2, b3, y))
         == Join(Differ(a0, b0), Differ(a1, b1), Differ(a2, b2), Differ(a3, b3), f(x, y))
  {
    var x3, y3 := a3 + 2 * x, b3 + 2 * y;
    var x2, y2 := a2 + 2 * x3, b2 + 2 * y3;
    assert LowAt(f, a3, x, b3, y) && LowAt(f, a2, x3, b2, y3);
    assert LowAt(f, a1, x2, b1, y2) && LowAt(f, a0, a1 + 2 * x2, b0, b1 + 2 * y2);
  }

  lemma ByteAt(f: (nat, nat) -> nat, x: bv8, y: bv8)
    requires XorLike(f)
    ensures f(x as nat, y as nat) == (x ^ y) as nat
  {
    ByteBits(x);
    ByteBits(y);
    ByteBits(x ^ y);
    LowBits(x, y);
    HighBits(x, y);
    JoinAt(f, Bit(x, 4), Bit(x, 5), Bit(x, 6), Bit(x, 7), 0, Bit(y, 4), Bit(y, 5), Bit(y, 6), Bit(y, 7), 0);
    JoinAt(f, Bit(x, 0), Bit(x, 1), Bit(x, 2), Bit(x, 3), Join(Bit(x, 4), Bit(x, 5), Bit(x, 6), Bit(x, 7), 0),
           Bit(y, 0), Bit(y, 1), Bit(y, 2), Bit(y, 3), Join(Bit(y, 4), Bit(y, 5), Bit(y, 6), Bit(y, 7), 0));
  }

  lemma LowBits(x: bv8, y: bv8)
    ensures Bit(x ^ y, 0) == Differ(Bit(x, 0), Bit(y, 0)) && Bit(x ^ y, 1) == Differ(Bit(x, 1), Bit(y, 1))
    ensures Bit(x ^ y, 2) == Differ(Bit(x, 2), Bit(y, 2)) && Bit(x ^ y, 3) == Differ(Bit(x, 3), Bit(y, 3))
  {
    BitXor(x, y, 0);
    BitXor(x, y, 1);
    BitXor(x, y, 2);
    BitXor(x, y, 3);
  }

  lemma HighBits(x: bv8, y: bv8)
    ensures Bit(x ^ y, 4) == Differ(Bit(x, 4), Bit(y, 4)) && Bit(x ^ y, 5) == Differ(Bit(x, 5), Bit(y, 5))
    ensures Bit(x ^ y, 6) == Differ(Bit(x, 6), Bit(y, 6)) && Bit(x ^ y, 7) == Differ(Bit(x, 7), Bit(y, 7))
  {
    BitXor(x, y, 4);
    BitXor(x, y, 5);
    BitXor(x, y, 6);
    BitXor(x, y, 7);
  }

  // -------------------------------------------------------------------------
  // Words of four and eight bytes, written with the highest byte first
  // -------------------------------------------------------------------------

  function Pair(a1: bv8, a0: bv8): (n: nat)
    ensures n < 0x1_0000
  {
    a0 as nat + 0x100 * (a1 as nat)
  }

  function Word(a3: bv8, a2: bv8, a1: bv8, a0: bv8): (n: nat)
    ensures n < 0x1_0000_0000
  {
    Pair(a1, a0) + 0x1_0000 * Pair(a3, a2)
  }

  function Long(a7: bv8, a6: bv8, a5: bv8, a4: bv8, a3: bv8, a2: bv8, a1: bv8, a0: bv8): nat
  {
    Word(a3, a2, a1, a0) + 0x1_0000_0000 * Word(a7, a6, a5, a4)
  }

  lemma Powers()
    ensures Pow2(8) == 0x100 && Pow2(16) == 0x1_0000 && Pow2(32) == 0x1_0000_0000
  {
    Pow2Values();
  }

  lemma PairOf(f: (nat, nat) -> nat, a1: nat, a0: nat, b1: nat, b0: nat, c1: nat, c0: nat)
    requires XorLike(f) && a0 < 0x100 && b0 < 0x100 && f(a0, b0) == c0 && f(a1, b1) == c1
    ensures f(a0 + 0x100 * a1, b0 + 0x100 * b1) == c0 + 0x100 * c1
  {
    Powers();
    SplitAt(f, a0, a1, b0, b1, 8, 0x100);
  }

  lemma PairAt(f: (nat, nat) -> nat, a1: bv8, a0: bv8, b1: bv8, b0: bv8)
    requires XorLike(f)
    ensures f(Pair(a1, a0), Pair(b1, b0)) == Pair(a1 ^ b1, a0 ^ b0)
  {
    BytesAt(f, a1, a0, b1, b0, a1 as nat, a0 as nat, b1 as nat, b0 as nat);
  }

  lemma BytesAt(f: (nat, nat) -> nat, a1: bv8, a0: bv8, b1: bv8, b0: bv8, m1: nat, m0: nat, n1: nat, n0: nat)
    requires XorLike(f) && m1 == a1 as nat && m0 == a0 as nat && n1 == b1 as nat && n0 == b0 as nat
    ensures f(m0 + 0x100 * m1, n0 + 0x100 * n1) == (a0 ^ b0) as nat + 0x100 * ((a1 ^ b1) as nat)
  {
    ByteAt(f, a0, b0);
    ByteAt(f, a1, b1);
    PairOf(f, m1, m0, n1, n0, f(m1, n1), f(m0, n0));
  }

  lemma WordAt(f: (nat, nat) -> nat, a3: bv8, a2: bv8, a1: bv8, a0: bv8, b3: bv8, b2: bv8, b1: bv8, b0: bv8)
    requires XorLike(f)
    ensures f(Word(a3, a2, a1, a0), Word(b3, b2, b1, b0)) == Word(a3 ^ b3, a2 ^ b2, a1 ^ b1, a0 ^ b0)
  {
    Powers();
    PairAt(f, a1, a0, b1, b0);
    PairAt(f, a3, a2, b3, b2);
    SplitAt(f, Pair(a1, a0), Pair(a3, a2), Pair(b1, b0), Pair(b3, b2), 16, 0x1_0000);
  }

  lemma LongAt(f: (nat, nat) -> nat, a7: bv8, a6: bv8, a5: bv8, a4: bv8, a3: bv8, a2: bv8, a1: bv8, a0: bv8,
               b7: bv8, b6: bv8, b5: bv8, b4: bv8, b3: bv8, b2: bv8, b1: bv8, b0: bv8)
    requires XorLike(f)
    ensures f(Long(a7, a6, a5, a4, a3, a2, a1, a0), Long(b7, b6, b5, b4, b3, b2, b1, b0))
         == Long(a7 ^ b7, a6 ^ b6, a5 ^ b5, a4 ^ b4, a3 ^ b3, a2 ^ b2, a1 ^ b1, a0 ^ b0)
  {
    Powers();
    var x0, x1, y0, y1 := Word(a3, a2, a1, a0), Word(a7, a6, a5, a4), Word(b3, b2, b1, b0), Word(b7, b6, b5, b4);
    WordAt(f, a3, a2, a1, a0, b3, b2, b1, b0);
    WordAt(f, a7, a6, a5, a4, b7, b6, b5, b4);
    SplitAt(f, x0, x1, y0, y1, 32, 0x1_0000_0000);
  }
}
