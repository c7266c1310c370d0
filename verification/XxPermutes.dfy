/** No step of XXH32 and XXH64 loses information: for fixed data each lane step and each mixing step is
    a permutation of the words, and so is the avalanche. */
module XxPermutes {
  import opened Bits
  import opened Common
  import opened Modular
  import opened PcgNumbers
  import opened XxHash
  import opened XxLaws

  /** A permutation of the numbers below `m`. */
  ghost predicate Permutes(f: nat -> nat, m: nat)
  {
    && (forall x: nat :: x < m ==> f(x) < m)
    && (forall x: nat, y: nat :: x < m && y < m && f(x) == f(y) ==> x == y)
    && (forall y: nat :: y < m ==> Reached(f, m, y))
  }

  ghost predicate Reached(f: nat -> nat, m: nat, y: nat)
  {
    exists x: nat :: x < m && f(x) == y
  }

  // -------------------------------------------------------------------------
  // Injective is enough
  // -------------------------------------------------------------------------

  ghost function Image(f: nat -> nat, n: nat): set<nat>
  {
    set x: nat | x < n :: f(x)
  }

  lemma {:induction false} ImageSize(f: nat -> nat, n: nat)
    requires forall x: nat, y: nat :: x < n && y < n && f(x) == f(y) ==> x == y
    ensures |Image(f, n)| == n
  {
    if n == 0 {
      assert Image(f, 0) == {};
    } else {
      ImageSize(f, n - 1);
      assert Image(f, n) == Image(f, n - 1) + {f(n - 1)};
      assert f(n - 1) !in Image(f, n - 1);
    }
  }

  ghost function Below(m: nat): set<nat>
  {
    Image(Itself, m)
  }

  function Itself(x: nat): nat { x }

  lemma {:induction false} BelowSize(m: nat)
    ensures |Below(m)| == m
  {
    if m == 0 {
      assert Below(0) == {};
    } else {
      BelowSize(m - 1);
      assert Below(m) == Below(m - 1) + {Itself(m - 1)};
      assert Itself(m - 1) !in Below(m - 1);
    }
  }

  lemma SubsetOfSize<T>(a: set<T>, b: set<T>)
    requires a <= b && |a| == |b|
    ensures a == b
  {
    if a != b {
      var x :| x in b && x !in a;
      SubsetSize(a, b - {x});
      assert false;
    }
  }

  lemma {:induction false} SubsetSize<T>(a: set<T>, b: set<T>)
    requires a <= b
    ensures |a| <= |b|
  {
    if a != {} {
      var x :| x in a;
      SubsetSize(a - {x}, b - {x});
    }
  }

  lemma InjectivePermutes(f: nat -> nat, m: nat)
    requires forall x: nat :: x < m ==> f(x) < m
    requires forall x: nat, y: nat :: x < m && y < m && f(x) == f(y) ==> x == y
    ensures Permutes(f, m)
  {
    BelowSize(m);
    ImageSize(f, m);
    forall y | y in Image(f, m) ensures y in Below(m) { assert y == Itself(y); }
    SubsetOfSize(Image(f, m), Below(m));
    forall y: nat | y < m ensures Reached(f, m, y) {
      ImageReached(f, m, y);
    }
  }

  lemma ImageReached(f: nat -> nat, m: nat, y: nat)
    requires y < m && Image(f, m) == Below(m)
    ensures Reached(f, m, y)
  {
    assert Itself(y) in Below(m);
  }

  // -------------------------------------------------------------------------
  // The operations the steps are made of
  // -------------------------------------------------------------------------

  lemma AddInjective(x: nat, y: nat, c: nat, m: nat)
    requires x < m && y < m && (x + c) % m == (y + c) % m
    ensures x == y
  {
    var back: int := 0 - c;
    AddCong(x + c, y + c, back, back, m);
    assert Cong(x, y, m);
    DivModUnique(x, m, 0, x);
    DivModUnique(y, m, 0, y);
  }

  /** An odd factor can be cancelled modulo a power of two. */
  lemma {:induction false} OddCancels(d: int, k: nat, w: nat)
    requires k % 2 == 1 && (d * k) % Pow2(w) == 0
    ensures d % Pow2(w) == 0
    decreases w
  {
    if w > 0 {
      var p := Pow2(w - 1);
      var q := (d * k) / (2 * p);
      assert d * k == q * (2 * p);
      EvenFactor(d, k, q * p);
      var h := d / 2;
      HalfProductOf(h, k, q, p);
      DivModUnique(h * k, p, q, 0);
      OddCancels(h, k, w - 1);
      var j := h / p;
      assert h == j * p && d == 2 * h == j * (2 * p);
      DivModUnique(d, 2 * p, j, 0);
    }
  }

  lemma EvenFactor(d: int, k: nat, e: int)
    requires k % 2 == 1 && d * k == 2 * e
    ensures d == 2 * (d / 2)
  {
    var h := k / 2;
    assert d * k == d * (2 * h + 1) == 2 * (d * h) + d;
    assert d == 2 * (e - d * h);
  }

  lemma HalfProductOf(h: int, k: nat, q: int, p: nat)
    requires (2 * h) * k == q * (2 * p)
    ensures h * k == q * p
  {
    assert (2 * h) * k == 2 * (h * k);
    assert q * (2 * p) == 2 * (q * p);
  }

  lemma TimesInjective(x: nat, y: nat, k: nat, w: nat)
    requires x < Pow2(w) && y < Pow2(w) && k % 2 == 1 && (x * k) % Pow2(w) == (y * k) % Pow2(w)
    ensures x == y
  {
    CongIff(x * k, y * k, Pow2(w));
    assert x * k - y * k == (x - y) * k;
    OddCancels(x - y, k, w);
    CongIff(x, y, Pow2(w));
    DivModUnique(x, Pow2(w), 0, x);
    DivModUnique(y, Pow2(w), 0, y);
  }

  lemma RotlInjective(x: nat, y: nat, r: nat, w: nat)
    requires r <= w && x < Pow2(w) && y < Pow2(w) && Rotl(x, r, w, Pow2(w)) == Rotl(y, r, w, Pow2(w))
    ensures x == y
  {
    var p, q := Pow2(r), Pow2(w - r);
    RotlSwaps(x, r, w, p, q, Pow2(w));
    RotlSwaps(y, r, w, p, q, Pow2(w));
    TurnInjective(x, y, p, q);
  }

  lemma TurnInjective(x: nat, y: nat, p: nat, q: nat)
    requires p > 0 && q > 0 && x / q < p && y / q < p && Turn(x, p, q) == Turn(y, p, q)
    ensures x == y
  {
    DivModUnique(Turn(x, p, q), p, x % q, x / q);
    DivModUnique(Turn(y, p, q), p, y % q, y / q);
  }

  lemma RotlBelow(x: nat, r: nat, w: nat)
    requires r <= w && x < Pow2(w)
    ensures Rotl(x, r, w, Pow2(w)) < Pow2(w)
  {
    var p, q := Pow2(r), Pow2(w - r);
    RotlSwaps(x, r, w, p, q, Pow2(w));
    RotBelow(x / q, x % q, p, q);
  }

  lemma {:induction false} XorBelow(x: nat, y: nat, w: nat)
    requires x < Pow2(w) && y < Pow2(w)
    ensures Xor(x, y) < Pow2(w)
  {
    if w > 0 && x > 0 && y > 0 {
      XorBelow(x / 2, y / 2, w - 1);
    }
  }

  lemma {:induction false} XorUndone(x: nat, y: nat)
    ensures Xor(Xor(x, y), y) == x
    decreases x + y
  {
    if x > 0 && y > 0 {
      XorUndone(x / 2, y / 2);
      XorStep(x, y);
      XorStep(Xor(x, y), y);
    } else if x == 0 && y > 0 {
      XorSelf(y);
    }
  }

  /** The low bit and the rest of an exclusive or. */
  lemma XorStep(x: nat, y: nat)
    ensures Xor(x, y) % 2 == (if x % 2 != y % 2 then 1 else 0) && Xor(x, y) / 2 == Xor(x / 2, y / 2)
  {
    if x > 0 && y > 0 {
      LowBit(if x % 2 != y % 2 then 1 else 0, Xor(x / 2, y / 2));
    }
  }

  lemma LowBit(b: nat, z: nat)
    requires b < 2
    ensures (b + 2 * z) % 2 == b && (b + 2 * z) / 2 == z
  {
  }

  lemma {:induction false} XorSelf(y: nat)
    ensures Xor(y, y) == 0
  {
    if y > 0 { XorSelf(y / 2); }
  }

  lemma XorInjective(x: nat, y: nat, c: nat)
    requires Xor(x, c) == Xor(y, c)
    ensures x == y
  {
    XorUndone(x, c);
    XorUndone(y, c);
  }

  /** `x ^ (x >> s)` loses nothing: `unxorshift` finds `x` again. */
  lemma XorshiftInjective(x: nat, y: nat, s: nat, w: nat)
    requires 1 <= s && x < Pow2(w) && y < Pow2(w) && Xor(x, Quotient(x, Pow2(s))) == Xor(y, Quotient(y, Pow2(s)))
    ensures x == y
  {
    UnxorshiftNumbers(x, w, w, s);
    UnxorshiftNumbers(y, w, w, s);
  }

  // -------------------------------------------------------------------------
  // The steps
  // -------------------------------------------------------------------------

  /** Add, turn, multiply: the lane step and most mixing steps. */
  function AddTurn(x: nat, c: nat, r: nat, w: nat, k: nat): nat
    requires r <= w
  {
    Rotl((x + c) % Pow2(w), r, w, Pow2(w)) * k % Pow2(w)
  }

  /** Exclusive or, turn, multiply and add: the mixing steps of XXH64. */
  function XorTurn(x: nat, c: nat, r: nat, w: nat, k: nat, e: nat): nat
    requires r <= w
  {
    (Rotl(Xor(x, c), r, w, Pow2(w)) * k + e) % Pow2(w)
  }

  lemma AddTurnInjective(x: nat, y: nat, c: nat, r: nat, w: nat, k: nat)
    requires r <= w && x < Pow2(w) && y < Pow2(w) && k % 2 == 1 && AddTurn(x, c, r, w, k) == AddTurn(y, c, r, w, k)
    ensures x == y
  {
    var a, b := (x + c) % Pow2(w), (y + c) % Pow2(w);
    RotlBelow(a, r, w);
    RotlBelow(b, r, w);
    TimesInjective(Rotl(a, r, w, Pow2(w)), Rotl(b, r, w, Pow2(w)), k, w);
    RotlInjective(a, b, r, w);
    AddInjective(x, y, c, Pow2(w));
  }

  lemma XorTurnInjective(x: nat, y: nat, c: nat, r: nat, w: nat, k: nat, e: nat)
    requires r <= w && x < Pow2(w) && y < Pow2(w) && c < Pow2(w) && k % 2 == 1
    requires XorTurn(x, c, r, w, k, e) == XorTurn(y, c, r, w, k, e)
    ensures x == y
  {
    var a, b := Xor(x, c), Xor(y, c);
    XorBelow(x, c, w);
    XorBelow(y, c, w);
    RotlBelow(a, r, w);
    RotlBelow(b, r, w);
    TimesAddInjective(Rotl(a, r, w, Pow2(w)), Rotl(b, r, w, Pow2(w)), k, e, w);
    RotlInjective(a, b, r, w);
    XorInjective(x, y, c);
  }

  lemma TimesAddInjective(x: nat, y: nat, k: nat, e: nat, w: nat)
    requires x < Pow2(w) && y < Pow2(w) && k % 2 == 1 && (x * k + e) % Pow2(w) == (y * k + e) % Pow2(w)
    ensures x == y
  {
    var back: int := 0 - e;
    AddCong(x * k + e, y * k + e, back, back, Pow2(w));
    assert Cong(x * k, y * k, Pow2(w));
    TimesInjective(x, y, k, w);
  }

  /** The shape of both avalanches: shift, multiply, shift, multiply, shift. */
  function Avalanche(x: nat, s1: nat, k1: nat, s2: nat, k2: nat, s3: nat, w: nat): nat
  {
    Shift(Shift(Shift(x, s1) * k1 % Pow2(w), s2) * k2 % Pow2(w), s3)
  }

  function Shift(x: nat, s: nat): nat { Xor(x, Quotient(x, Pow2(s))) }

  lemma ShiftBelow(x: nat, s: nat, w: nat)
    requires x < Pow2(w)
    ensures Shift(x, s) < Pow2(w)
  {
    QuotientLess(x, Pow2(s));
    XorBelow(x, Quotient(x, Pow2(s)), w);
  }

  lemma QuotientLess(x: nat, p: nat)
    requires p > 0
    ensures Quotient(x, p) <= x
  {
    assert x == (x / p) * p + x % p;
    TimesAtLeast(x / p, p);
  }

  lemma TimesAtLeast(q: nat, p: nat)
    requires p > 0
    ensures q * p >= q
  {
    assert q * p == q + q * (p - 1);
  }

  lemma AvalancheInjective(x: nat, y: nat, s1: nat, k1: nat, s2: nat, k2: nat, s3: nat, w: nat)
    requires x < Pow2(w) && y < Pow2(w) && k1 % 2 == 1 && k2 % 2 == 1 && 1 <= s1 && 1 <= s2 && 1 <= s3
    requires Avalanche(x, s1, k1, s2, k2, s3, w) == Avalanche(y, s1, k1, s2, k2, s3, w)
    ensures x == y
  {
    var a, b := Shift(x, s1), Shift(y, s1);
    var a', b' := a * k1 % Pow2(w), b * k1 % Pow2(w);
    var c, d := Shift(a', s2), Shift(b', s2);
    var c', d' := c * k2 % Pow2(w), d * k2 % Pow2(w);
    ShiftBelow(x, s1, w);
    ShiftBelow(y, s1, w);
    ShiftBelow(a', s2, w);
    ShiftBelow(b', s2, w);
    XorshiftInjective(c', d', s3, w);
    TimesInjective(c, d, k2, w);
    XorshiftInjective(a', b', s2, w);
    TimesInjective(a, b, k1, w);
    XorshiftInjective(x, y, s1, w);
  }

  lemma AddTurnPermutes(f: nat -> nat, c: nat, r: nat, w: nat, k: nat)
    requires r <= w && k % 2 == 1 && forall x: nat :: x < Pow2(w) ==> f(x) == AddTurn(x, c, r, w, k)
    ensures Permutes(f, Pow2(w))
  {
    forall x: nat, y: nat | x < Pow2(w) && y < Pow2(w) && f(x) == f(y) ensures x == y {
      AddTurnInjective(x, y, c, r, w, k);
    }
    InjectivePermutes(f, Pow2(w));
  }

  lemma XorTurnPermutes(f: nat -> nat, c: nat, r: nat, w: nat, k: nat, e: nat)
    requires r <= w && k % 2 == 1 && c < Pow2(w)
    requires forall x: nat :: x < Pow2(w) ==> f(x) == XorTurn(x, c, r, w, k, e)
    ensures Permutes(f, Pow2(w))
  {
    forall x: nat, y: nat | x < Pow2(w) && y < Pow2(w) && f(x) == f(y) ensures x == y {
      XorTurnInjective(x, y, c, r, w, k, e);
    }
    InjectivePermutes(f, Pow2(w));
  }

  lemma AvalanchePermutes(f: nat -> nat, s1: nat, k1: nat, s2: nat, k2: nat, s3: nat, w: nat)
    requires k1 % 2 == 1 && k2 % 2 == 1 && 1 <= s1 && 1 <= s2 && 1 <= s3
    requires forall x: nat :: x < Pow2(w) ==> f(x) == Avalanche(x, s1, k1, s2, k2, s3, w)
    ensures Permutes(f, Pow2(w))
  {
    forall x: nat | x < Pow2(w) ensures f(x) < Pow2(w) {
      ShiftBelow(Shift(Shift(x, s1) * k1 % Pow2(w), s2) * k2 % Pow2(w), s3, w);
    }
    forall x: nat, y: nat | x < Pow2(w) && y < Pow2(w) && f(x) == f(y) ensures x == y {
      AvalancheInjective(x, y, s1, k1, s2, k2, s3, w);
    }
    InjectivePermutes(f, Pow2(w));
  }

  /** XXH32: for every data word the lane step, for every word and byte the mixing steps, and the
      avalanche are permutations of the 32-bit words. */
  lemma Steps32Permute(k: nat, word: seq<Byte>, b: Byte)
    ensures Permutes(v => Lane32(v, k), M32)
    ensures Permutes(h => MixWord32(h, word), M32) && Permutes(h => MixByte32(h, b), M32)
    ensures Permutes(Avalanche32, M32)
  {
    Lane32Permutes(k);
    Word32Permutes(word);
    Byte32Permutes(b);
    Avalanche32Permutes();
  }

  lemma Lane32Permutes(k: nat)
    ensures Permutes(v => Lane32(v, k), M32)
  {
    Pow2Values();
    AddTurnPermutes(v => Lane32(v, k), k * PRIME32_2, 13, 32, PRIME32_1);
  }

  lemma Word32Permutes(word: seq<Byte>)
    ensures Permutes(h => MixWord32(h, word), M32)
  {
    Pow2Values();
    AddTurnPermutes(h => MixWord32(h, word), ReadLE(word, 0, 4) * PRIME32_3, 17, 32, PRIME32_4);
  }

  lemma Byte32Permutes(b: Byte)
    ensures Permutes(h => MixByte32(h, b), M32)
  {
    Pow2Values();
    AddTurnPermutes(h => MixByte32(h, b), b * PRIME32_5, 11, 32, PRIME32_1);
  }

  lemma Avalanche32Permutes()
    ensures Permutes(Avalanche32, M32)
  {
    Pow2Values();
    assert Pow2(15) == 0x8000 && Pow2(13) == 0x2000;
    AvalanchePermutes(Avalanche32, 15, PRIME32_2, 13, PRIME32_3, 16, 32);
  }

  /** XXH64: the same, with the mixing step for four bytes. */
  lemma Steps64Permute(k: nat, word: seq<Byte>, b: Byte)
    ensures Permutes(v => Lane64(v, k), M64)
    ensures Permutes(h => MixWord64(h, word), M64) && Permutes(h => MixHalf64(h, word), M64)
    ensures Permutes(h => MixByte64(h, b), M64)
    ensures Permutes(Avalanche64, M64)
  {
    Lane64Permutes(k);
    Word64Permutes(word);
    Half64Permutes(word);
    Byte64Permutes(b);
    Avalanche64Permutes();
  }

  lemma Lane64Permutes(k: nat)
    ensures Permutes(v => Lane64(v, k), M64)
  {
    Pow2Values();
    AddTurnPermutes(v => Lane64(v, k), k * PRIME64_2, 31, 64, PRIME64_1);
  }

  lemma Word64Permutes(word: seq<Byte>)
    ensures Permutes(h => MixWord64(h, word), M64)
  {
    Pow2Values();
    XorTurnPermutes(h => MixWord64(h, word), Lane64(0, ReadLE(word, 0, 8)), 27, 64, PRIME64_1, PRIME64_4);
  }

  lemma Half64Permutes(word: seq<Byte>)
    ensures Permutes(h => MixHalf64(h, word), M64)
  {
    Pow2Values();
    XorTurnPermutes(h => MixHalf64(h, word), ReadLE(word, 0, 4) * PRIME64_1 % M64, 23, 64, PRIME64_2, PRIME64_3);
  }

  lemma Byte64Permutes(b: Byte)
    ensures Permutes(h => MixByte64(h, b), M64)
  {
    Pow2Values();
    XorTurnPermutes(h => MixByte64(h, b), b * PRIME64_5 % M64, 11, 64, PRIME64_1, 0);
  }

  lemma Avalanche64Permutes()
    ensures Permutes(Avalanche64, M64)
  {
    Pow2Values();
    Pow2Add(29, 3);
    assert Pow2(33) == 0x2_0000_0000 && Pow2(29) == 0x2000_0000;
    AvalanchePermutes(Avalanche64, 33, PRIME64_2, 29, PRIME64_3, 32, 64);
  }
}
