/** XXH32 and XXH64 once more, as plain arithmetic with every constant written out: a rotation swaps the
    two parts of a number, and exclusive or is a parameter. Both agree with the hashes on every message. */
module XxReference {
  import opened Bits
  import opened Common
  import opened XxStream
  import opened XxHash
  import opened XxLaws
  import opened XxPermutes
  import opened XxXor

  type Op = (nat, nat) -> nat

  // -------------------------------------------------------------------------
  // Two algorithms that take the same steps
  // -------------------------------------------------------------------------

  /** The same lengths, and the same steps on words below `m`. */
  ghost predicate Agree<L(!new)>(a: Algorithm<L>, b: Algorithm<L>, ok: L -> bool, m: nat)
  {
    && a.Ok() && b.Ok() && a.block == b.block && a.word == b.word && a.half == b.half
    && (forall seed :: a.start(seed) == b.start(seed) && ok(a.start(seed)))
    && (forall l, s :: ok(l) ==> a.round(l, s) == b.round(l, s) && ok(a.round(l, s)))
    && (forall l :: ok(l) ==> a.merge(l) == b.merge(l))
    && (forall seed :: a.small(seed) == b.small(seed))
    && (forall h: nat, n: nat :: a.addLength(h, n) == b.addLength(h, n) < m)
    && (forall h: nat, s :: h < m ==> a.mixWord(h, s) == b.mixWord(h, s) < m)
    && (forall h: nat, s :: h < m ==> a.mixHalf(h, s) == b.mixHalf(h, s) < m)
    && (forall h: nat, x :: h < m ==> a.mixByte(h, x) == b.mixByte(h, x) < m)
    && (forall h: nat :: h < m ==> a.avalanche(h) == b.avalanche(h))
  }

  lemma {:induction false} SameBlocks<L(!new)>(a: Algorithm<L>, b: Algorithm<L>, ok: L -> bool,
                                               m: nat, l: L, s: seq<Byte>)
    requires Agree(a, b, ok, m) && ok(l)
    ensures a.Blocks(l, s) == b.Blocks(l, s) && ok(a.Blocks(l, s))
    decreases |s|
  {
    if |s| >= a.block {
      SameBlocks(a, b, ok, m, l, s[..|s| - a.block]);
    }
  }

  lemma {:induction false} SameTail<L(!new)>(a: Algorithm<L>, b: Algorithm<L>, ok: L -> bool,
                                             m: nat, h: nat, s: seq<Byte>)
    requires Agree(a, b, ok, m) && h < m
    ensures a.Tail(h, s) == b.Tail(h, s) < m
    decreases |s|
  {
    if |s| >= a.word {
      SameTail(a, b, ok, m, a.mixWord(h, s[..a.word]), s[a.word..]);
    } else if 0 < a.half <= |s| {
      SameBytes(a, b, ok, m, a.mixHalf(h, s[..a.half]), s[a.half..]);
    } else {
      SameBytes(a, b, ok, m, h, s);
    }
  }

  lemma {:induction false} SameBytes<L(!new)>(a: Algorithm<L>, b: Algorithm<L>, ok: L -> bool,
                                              m: nat, h: nat, s: seq<Byte>)
    requires Agree(a, b, ok, m) && h < m
    ensures a.TailBytes(h, s) == b.TailBytes(h, s) < m
    decreases |s|
  {
    if |s| > 0 {
      SameBytes(a, b, ok, m, a.mixByte(h, s[0]), s[1..]);
    }
  }

  lemma SameHash<L(!new)>(a: Algorithm<L>, b: Algorithm<L>, ok: L -> bool, m: nat, seed: nat, msg: seq<Byte>)
    requires Agree(a, b, ok, m)
    ensures a.Hash(seed, msg) == b.Hash(seed, msg)
  {
    ModLess(|msg|, a.block);
    var full := |msg| - |msg| % a.block;
    SameBlocks(a, b, ok, m, a.start(seed), msg[..full]);
    var l := a.Blocks(a.start(seed), msg[..full]);
    var h := if |msg| >= a.block then a.merge(l) else a.small(seed);
    SameTail(a, b, ok, m, a.addLength(h, |msg|), msg[full..]);
  }

  // -------------------------------------------------------------------------
  // XXH64
  // -------------------------------------------------------------------------

  function RStart64(seed: nat): Lanes
  {
    Lanes((seed + 6983438078262162902) % 0x1_0000_0000_0000_0000,
          (seed + 14029467366897019727) % 0x1_0000_0000_0000_0000,
          seed % 0x1_0000_0000_0000_0000,
          (seed + 7046029288634856825) % 0x1_0000_0000_0000_0000)
  }

  function RLane64(v: nat, k: nat): nat
  {
    Turn((v + k * 14029467366897019727) % 0x1_0000_0000_0000_0000, 0x8000_0000, 0x2_0000_0000)
    * 11400714785074694791 % 0x1_0000_0000_0000_0000
  }

  function RRound64(l: Lanes, b: seq<Byte>): Lanes
  {
    Lanes(RLane64(l.v1, ReadLE(b, 0, 8)), RLane64(l.v2, ReadLE(b, 8, 8)),
          RLane64(l.v3, ReadLE(b, 16, 8)), RLane64(l.v4, ReadLE(b, 24, 8)))
  }

  function RSum64(l: Lanes): nat
  {
    (Turn(l.v1, 2, 0x8000_0000_0000_0000) + Turn(l.v2, 0x80, 0x200_0000_0000_0000)
     + Turn(l.v3, 0x1000, 0x10_0000_0000_0000) + Turn(l.v4, 0x4_0000, 0x4000_0000_0000)) % 0x1_0000_0000_0000_0000
  }

  function RMergeLane64(f: Op, h: nat, v: nat): nat
  {
    (f(h, RLane64(0, v)) * 11400714785074694791 + 9650029242287828579) % 0x1_0000_0000_0000_0000
  }

  function RMerge64(f: Op, l: Lanes): nat
  {
    RMergeLane64(f, RMergeLane64(f, RMergeLane64(f, RMergeLane64(f, RSum64(l), l.v1), l.v2), l.v3), l.v4)
  }

  function RWord64(f: Op, h: nat, k: nat): nat
  {
    (Turn(f(h, RLane64(0, k)), 0x800_0000, 0x20_0000_0000) * 11400714785074694791 + 9650029242287828579)
    % 0x1_0000_0000_0000_0000
  }

  function RHalf64(f: Op, h: nat, k: nat): nat
  {
    (Turn(f(h, k * 11400714785074694791 % 0x1_0000_0000_0000_0000), 0x80_0000, 0x200_0000_0000)
     * 14029467366897019727 + 1609587929392839161) % 0x1_0000_0000_0000_0000
  }

  function RByte64(f: Op, h: nat, b: Byte): nat
  {
    Turn(f(h, b * 2870177450012600261 % 0x1_0000_0000_0000_0000), 0x800, 0x20_0000_0000_0000)
    * 11400714785074694791 % 0x1_0000_0000_0000_0000
  }

  function RAvalanche64(f: Op, h: nat): nat
  {
    var h1 := f(h, h / 0x2_0000_0000) * 14029467366897019727 % 0x1_0000_0000_0000_0000;
    var h2 := f(h1, h1 / 0x2000_0000) * 1609587929392839161 % 0x1_0000_0000_0000_0000;
    f(h2, h2 / 0x1_0000_0000)
  }

  function Reference64(f: Op): Algorithm<Lanes>
  {
    Algorithm(32, 8, 4, (seed: nat) => RStart64(seed), (l: Lanes, b: seq<Byte>) => RRound64(l, b),
              (l: Lanes) => RMerge64(f, l), (seed: nat) => (seed + 2870177450012600261) % 0x1_0000_0000_0000_0000,
              (h: nat, n: nat) => (h + n) % 0x1_0000_0000_0000_0000,
              (h: nat, b: seq<Byte>) => RWord64(f, h, ReadLE(b, 0, 8)),
              (h: nat, b: seq<Byte>) => RHalf64(f, h, ReadLE(b, 0, 4)),
              (h: nat, b: Byte) => RByte64(f, h, b), (h: nat) => RAvalanche64(f, h))
  }

  /** A rotation of 64 bits, with both powers of two written out. */
  lemma Turn64(x: nat, r: nat, p: nat, q: nat)
    requires r <= 64 && p == Pow2(r) && q > 0 && p * q == 0x1_0000_0000_0000_0000 && x < 0x1_0000_0000_0000_0000
    ensures Rotl(x, r, 64, M64) == Turn(x, p, q)
  {
    Long64(r, p, q);
    RotlSwaps(x, r, 64, p, q, M64);
  }

  lemma Long64(r: nat, p: nat, q: nat)
    requires r <= 64 && p == Pow2(r) && p * q == 0x1_0000_0000_0000_0000
    ensures q == Pow2(64 - r) && Pow2(64) == M64
  {
    Pow2Values();
    Pow2Add(r, 64 - r);
    SameFactor(p, q, Pow2(64 - r));
  }

  lemma SameFactor(p: nat, q: nat, r: nat)
    requires p > 0 && p * q == p * r
    ensures q == r
  {
    assert p * q - p * r == p * (q - r);
  }

  /** The powers of two of the rotations. */
  lemma TurnPowers()
    ensures Pow2(1) == 2 && Pow2(7) == 0x80 && Pow2(11) == 0x800 && Pow2(12) == 0x1000
    ensures Pow2(13) == 0x2000
    ensures Pow2(17) == 0x2_0000 && Pow2(18) == 0x4_0000 && Pow2(23) == 0x80_0000 && Pow2(27) == 0x800_0000
    ensures Pow2(31) == 0x8000_0000
  {
    Pow2Values();
    LowPowers();
    Pow2Add(16, 1);
    Pow2Add(16, 2);
    Pow2Add(16, 7);
    Pow2Add(16, 11);
  }

  lemma LowPowers()
    ensures Pow2(1) == 2 && Pow2(2) == 4 && Pow2(7) == 0x80 && Pow2(11) == 0x800 && Pow2(12) == 0x1000
    ensures Pow2(13) == 0x2000
  {
    Pow2Values();
    Pow2Add(8, 3);
  }

  lemma Lane64Agrees(v: nat, k: nat)
    ensures Lane64(v, k) == RLane64(v, k) < 0x1_0000_0000_0000_0000
  {
    var x := (v + k * PRIME64_2) % M64;
    TurnPowers();
    Turn64(x, 31, 0x8000_0000, 0x2_0000_0000);
  }

  predicate Words64(l: Lanes)
  {
    && l.v1 < 0x1_0000_0000_0000_0000 && l.v2 < 0x1_0000_0000_0000_0000
    && l.v3 < 0x1_0000_0000_0000_0000 && l.v4 < 0x1_0000_0000_0000_0000
  }

  lemma Start64Agrees(seed: nat)
    ensures Start64(seed) == RStart64(seed) && Words64(RStart64(seed))
  {
    DivModUnique(PRIME64_1 + PRIME64_2, M64, 1, 6983438078262162902);
    ModAddMul(seed + 6983438078262162902, 1, M64);
  }

  lemma Round64Agrees(l: Lanes, b: seq<Byte>)
    ensures Round64(l, b) == RRound64(l, b) && Words64(RRound64(l, b))
  {
    Lane64Agrees(l.v1, ReadLE(b, 0, 8));
    Lane64Agrees(l.v2, ReadLE(b, 8, 8));
    Lane64Agrees(l.v3, ReadLE(b, 16, 8));
    Lane64Agrees(l.v4, ReadLE(b, 24, 8));
  }

  lemma Sum64Agrees(l: Lanes)
    requires Words64(l)
    ensures Sum64(l) == RSum64(l) < 0x1_0000_0000_0000_0000
  {
    Turns64(l.v1, l.v2, l.v3, l.v4);
    var a, b, c, d := Turn(l.v1, 2, 0x8000_0000_0000_0000), Turn(l.v2, 0x80, 0x200_0000_0000_0000),
                      Turn(l.v3, 0x1000, 0x10_0000_0000_0000), Turn(l.v4, 0x4_0000, 0x4000_0000_0000);
    var z := (a + b + c + d) % 0x1_0000_0000_0000_0000;
    Sum64Of(l, a, b, c, d, z);
    Sum64At(l, a, b, c, d, z);
  }

  lemma Sum64Of(l: Lanes, a: nat, b: nat, c: nat, d: nat, z: nat)
    requires a == Rotl(l.v1, 1, 64, M64) && b == Rotl(l.v2, 7, 64, M64)
    requires c == Rotl(l.v3, 12, 64, M64) && d == Rotl(l.v4, 18, 64, M64)
    requires z == (a + b + c + d) % 0x1_0000_0000_0000_0000
    ensures Sum64(l) == z
  {
  }

  lemma Sum64At(l: Lanes, a: nat, b: nat, c: nat, d: nat, z: nat)
    requires a == Turn(l.v1, 2, 0x8000_0000_0000_0000) && b == Turn(l.v2, 0x80, 0x200_0000_0000_0000)
    requires c == Turn(l.v3, 0x1000, 0x10_0000_0000_0000) && d == Turn(l.v4, 0x4_0000, 0x4000_0000_0000)
    requires z == (a + b + c + d) % 0x1_0000_0000_0000_0000
    ensures RSum64(l) == z
  {
  }

  lemma Turns64(v1: nat, v2: nat, v3: nat, v4: nat)
    requires Words64(Lanes(v1, v2, v3, v4))
    ensures Rotl(v1, 1, 64, M64) == Turn(v1, 2, 0x8000_0000_0000_0000)
    ensures Rotl(v2, 7, 64, M64) == Turn(v2, 0x80, 0x200_0000_0000_0000)
    ensures Rotl(v3, 12, 64, M64) == Turn(v3, 0x1000, 0x10_0000_0000_0000)
    ensures Rotl(v4, 18, 64, M64) == Turn(v4, 0x4_0000, 0x4000_0000_0000)
  {
    TurnPowers();
    Turn64(v1, 1, 2, 0x8000_0000_0000_0000);
    Turn64(v2, 7, 0x80, 0x200_0000_0000_0000);
    Turn64(v3, 12, 0x1000, 0x10_0000_0000_0000);
    Turn64(v4, 18, 0x4_0000, 0x4000_0000_0000);
  }

  lemma MergeLane64Agrees(h: nat, v: nat)
    ensures MergeLane64(h, v) == RMergeLane64(Operator(), h, v)
  {
    Lane64Agrees(0, v);
    OperatorIs(h, RLane64(0, v));
  }

  lemma OperatorIs(x: nat, y: nat)
    ensures Operator()(x, y) == Xor(x, y)
  {
  }

  lemma Merge64Agrees(l: Lanes)
    requires Words64(l)
    ensures Merge64(l) == RMerge64(Operator(), l)
  {
    Sum64Agrees(l);
    Merged64Agrees(RSum64(l), l.v1, l.v2, l.v3, l.v4);
  }

  lemma Merged64Agrees(h: nat, v1: nat, v2: nat, v3: nat, v4: nat)
    ensures MergeLane64(MergeLane64(MergeLane64(MergeLane64(h, v1), v2), v3), v4)
         == RMergeLane64(Operator(), RMergeLane64(Operator(), RMergeLane64(Operator(),
              RMergeLane64(Operator(), h, v1), v2), v3), v4)
  {
    var h1 := MergeLane64(h, v1);
    var h2 := MergeLane64(h1, v2);
    var h3 := MergeLane64(h2, v3);
    MergeLane64Agrees(h, v1);
    MergeLane64Agrees(h1, v2);
    MergeLane64Agrees(h2, v3);
    MergeLane64Agrees(h3, v4);
  }

  lemma Below64(h: nat, a: nat)
    requires h < 0x1_0000_0000_0000_0000 && a < 0x1_0000_0000_0000_0000
    ensures Xor(h, a) < 0x1_0000_0000_0000_0000
  {
    Pow2Values();
    XorBelow(h, a, 64);
  }

  lemma Word64Agrees(h: nat, b: seq<Byte>)
    requires h < 0x1_0000_0000_0000_0000
    ensures MixWord64(h, b) == RWord64(Operator(), h, ReadLE(b, 0, 8)) < 0x1_0000_0000_0000_0000
  {
    Lane64Agrees(0, ReadLE(b, 0, 8));
    Word64Same(h, b, ReadLE(b, 0, 8), Lane64(0, ReadLE(b, 0, 8)));
  }

  lemma Word64Same(h: nat, b: seq<Byte>, k: nat, a: nat)
    requires h < 0x1_0000_0000_0000_0000 && a < 0x1_0000_0000_0000_0000
    requires k == ReadLE(b, 0, 8) && a == Lane64(0, k) && a == RLane64(0, k)
    ensures MixWord64(h, b) == RWord64(Operator(), h, k) < 0x1_0000_0000_0000_0000
  {
    var x := Xor(h, a);
    Turn27(h, a, x);
    OperatorIs(h, a);
    var t := Turn(x, 0x800_0000, 0x20_0000_0000);
    var z := (t * 11400714785074694791 + 9650029242287828579) % 0x1_0000_0000_0000_0000;
    Word64Of(h, b, a, x, t, z);
    Word64At(Operator(), h, k, a, x, z);
  }

  lemma Turn27(h: nat, a: nat, x: nat)
    requires h < 0x1_0000_0000_0000_0000 && a < 0x1_0000_0000_0000_0000 && x == Xor(h, a)
    ensures Rotl(x, 27, 64, M64) == Turn(x, 0x800_0000, 0x20_0000_0000)
  {
    Below64(h, a);
    TurnPowers();
    Turn64(x, 27, 0x800_0000, 0x20_0000_0000);
  }

  lemma Word64Of(h: nat, b: seq<Byte>, a: nat, x: nat, t: nat, z: nat)
    requires a == Lane64(0, ReadLE(b, 0, 8)) && x == Xor(h, a) && t == Rotl(x, 27, 64, M64)
    requires z == (t * 11400714785074694791 + 9650029242287828579) % 0x1_0000_0000_0000_0000
    ensures MixWord64(h, b) == z
  {
  }

  lemma Word64At(f: Op, h: nat, k: nat, a: nat, x: nat, z: nat)
    requires RLane64(0, k) == a && f(h, a) == x
    requires z == (Turn(x, 0x800_0000, 0x20_0000_0000) * 11400714785074694791 + 9650029242287828579)
                  % 0x1_0000_0000_0000_0000
    ensures RWord64(f, h, k) == z
  {
  }

  lemma Half64Agrees(h: nat, b: seq<Byte>)
    requires h < 0x1_0000_0000_0000_0000
    ensures MixHalf64(h, b) == RHalf64(Operator(), h, ReadLE(b, 0, 4)) < 0x1_0000_0000_0000_0000
  {
    var a := ReadLE(b, 0, 4) * PRIME64_1 % M64;
    Below64(h, a);
    TurnPowers();
    Turn64(Xor(h, a), 23, 0x80_0000, 0x200_0000_0000);
  }

  lemma Byte64Agrees(h: nat, b: Byte)
    requires h < 0x1_0000_0000_0000_0000
    ensures MixByte64(h, b) == RByte64(Operator(), h, b) < 0x1_0000_0000_0000_0000
  {
    var a := b * PRIME64_5 % M64;
    Below64(h, a);
    TurnPowers();
    Turn64(Xor(h, a), 11, 0x800, 0x20_0000_0000_0000);
  }

  lemma Avalanche64Agrees(h: nat)
    ensures Avalanche64(h) == RAvalanche64(Operator(), h)
  {
  }

  lemma Small64Agrees(seed: nat, h: nat, n: nat)
    ensures Small64(seed) == (seed + 2870177450012600261) % 0x1_0000_0000_0000_0000
    ensures AddLength64(h, n) == (h + n) % 0x1_0000_0000_0000_0000
  {
    var q := n / M64;
    assert n == q * M64 + n % M64;
    ModAddMul(h + n % M64, q, M64);
  }

  lemma Steps64Agree()
    ensures Agree(Algorithm64(), Reference64(Operator()), Words64, 0x1_0000_0000_0000_0000)
  {
    var a, b := Algorithm64(), Reference64(Operator());
    forall seed ensures a.start(seed) == b.start(seed) && Words64(a.start(seed)) { Start64Agrees(seed); }
    forall l, s ensures a.round(l, s) == b.round(l, s) && Words64(a.round(l, s)) { Round64Agrees(l, s); }
    forall l | Words64(l) ensures a.merge(l) == b.merge(l) { Merge64Agrees(l); }
    forall seed ensures a.small(seed) == b.small(seed) { Small64Agrees(seed, 0, 0); }
    forall h: nat, n: nat ensures a.addLength(h, n) == b.addLength(h, n) { Small64Agrees(0, h, n); }
    Mixes64Agree();
    forall h: nat ensures a.avalanche(h) == b.avalanche(h) { Avalanche64Agrees(h); }
  }

  lemma Mixes64Agree()
    ensures var a, b, m := Algorithm64(), Reference64(Operator()), 0x1_0000_0000_0000_0000;
            && (forall h: nat, s :: h < m ==> a.mixWord(h, s) == b.mixWord(h, s) < m)
            && (forall h: nat, s :: h < m ==> a.mixHalf(h, s) == b.mixHalf(h, s) < m)
            && (forall h: nat, x :: h < m ==> a.mixByte(h, x) == b.mixByte(h, x) < m)
  {
    var a, b, m := Algorithm64(), Reference64(Operator()), 0x1_0000_0000_0000_0000;
    forall h: nat, s | h < m ensures a.mixWord(h, s) == b.mixWord(h, s) < m { Word64Agrees(h, s); }
    forall h: nat, s | h < m ensures a.mixHalf(h, s) == b.mixHalf(h, s) < m { Half64Agrees(h, s); }
    forall h: nat, x | h < m ensures a.mixByte(h, x) == b.mixByte(h, x) < m { Byte64Agrees(h, x); }
  }

  /** XXH64 is the plain arithmetic, for every seed and message. */
  lemma Xxh64Agrees(seed: nat, msg: seq<Byte>)
    ensures Algorithm64().Hash(seed, msg) == Reference64(Operator()).Hash(seed, msg)
  {
    Steps64Agree();
    SameHash(Algorithm64(), Reference64(Operator()), Words64, 0x1_0000_0000_0000_0000, seed, msg);
  }

  // -------------------------------------------------------------------------
  // XXH32
  // -------------------------------------------------------------------------

  function RStart32(seed: nat): Lanes
  {
    Lanes((seed + 606290984) % 0x1_0000_0000, (seed + 2246822519) % 0x1_0000_0000,
          seed % 0x1_0000_0000, (seed + 1640531535) % 0x1_0000_0000)
  }

  function RLane32(v: nat, k: nat): nat
  {
    Turn((v + k * 2246822519) % 0x1_0000_0000, 0x2000, 0x8_0000) * 2654435761 % 0x1_0000_0000
  }

  function RRound32(l: Lanes, b: seq<Byte>): Lanes
  {
    Lanes(RLane32(l.v1, ReadLE(b, 0, 4)), RLane32(l.v2, ReadLE(b, 4, 4)),
          RLane32(l.v3, ReadLE(b, 8, 4)), RLane32(l.v4, ReadLE(b, 12, 4)))
  }

  function RSum32(l: Lanes): nat
  {
    (Turn(l.v1, 2, 0x8000_0000) + Turn(l.v2, 0x80, 0x200_0000)
     + Turn(l.v3, 0x1000, 0x10_0000) + Turn(l.v4, 0x4_0000, 0x4000)) % 0x1_0000_0000
  }

  function RWord32(h: nat, k: nat): nat
  {
    Turn((h + k * 3266489917) % 0x1_0000_0000, 0x2_0000, 0x8000) * 668265263 % 0x1_0000_0000
  }

  function RByte32(h: nat, b: Byte): nat
  {
    Turn((h + b * 374761393) % 0x1_0000_0000, 0x800, 0x20_0000) * 2654435761 % 0x1_0000_0000
  }

  function RAvalanche32(f: Op, h: nat): nat
  {
    var h1 := f(h, h / 0x8000) * 2246822519 % 0x1_0000_0000;
    var h2 := f(h1, h1 / 0x2000) * 3266489917 % 0x1_0000_0000;
    f(h2, h2 / 0x1_0000)
  }

  function Reference32(f: Op): Algorithm<Lanes>
  {
    Algorithm(16, 4, 0, (seed: nat) => RStart32(seed), (l: Lanes, b: seq<Byte>) => RRound32(l, b),
              (l: Lanes) => RSum32(l), (seed: nat) => (seed + 374761393) % 0x1_0000_0000,
              (h: nat, n: nat) => (h + n) % 0x1_0000_0000,
              (h: nat, b: seq<Byte>) => RWord32(h, ReadLE(b, 0, 4)), (h: nat, b: seq<Byte>) => h,
              (h: nat, b: Byte) => RByte32(h, b), (h: nat) => RAvalanche32(f, h))
  }

  /** A rotation of 32 bits, with both powers of two written out. */
  lemma Turn32(x: nat, r: nat, p: nat, q: nat)
    requires r <= 32 && p == Pow2(r) && q > 0 && p * q == 0x1_0000_0000 && x < 0x1_0000_0000
    ensures Rotl(x, r, 32, M32) == Turn(x, p, q)
  {
    Long32(r, p, q);
    RotlSwaps(x, r, 32, p, q, M32);
  }

  lemma Long32(r: nat, p: nat, q: nat)
    requires r <= 32 && p == Pow2(r) && p * q == 0x1_0000_0000
    ensures q == Pow2(32 - r) && Pow2(32) == M32
  {
    Pow2Values();
    Pow2Add(r, 32 - r);
    SameFactor(p, q, Pow2(32 - r));
  }

  predicate Words32(l: Lanes)
  {
    l.v1 < 0x1_0000_0000 && l.v2 < 0x1_0000_0000 && l.v3 < 0x1_0000_0000 && l.v4 < 0x1_0000_0000
  }

  lemma Start32Agrees(seed: nat)
    ensures Start32(seed) == RStart32(seed) && Words32(RStart32(seed))
  {
    DivModUnique(PRIME32_1 + PRIME32_2, M32, 1, 606290984);
    ModAddMul(seed + 606290984, 1, M32);
  }

  lemma Lane32Agrees(v: nat, k: nat)
    ensures Lane32(v, k) == RLane32(v, k) < 0x1_0000_0000
  {
    TurnPowers();
    Turn32((v + k * PRIME32_2) % M32, 13, 0x2000, 0x8_0000);
  }

  lemma Round32Agrees(l: Lanes, b: seq<Byte>)
    ensures Round32(l, b) == RRound32(l, b) && Words32(RRound32(l, b))
  {
    Lane32Agrees(l.v1, ReadLE(b, 0, 4));
    Lane32Agrees(l.v2, ReadLE(b, 4, 4));
    Lane32Agrees(l.v3, ReadLE(b, 8, 4));
    Lane32Agrees(l.v4, ReadLE(b, 12, 4));
  }

  lemma Merge32Agrees(l: Lanes)
    requires Words32(l)
    ensures Merge32(l) == RSum32(l)
  {
    Turns32(l.v1, l.v2, l.v3, l.v4);
    var a, b, c, d := Turn(l.v1, 2, 0x8000_0000), Turn(l.v2, 0x80, 0x200_0000),
                      Turn(l.v3, 0x1000, 0x10_0000), Turn(l.v4, 0x4_0000, 0x4000);
    var z := (a + b + c + d) % 0x1_0000_0000;
    Sum32Of(l, a, b, c, d, z);
    Sum32At(l, a, b, c, d, z);
  }

  lemma Sum32Of(l: Lanes, a: nat, b: nat, c: nat, d: nat, z: nat)
    requires a == Rotl(l.v1, 1, 32, M32) && b == Rotl(l.v2, 7, 32, M32)
    requires c == Rotl(l.v3, 12, 32, M32) && d == Rotl(l.v4, 18, 32, M32)
    requires z == (a + b + c + d) % 0x1_0000_0000
    ensures Merge32(l) == z
  {
  }

  lemma Sum32At(l: Lanes, a: nat, b: nat, c: nat, d: nat, z: nat)
    requires a == Turn(l.v1, 2, 0x8000_0000) && b == Turn(l.v2, 0x80, 0x200_0000)
    requires c == Turn(l.v3, 0x1000, 0x10_0000) && d == Turn(l.v4, 0x4_0000, 0x4000)
    requires z == (a + b + c + d) % 0x1_0000_0000
    ensures RSum32(l) == z
  {
  }

  lemma Turns32(v1: nat, v2: nat, v3: nat, v4: nat)
    requires Words32(Lanes(v1, v2, v3, v4))
    ensures Rotl(v1, 1, 32, M32) == Turn(v1, 2, 0x8000_0000)
    ensures Rotl(v2, 7, 32, M32) == Turn(v2, 0x80, 0x200_0000)
    ensures Rotl(v3, 12, 32, M32) == Turn(v3, 0x1000, 0x10_0000)
    ensures Rotl(v4, 18, 32, M32) == Turn(v4, 0x4_0000, 0x4000)
  {
    TurnPowers();
    Turn32(v1, 1, 2, 0x8000_0000);
    Turn32(v2, 7, 0x80, 0x200_0000);
    Turn32(v3, 12, 0x1000, 0x10_0000);
    Turn32(v4, 18, 0x4_0000, 0x4000);
  }

  lemma Word32Agrees(h: nat, b: seq<Byte>)
    ensures MixWord32(h, b) == RWord32(h, ReadLE(b, 0, 4)) < 0x1_0000_0000
  {
    TurnPowers();
    Turn32((h + ReadLE(b, 0, 4) * PRIME32_3) % M32, 17, 0x2_0000, 0x8000);
  }

  lemma Byte32Agrees(h: nat, b: Byte)
    ensures MixByte32(h, b) == RByte32(h, b) < 0x1_0000_0000
  {
    TurnPowers();
    Turn32((h + b * PRIME32_5) % M32, 11, 0x800, 0x20_0000);
  }

  lemma Avalanche32Agrees(h: nat)
    ensures Avalanche32(h) == RAvalanche32(Operator(), h)
  {
  }

  lemma Small32Agrees(seed: nat, h: nat, n: nat)
    ensures Small32(seed) == (seed + 374761393) % 0x1_0000_0000
    ensures AddLength32(h, n) == (h + n) % 0x1_0000_0000
  {
    var q := n / M32;
    assert n == q * M32 + n % M32;
    ModAddMul(h + n % M32, q, M32);
  }

  lemma Steps32Agree()
    ensures Agree(Algorithm32(), Reference32(Operator()), Words32, 0x1_0000_0000)
  {
    var a, b, m := Algorithm32(), Reference32(Operator()), 0x1_0000_0000;
    forall seed ensures a.start(seed) == b.start(seed) && Words32(a.start(seed)) { Start32Agrees(seed); }
    forall l, s ensures a.round(l, s) == b.round(l, s) && Words32(a.round(l, s)) { Round32Agrees(l, s); }
    forall l | Words32(l) ensures a.merge(l) == b.merge(l) { Merge32Agrees(l); }
    forall seed ensures a.small(seed) == b.small(seed) { Small32Agrees(seed, 0, 0); }
    forall h: nat, n: nat ensures a.addLength(h, n) == b.addLength(h, n) { Small32Agrees(0, h, n); }
    Mixes32Agree();
    forall h: nat ensures a.avalanche(h) == b.avalanche(h) { Avalanche32Agrees(h); }
  }

  lemma Mixes32Agree()
    ensures var a, b, m := Algorithm32(), Reference32(Operator()), 0x1_0000_0000;
            && (forall h: nat, s :: a.mixWord(h, s) == b.mixWord(h, s) < m)
            && (forall h: nat, s :: a.mixHalf(h, s) == b.mixHalf(h, s) == h)
            && (forall h: nat, x :: a.mixByte(h, x) == b.mixByte(h, x) < m)
  {
    var a, b, m := Algorithm32(), Reference32(Operator()), 0x1_0000_0000;
    forall h: nat, s ensures a.mixWord(h, s) == b.mixWord(h, s) < m { Word32Agrees(h, s); }
    forall h: nat, x ensures a.mixByte(h, x) == b.mixByte(h, x) < m { Byte32Agrees(h, x); }
  }

  /** XXH32 is the plain arithmetic, for every seed and message. */
  lemma Xxh32Agrees(seed: nat, msg: seq<Byte>)
    ensures Algorithm32().Hash(seed, msg) == Reference32(Operator()).Hash(seed, msg)
  {
    Steps32Agree();
    SameHash(Algorithm32(), Reference32(Operator()), Words32, 0x1_0000_0000, seed, msg);
  }
}
