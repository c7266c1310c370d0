/** Published values of XXH32 and XXH64, computed step by step on the plain arithmetic:
    the empty message, four bytes, fourteen bytes with a seed, and a text longer than a block. */
module XxVectors {
  import opened Bits
  import opened Common
  import opened XxStream
  import opened XxHash
  import opened XxLaws
  import opened XxXor
  import opened XxReference

  // -------------------------------------------------------------------------
  // Reading words
  // -------------------------------------------------------------------------

  function Little(a: int, b: int, c: int, d: int): int
  {
    a + 0x100 * b + 0x1_0000 * c + 0x100_0000 * d
  }

  lemma Read4(s: seq<Byte>, off: nat)
    requires off + 4 <= |s|
    ensures ReadLE(s, off, 4) == Little(s[off], s[off + 1], s[off + 2], s[off + 3])
  {
    assert ReadLE(s, off + 3, 1) == s[off + 3];
    assert ReadLE(s, off + 2, 2) == s[off + 2] + 256 * ReadLE(s, off + 3, 1);
  }

  lemma Read8(s: seq<Byte>, off: nat)
    requires off + 8 <= |s|
    ensures ReadLE(s, off, 8) == Little(s[off], s[off + 1], s[off + 2], s[off + 3])
                                 + 0x1_0000_0000 * Little(s[off + 4], s[off + 5], s[off + 6], s[off + 7])
  {
    Read4(s, off);
    Read4(s, off + 4);
    assert ReadLE(s, off + 3, 5) == s[off + 3] + 256 * ReadLE(s, off + 4, 4);
    assert ReadLE(s, off + 2, 6) == s[off + 2] + 256 * ReadLE(s, off + 3, 5);
    assert ReadLE(s, off + 1, 7) == s[off + 1] + 256 * ReadLE(s, off + 2, 6);
  }

  // -------------------------------------------------------------------------
  // One step, given the values on the way
  // -------------------------------------------------------------------------

  lemma WordXor(f: Op, x: nat, y: nat, z: nat, a3: bv8, a2: bv8, a1: bv8, a0: bv8, b3: bv8, b2: bv8, b1: bv8, b0: bv8)
    requires XorLike(f) && x == Word(a3, a2, a1, a0) && y == Word(b3, b2, b1, b0)
    requires z == Word(a3 ^ b3, a2 ^ b2, a1 ^ b1, a0 ^ b0)
    ensures f(x, y) == z
  {
    WordAt(f, a3, a2, a1, a0, b3, b2, b1, b0);
  }

  lemma LongXor(f: Op, x: nat, y: nat, z: nat, a7: bv8, a6: bv8, a5: bv8, a4: bv8, a3: bv8, a2: bv8, a1: bv8, a0: bv8,
                b7: bv8, b6: bv8, b5: bv8, b4: bv8, b3: bv8, b2: bv8, b1: bv8, b0: bv8)
    requires XorLike(f) && x == Long(a7, a6, a5, a4, a3, a2, a1, a0)
    requires y == Long(b7, b6, b5, b4, b3, b2, b1, b0)
    requires z == Long(a7 ^ b7, a6 ^ b6, a5 ^ b5, a4 ^ b4, a3 ^ b3, a2 ^ b2, a1 ^ b1, a0 ^ b0)
    ensures f(x, y) == z
  {
    LongAt(f, a7, a6, a5, a4, a3, a2, a1, a0, b7, b6, b5, b4, b3, b2, b1, b0);
  }

  lemma Lane64At(v: nat, k: nat, x: nat, z: nat)
    requires x == (v + k * 14029467366897019727) % 0x1_0000_0000_0000_0000
    requires z == Turn(x, 0x8000_0000, 0x2_0000_0000) * 11400714785074694791 % 0x1_0000_0000_0000_0000
    ensures RLane64(v, k) == z
  {
  }

  lemma MergeLane64At(f: Op, h: nat, v: nat, a: nat, x: nat, z: nat)
    requires RLane64(0, v) == a && f(h, a) == x
    requires z == (x * 11400714785074694791 + 9650029242287828579) % 0x1_0000_0000_0000_0000
    ensures RMergeLane64(f, h, v) == z
  {
  }

  lemma Half64At(f: Op, h: nat, k: nat, a: nat, x: nat, z: nat)
    requires a == k * 11400714785074694791 % 0x1_0000_0000_0000_0000 && f(h, a) == x
    requires z == (Turn(x, 0x80_0000, 0x200_0000_0000) * 14029467366897019727 + 1609587929392839161)
                  % 0x1_0000_0000_0000_0000
    ensures RHalf64(f, h, k) == z
  {
  }

  lemma Byte64At(f: Op, h: nat, b: Byte, a: nat, x: nat, z: nat)
    requires a == b * 2870177450012600261 % 0x1_0000_0000_0000_0000 && f(h, a) == x
    requires z == Turn(x, 0x800, 0x20_0000_0000_0000) * 11400714785074694791 % 0x1_0000_0000_0000_0000
    ensures RByte64(f, h, b) == z
  {
  }

  lemma Avalanche64At(f: Op, h: nat, a: nat, x: nat, h1: nat, b: nat, y: nat, h2: nat, c: nat, z: nat)
    requires a == h / 0x2_0000_0000 && f(h, a) == x && h1 == x * 14029467366897019727 % 0x1_0000_0000_0000_0000
    requires b == h1 / 0x2000_0000 && f(h1, b) == y && h2 == y * 1609587929392839161 % 0x1_0000_0000_0000_0000
    requires c == h2 / 0x1_0000_0000 && f(h2, c) == z
    ensures RAvalanche64(f, h) == z
  {
  }

  lemma Avalanche32At(f: Op, h: nat, a: nat, x: nat, h1: nat, b: nat, y: nat, h2: nat, c: nat, z: nat)
    requires a == h / 0x8000 && f(h, a) == x && h1 == x * 2246822519 % 0x1_0000_0000
    requires b == h1 / 0x2000 && f(h1, b) == y && h2 == y * 3266489917 % 0x1_0000_0000
    requires c == h2 / 0x1_0000 && f(h2, c) == z
    ensures RAvalanche32(f, h) == z
  {
  }

  /** Bytes appended after `k` pieces are one piece more. */
  lemma PiecesNext<A>(mix: (A, seq<Byte>) -> A, h: A, s: seq<Byte>, w: nat, k: nat, b: seq<Byte>)
    requires |s| == k * w && |b| == w && (k + 1) * w == |s| + w
    ensures Pieces(mix, h, s + b, w, k + 1) == mix(Pieces(mix, h, s, w, k), b)
  {
    PiecesPrefix(mix, h, s, s + b, w, k);
    assert (s + b)[k * w..(k + 1) * w] == b;
  }

  lemma OnePiece<A>(mix: (A, seq<Byte>) -> A, h: A, b: seq<Byte>, w: nat)
    requires |b| == w
    ensures Pieces(mix, h, b, w, 1) == mix(h, b)
  {
    PiecesNext(mix, h, [], w, 0, b);
    assert [] + b == b;
  }

  lemma TwoSingles(mix: (nat, Byte) -> nat, h: nat, s: seq<Byte>)
    requires |s| == 2
    ensures Singles(mix, h, s) == mix(mix(h, s[0]), s[1])
  {
    assert s[..1] == [s[0]] && [s[0]][..0] == [];
    assert Singles(mix, h, [s[0]]) == mix(Singles(mix, h, []), s[0]);
  }

  lemma ThreeSingles(mix: (nat, Byte) -> nat, h: nat, s: seq<Byte>, a: nat, b: nat, z: nat)
    requires |s| == 3 && mix(h, s[0]) == a && mix(a, s[1]) == b && mix(b, s[2]) == z
    ensures Singles(mix, h, s) == z
  {
    assert s[..2][..1] == [s[0]] && s[..2][1] == s[1];
    assert Singles(mix, h, [s[0]]) == mix(Singles(mix, h, []), s[0]);
    assert Singles(mix, h, s[..2]) == mix(Singles(mix, h, [s[0]]), s[1]);
  }

  /** The hash from the results of its steps. */
  lemma HashFrom<L>(a: Algorithm<L>, seed: nat, c: Cut, h0: nat, h1: nat, h2: nat, h3: nat, h4: nat, z: nat)
    requires a.Ok() && c.For(a)
    requires h0 == if c.r > 0 then a.merge(Pieces(a.round, a.start(seed), c.blocks, a.block, c.r)) else a.small(seed)
    requires a.addLength(h0, |c.Message()|) == h1 && Pieces(a.mixWord, h1, c.words, a.word, c.k) == h2
    requires h3 == if c.half == [] then h2 else a.mixHalf(h2, c.half)
    requires Singles(a.mixByte, h3, c.singles) == h4 && a.avalanche(h4) == z
    ensures a.Hash(seed, c.Message()) == z
  {
    HashStepwise(a, seed, c);
  }

  /** The same for one word, one half word and some bytes. */
  lemma HashShort<L>(a: Algorithm<L>, seed: nat, words: seq<Byte>, half: seq<Byte>, singles: seq<Byte>,
                     h0: nat, h1: nat, h2: nat, h3: nat, h4: nat, z: nat)
    requires a.Ok() && |words| == a.word && |half| == a.half > 0 && |half| + |singles| < a.word
    requires |words| + |half| + |singles| < a.block
    requires a.small(seed) == h0 && a.addLength(h0, |words| + |half| + |singles|) == h1
    requires a.mixWord(h1, words) == h2 && a.mixHalf(h2, half) == h3
    requires Singles(a.mixByte, h3, singles) == h4 && a.avalanche(h4) == z
    ensures a.Hash(seed, words + half + singles) == z
  {
    OnePiece(a.mixWord, h1, words, a.word);
    var c := Cut([], words, half, singles, 0, 1);
    assert c.Message() == words + half + singles;
    HashFrom(a, seed, c, h0, h1, h2, h3, h4, z);
  }

  /** The same for one block, one half word and some bytes. */
  lemma HashLong<L>(a: Algorithm<L>, seed: nat, block: seq<Byte>, half: seq<Byte>, singles: seq<Byte>,
                    l0: L, l1: L, h0: nat, h1: nat, h2: nat, h3: nat, z: nat)
    requires a.Ok() && |block| == a.block && |half| == a.half > 0 && |half| + |singles| < a.word < a.block
    requires a.start(seed) == l0 && a.round(l0, block) == l1 && a.merge(l1) == h0
    requires a.addLength(h0, |block| + |half| + |singles|) == h1 && a.mixHalf(h1, half) == h2
    requires Singles(a.mixByte, h2, singles) == h3 && a.avalanche(h3) == z
    ensures a.Hash(seed, block + half + singles) == z
  {
    OnePiece(a.round, l0, block, a.block);
    var c := Cut(block, [], half, singles, 1, 0);
    assert c.Message() == block + half + singles;
    HashFrom(a, seed, c, h0, h1, h1, h2, h3, z);
  }

  /** The same for one word. */
  lemma HashWord<L>(a: Algorithm<L>, seed: nat, word: seq<Byte>, h0: nat, h1: nat, h2: nat, z: nat)
    requires a.Ok() && |word| == a.word < a.block
    requires a.small(seed) == h0 && a.addLength(h0, |word|) == h1 && a.mixWord(h1, word) == h2 && a.avalanche(h2) == z
    ensures a.Hash(seed, word) == z
  {
    OnePiece(a.mixWord, h1, word, a.word);
    var c := Cut([], word, [], [], 0, 1);
    assert c.Message() == word;
    HashFrom(a, seed, c, h0, h1, h2, h2, h2, z);
  }

  /** The same for two blocks, one word and some bytes, where there is no half word. */
  lemma HashTwo<L>(a: Algorithm<L>, seed: nat, first: seq<Byte>, second: seq<Byte>, word: seq<Byte>,
                   singles: seq<Byte>, l0: L, l1: L, l2: L, h0: nat, h1: nat, h2: nat, h3: nat, z: nat)
    requires a.Ok() && |first| == |second| == a.block && |word| == a.word && a.half == 0 && |singles| < a.word
    requires |word| + |singles| < a.block
    requires a.start(seed) == l0 && a.round(l0, first) == l1 && a.round(l1, second) == l2 && a.merge(l2) == h0
    requires a.addLength(h0, |first| + |second| + |word| + |singles|) == h1 && a.mixWord(h1, word) == h2
    requires Singles(a.mixByte, h2, singles) == h3 && a.avalanche(h3) == z
    ensures a.Hash(seed, first + second + word + singles) == z
  {
    OnePiece(a.round, l0, first, a.block);
    PiecesNext(a.round, l0, first, a.block, 1, second);
    OnePiece(a.mixWord, h1, word, a.word);
    var c := Cut(first + second, word, [], singles, 2, 1);
    assert c.Message() == first + second + word + singles;
    HashFrom(a, seed, c, h0, h1, h2, h2, h3, z);
  }

  // -------------------------------------------------------------------------
  // XXH64
  // -------------------------------------------------------------------------

  lemma Small64(f: Op, seed: nat, n: nat, h0: nat, h1: nat)
    requires h0 == (seed + 2870177450012600261) % 0x1_0000_0000_0000_0000 && h1 == (h0 + n) % 0x1_0000_0000_0000_0000
    ensures var a := Reference64(f); a.small(seed) == h0 && a.addLength(h0, n) == h1
  {
  }

  lemma Fields64(f: Op)
    ensures var a := Reference64(f); a.Ok() && a.block == 32 && a.word == 8 && a.half == 4
  {
  }

  lemma Length64(f: Op, h: nat, n: nat, z: nat)
    requires z == (h + n) % 0x1_0000_0000_0000_0000
    ensures Reference64(f).addLength(h, n) == z
  {
  }

  lemma Round64At(f: Op, l: Lanes, b: seq<Byte>, k1: nat, k2: nat, k3: nat, k4: nat, z: Lanes)
    requires |b| == 32
    requires k1 == Little(b[0], b[1], b[2], b[3]) + 0x1_0000_0000 * Little(b[4], b[5], b[6], b[7])
    requires k2 == Little(b[8], b[9], b[10], b[11]) + 0x1_0000_0000 * Little(b[12], b[13], b[14], b[15])
    requires k3 == Little(b[16], b[17], b[18], b[19]) + 0x1_0000_0000 * Little(b[20], b[21], b[22], b[23])
    requires k4 == Little(b[24], b[25], b[26], b[27]) + 0x1_0000_0000 * Little(b[28], b[29], b[30], b[31])
    requires z == Lanes(RLane64(l.v1, k1), RLane64(l.v2, k2), RLane64(l.v3, k3), RLane64(l.v4, k4))
    ensures Reference64(f).round(l, b) == z
  {
    Read8(b, 0);
    Read8(b, 8);
    Read8(b, 16);
    Read8(b, 24);
  }

  lemma Merge64At(f: Op, l: Lanes, h: nat, h1: nat, h2: nat, h3: nat, h4: nat)
    requires RSum64(l) == h && RMergeLane64(f, h, l.v1) == h1 && RMergeLane64(f, h1, l.v2) == h2
    requires RMergeLane64(f, h2, l.v3) == h3 && RMergeLane64(f, h3, l.v4) == h4
    ensures Reference64(f).merge(l) == h4
  {
  }

  lemma Avalanche64Field(f: Op, h: nat, z: nat)
    requires RAvalanche64(f, h) == z
    ensures Reference64(f).avalanche(h) == z
  {
  }

  lemma Half64Field(f: Op, h: nat, b: seq<Byte>, k: nat, z: nat)
    requires |b| == 4 && k == Little(b[0], b[1], b[2], b[3]) && RHalf64(f, h, k) == z
    ensures Reference64(f).mixHalf(h, b) == z
  {
    Read4(b, 0);
  }

  lemma Word64Field(f: Op, h: nat, b: seq<Byte>, k: nat, z: nat)
    requires |b| == 8 && k == Little(b[0], b[1], b[2], b[3]) + 0x1_0000_0000 * Little(b[4], b[5], b[6], b[7])
    requires RWord64(f, h, k) == z
    ensures Reference64(f).mixWord(h, b) == z
  {
    Read8(b, 0);
  }

  /** The empty message. */
  lemma Empty64(seed: nat, msg: seq<Byte>)
    requires seed == 0 && msg == []
    ensures Algorithm64().Hash(seed, msg) == 0xEF46_DB37_51D8_E999
  {
    XorIsLike();
    Xxh64Agrees(seed, msg);
    Empty64By(Operator(), seed, msg);
  }

  lemma Empty64By(f: Op, seed: nat, msg: seq<Byte>)
    requires XorLike(f) && seed == 0 && msg == []
    ensures Reference64(f).Hash(seed, msg) == 0xEF46_DB37_51D8_E999
  {
    Fields64(f);
    Empty64Ends(f);
    Avalanche64Field(f, 0x27D4_EB2F_1656_67C5, 0xEF46_DB37_51D8_E999);
    var h := 0x27D4_EB2F_1656_67C5;
    HashFrom(Reference64(f), seed, Cut([], [], [], [], 0, 0), h, h, h, h, h, 0xEF46_DB37_51D8_E999);
  }

  lemma Empty64Ends(f: Op)
    requires XorLike(f)
    ensures RAvalanche64(f, 0x27D4_EB2F_1656_67C5) == 0xEF46_DB37_51D8_E999
  {
    LongXor(f, 0x27D4_EB2F_1656_67C5, 0x13EA_7597, 0x27D4_EB2F_05BC_1252, 0x27, 0xD4, 0xEB, 0x2F, 0x16, 0x56, 0x67,
            0xC5, 0x00, 0x00, 0x00, 0x00, 0x13, 0xEA, 0x75, 0x97);
    LongXor(f, 0xBEB1_3DDA_13C2_ED4E, 0x5_F589_EED0, 0xBEB1_3DDF_E64B_039E, 0xBE, 0xB1, 0x3D, 0xDA, 0x13, 0xC2, 0xED,
            0x4E, 0x00, 0x00, 0x00, 0x05, 0xF5, 0x89, 0xEE, 0xD0);
    LongXor(f, 0xEF46_DB37_BE9E_32AE, 0xEF46_DB37, 0xEF46_DB37_51D8_E999, 0xEF, 0x46, 0xDB, 0x37, 0xBE, 0x9E, 0x32,
            0xAE, 0x00, 0x00, 0x00, 0x00, 0xEF, 0x46, 0xDB, 0x37);
    Avalanche64At(f, 0x27D4_EB2F_1656_67C5, 0x13EA_7597, 0x27D4_EB2F_05BC_1252, 0xBEB1_3DDA_13C2_ED4E, 0x5_F589_EED0,
                  0xBEB1_3DDF_E64B_039E, 0xEF46_DB37_BE9E_32AE, 0xEF46_DB37, 0xEF46_DB37_51D8_E999);
  }

  /** The four bytes `abcd`. */
  lemma Abcd64(seed: nat, msg: seq<Byte>)
    requires seed == 0 && msg == [97, 98, 99, 100]
    ensures Algorithm64().Hash(seed, msg) == 0xDE03_27B0_D25D_92CC
  {
    XorIsLike();
    Xxh64Agrees(seed, msg);
    Abcd64By(Operator(), seed, msg);
  }

  lemma Abcd64By(f: Op, seed: nat, msg: seq<Byte>)
    requires XorLike(f) && seed == 0 && msg == [97, 98, 99, 100]
    ensures Reference64(f).Hash(seed, msg) == 0xDE03_27B0_D25D_92CC
  {
    Fields64(f);
    var c := Cut([], [], msg, [], 0, 0);
    assert c.Message() == msg;
    Abcd64Mix(f);
    Half64Field(f, 0x27D4_EB2F_1656_67C9, msg, 0x6463_6261, 0xE0_8A54_99BA_7DCB);
    Abcd64Ends(f);
    Avalanche64Field(f, 0xE0_8A54_99BA_7DCB, 0xDE03_27B0_D25D_92CC);
    HashFrom(Reference64(f), seed, c, 0x27D4_EB2F_1656_67C5, 0x27D4_EB2F_1656_67C9, 0x27D4_EB2F_1656_67C9,
             0xE0_8A54_99BA_7DCB, 0xE0_8A54_99BA_7DCB, 0xDE03_27B0_D25D_92CC);
  }

  lemma Abcd64Mix(f: Op)
    requires XorLike(f)
    ensures RHalf64(f, 0x27D4_EB2F_1656_67C9, 0x6463_6261) == 0xE0_8A54_99BA_7DCB
  {
    LongXor(f, 0x27D4_EB2F_1656_67C9, 0x9791_F6D4_1014_6B27, 0xB045_1DFB_0642_0CEE, 0x27, 0xD4, 0xEB, 0x2F, 0x16,
            0x56, 0x67, 0xC9, 0x97, 0x91, 0xF6, 0xD4, 0x10, 0x14, 0x6B, 0x27);
    Half64At(f, 0x27D4_EB2F_1656_67C9, 0x6463_6261, 0x9791_F6D4_1014_6B27, 0xB045_1DFB_0642_0CEE,
             0xE0_8A54_99BA_7DCB);
  }

  lemma Abcd64Ends(f: Op)
    requires XorLike(f)
    ensures RAvalanche64(f, 0xE0_8A54_99BA_7DCB) == 0xDE03_27B0_D25D_92CC
  {
    LongXor(f, 0xE0_8A54_99BA_7DCB, 0x70_452A, 0xE0_8A54_99CA_38E1, 0x00, 0xE0, 0x8A, 0x54, 0x99, 0xBA, 0x7D, 0xCB,
            0x00, 0x00, 0x00, 0x00, 0x00, 0x70, 0x45, 0x2A);
    LongXor(f, 0xFC0D_FF06_78F2_186F, 0x7_E06F_F833, 0xFC0D_FF01_989D_E05C, 0xFC, 0x0D, 0xFF, 0x06, 0x78, 0xF2, 0x18,
            0x6F, 0x00, 0x00, 0x00, 0x07, 0xE0, 0x6F, 0xF8, 0x33);
    LongXor(f, 0xDE03_27B0_0C5E_B57C, 0xDE03_27B0, 0xDE03_27B0_D25D_92CC, 0xDE, 0x03, 0x27, 0xB0, 0x0C, 0x5E, 0xB5,
            0x7C, 0x00, 0x00, 0x00, 0x00, 0xDE, 0x03, 0x27, 0xB0);
    Avalanche64At(f, 0xE0_8A54_99BA_7DCB, 0x70_452A, 0xE0_8A54_99CA_38E1, 0xFC0D_FF06_78F2_186F, 0x7_E06F_F833,
                  0xFC0D_FF01_989D_E05C, 0xDE03_27B0_0C5E_B57C, 0xDE03_27B0, 0xDE03_27B0_D25D_92CC);
  }

  /** Fourteen bytes and a seed: a word, a half word and two bytes. */
  lemma Fourteen64(seed: nat, msg: seq<Byte>)
    requires seed == 2654435761 && msg == [158, 255, 31, 75, 94, 83, 47, 221] + [181, 84, 77, 42] + [149, 43]
    ensures Algorithm64().Hash(seed, msg) == 0x5B96_1158_5EFC_C9CB
  {
    XorIsLike();
    Xxh64Agrees(seed, msg);
    Fourteen64By(Operator(), seed, msg);
  }

  lemma Fourteen64By(f: Op, seed: nat, msg: seq<Byte>)
    requires XorLike(f) && seed == 2654435761
    requires msg == [158, 255, 31, 75, 94, 83, 47, 221] + [181, 84, 77, 42] + [149, 43]
    ensures Reference64(f).Hash(seed, msg) == 0x5B96_1158_5EFC_C9CB
  {
    Fields64(f);
    var words, half, singles := [158, 255, 31, 75, 94, 83, 47, 221], [181, 84, 77, 42], [149, 43];
    Small64(f, seed, 14, 0x27D4_EB2F_B48D_E176, 0x27D4_EB2F_B48D_E184);
    Fourteen64Word(f, words);
    Fourteen64Half(f, half);
    Fourteen64Bytes(f, singles);
    Fourteen64Ends(f);
    Avalanche64Field(f, 0x45C2_E539_89B2_5669, 0x5B96_1158_5EFC_C9CB);
    HashShort(Reference64(f), seed, words, half, singles, 0x27D4_EB2F_B48D_E176, 0x27D4_EB2F_B48D_E184,
              0x3164_064B_7724_F65A, 0x6F4C_B350_5ACE_DD46, 0x45C2_E539_89B2_5669, 0x5B96_1158_5EFC_C9CB);
  }

  lemma Fourteen64Word(f: Op, words: seq<Byte>)
    requires XorLike(f) && words == [158, 255, 31, 75, 94, 83, 47, 221]
    ensures Reference64(f).mixWord(0x27D4_EB2F_B48D_E184, words) == 0x3164_064B_7724_F65A
  {
    Fourteen64MixWord(f);
    Word64Field(f, 0x27D4_EB2F_B48D_E184, words, 0xDD2F_535E_4B1F_FF9E, 0x3164_064B_7724_F65A);
  }

  lemma Fourteen64MixWord(f: Op)
    requires XorLike(f)
    ensures RWord64(f, 0x27D4_EB2F_B48D_E184, 0xDD2F_535E_4B1F_FF9E) == 0x3164_064B_7724_F65A
  {
    Lane64At(0x0, 0xDD2F_535E_4B1F_FF9E, 0x38E3_AC26_4F5D_EBC2, 0xD5AC_8902_3563_E205);
    LongXor(f, 0x27D4_EB2F_B48D_E184, 0xD5AC_8902_3563_E205, 0xF278_622D_81EE_0381, 0x27, 0xD4, 0xEB, 0x2F, 0xB4,
            0x8D, 0xE1, 0x84, 0xD5, 0xAC, 0x89, 0x02, 0x35, 0x63, 0xE2, 0x05);
    Word64At(f, 0x27D4_EB2F_B48D_E184, 0xDD2F_535E_4B1F_FF9E, 0xD5AC_8902_3563_E205, 0xF278_622D_81EE_0381,
             0x3164_064B_7724_F65A);
  }

  lemma Fourteen64Half(f: Op, half: seq<Byte>)
    requires XorLike(f) && half == [181, 84, 77, 42]
    ensures Reference64(f).mixHalf(0x3164_064B_7724_F65A, half) == 0x6F4C_B350_5ACE_DD46
  {
    Fourteen64MixHalf(f);
    Half64Field(f, 0x3164_064B_7724_F65A, half, 0x2A4D_54B5, 0x6F4C_B350_5ACE_DD46);
  }

  lemma Fourteen64MixHalf(f: Op)
    requires XorLike(f)
    ensures RHalf64(f, 0x3164_064B_7724_F65A, 0x2A4D_54B5) == 0x6F4C_B350_5ACE_DD46
  {
    LongXor(f, 0x3164_064B_7724_F65A, 0xCB85_419B_1EC5_7D73, 0xFAE1_47D0_69E1_8B29, 0x31, 0x64, 0x06, 0x4B, 0x77,
            0x24, 0xF6, 0x5A, 0xCB, 0x85, 0x41, 0x9B, 0x1E, 0xC5, 0x7D, 0x73);
    Half64At(f, 0x3164_064B_7724_F65A, 0x2A4D_54B5, 0xCB85_419B_1EC5_7D73, 0xFAE1_47D0_69E1_8B29,
             0x6F4C_B350_5ACE_DD46);
  }

  lemma Fourteen64Bytes(f: Op, s: seq<Byte>)
    requires XorLike(f) && s == [149, 43]
    ensures Singles(Reference64(f).mixByte, 0x6F4C_B350_5ACE_DD46, s) == 0x45C2_E539_89B2_5669
  {
    TwoSingles(Reference64(f).mixByte, 0x6F4C_B350_5ACE_DD46, s);
    Fourteen64First(f);
    Fourteen64Last(f);
  }

  lemma Fourteen64First(f: Op)
    requires XorLike(f)
    ensures Reference64(f).mixByte(0x6F4C_B350_5ACE_DD46, 149) == 0xC126_FC32_1D6E_9EDB
  {
    LongXor(f, 0x6F4C_B350_5ACE_DD46, 0x2EEC_E268_004A_65A9, 0x41A0_5138_5A84_B8EF, 0x6F, 0x4C, 0xB3, 0x50, 0x5A,
            0xCE, 0xDD, 0x46, 0x2E, 0xEC, 0xE2, 0x68, 0x00, 0x4A, 0x65, 0xA9);
    Byte64At(f, 0x6F4C_B350_5ACE_DD46, 149, 0x2EEC_E268_004A_65A9, 0x41A0_5138_5A84_B8EF, 0xC126_FC32_1D6E_9EDB);
  }

  lemma Fourteen64Last(f: Op)
    requires XorLike(f)
    ensures Reference64(f).mixByte(0xC126_FC32_1D6E_9EDB, 43) == 0x45C2_E539_89B2_5669
  {
    LongXor(f, 0xC126_FC32_1D6E_9EDB, 0xB0C3_80E8_C083_6E17, 0x71E5_7CDA_DDED_F0CC, 0xC1, 0x26, 0xFC, 0x32, 0x1D,
            0x6E, 0x9E, 0xDB, 0xB0, 0xC3, 0x80, 0xE8, 0xC0, 0x83, 0x6E, 0x17);
    Byte64At(f, 0xC126_FC32_1D6E_9EDB, 43, 0xB0C3_80E8_C083_6E17, 0x71E5_7CDA_DDED_F0CC, 0x45C2_E539_89B2_5669);
  }

  lemma Fourteen64Ends(f: Op)
    requires XorLike(f)
    ensures RAvalanche64(f, 0x45C2_E539_89B2_5669) == 0x5B96_1158_5EFC_C9CB
  {
    LongXor(f, 0x45C2_E539_89B2_5669, 0x22E1_729C, 0x45C2_E539_AB53_24F5, 0x45, 0xC2, 0xE5, 0x39, 0x89, 0xB2, 0x56,
            0x69, 0x00, 0x00, 0x00, 0x00, 0x22, 0xE1, 0x72, 0x9C);
    LongXor(f, 0xBEB4_8CEE_1F79_4E9B, 0x5_F5A4_6770, 0xBEB4_8CEB_EADD_29EB, 0xBE, 0xB4, 0x8C, 0xEE, 0x1F, 0x79, 0x4E,
            0x9B, 0x00, 0x00, 0x00, 0x05, 0xF5, 0xA4, 0x67, 0x70);
    LongXor(f, 0x5B96_1158_056A_D893, 0x5B96_1158, 0x5B96_1158_5EFC_C9CB, 0x5B, 0x96, 0x11, 0x58, 0x05, 0x6A, 0xD8,
            0x93, 0x00, 0x00, 0x00, 0x00, 0x5B, 0x96, 0x11, 0x58);
    Avalanche64At(f, 0x45C2_E539_89B2_5669, 0x22E1_729C, 0x45C2_E539_AB53_24F5, 0xBEB4_8CEE_1F79_4E9B, 0x5_F5A4_6770,
                  0xBEB4_8CEB_EADD_29EB, 0x5B96_1158_056A_D893, 0x5B96_1158, 0x5B96_1158_5EFC_C9CB);
  }

  /** `Nobody inspects the spammish repetition`: a block, a half word and three bytes. */
  lemma Nobody64(block: seq<Byte>, half: seq<Byte>, singles: seq<Byte>)
    requires block == [78, 111, 98, 111, 100, 121, 32, 105, 110, 115, 112, 101, 99, 116, 115, 32, 116, 104, 101, 32,
                       115, 112, 97, 109, 109, 105, 115, 104, 32, 114, 101, 112]
    requires half == [101, 116, 105, 116] && singles == [105, 111, 110]
    ensures Algorithm64().Hash(0, block + half + singles) == 0xFBCE_A83C_8A37_8BF1
  {
    XorIsLike();
    Xxh64Agrees(0, block + half + singles);
    Nobody64By(Operator(), block, half, singles);
  }

  lemma Nobody64By(f: Op, block: seq<Byte>, half: seq<Byte>, singles: seq<Byte>)
    requires XorLike(f)
    requires block == [78, 111, 98, 111, 100, 121, 32, 105, 110, 115, 112, 101, 99, 116, 115, 32, 116, 104, 101, 32,
                       115, 112, 97, 109, 109, 105, 115, 104, 32, 114, 101, 112]
    requires half == [101, 116, 105, 116] && singles == [105, 111, 110]
    ensures Reference64(f).Hash(0, block + half + singles) == 0xFBCE_A83C_8A37_8BF1
  {
    Fields64(f);
    Nobody64Round(f, block);
    Nobody64Merge(f);
    Length64(f, 0x84F2_2C42_1A11_A8B5, 39, 0x84F2_2C42_1A11_A8DC);
    Nobody64Half(f, half);
    Nobody64Bytes(f, singles);
    Nobody64Ends(f);
    Avalanche64Field(f, 0x1D0A_4748_3B37_CC24, 0xFBCE_A83C_8A37_8BF1);
    HashLong(Reference64(f), 0, block, half, singles,
             Lanes(0x60EA_27EE_ADC0_B5D6, 0xC2B2_AE3D_27D4_EB4F, 0x0, 0x61C8_864E_7A14_3579),
             Lanes(0x3724_5127_A406_7E4B, 0x1B30_2B0A_818F_92CF, 0xCD62_D843_D058_0FCA, 0x1C16_E43E_F214_2A4A),
             0x84F2_2C42_1A11_A8B5, 0x84F2_2C42_1A11_A8DC, 0x9FCA_0F5D_0AAA_110F, 0x1D0A_4748_3B37_CC24,
             0xFBCE_A83C_8A37_8BF1);
  }

  lemma Nobody64Round(f: Op, block: seq<Byte>)
    requires block == [78, 111, 98, 111, 100, 121, 32, 105, 110, 115, 112, 101, 99, 116, 115, 32, 116, 104, 101, 32,
                       115, 112, 97, 109, 109, 105, 115, 104, 32, 114, 101, 112]
    ensures Reference64(f).start(0) == Lanes(0x60EA_27EE_ADC0_B5D6, 0xC2B2_AE3D_27D4_EB4F, 0x0, 0x61C8_864E_7A14_3579)
    ensures Reference64(f).round(Lanes(0x60EA_27EE_ADC0_B5D6, 0xC2B2_AE3D_27D4_EB4F, 0x0, 0x61C8_864E_7A14_3579), block)
            == Lanes(0x3724_5127_A406_7E4B, 0x1B30_2B0A_818F_92CF, 0xCD62_D843_D058_0FCA, 0x1C16_E43E_F214_2A4A)
  {
    Nobody64Lanes();
    Round64At(f, Lanes(0x60EA_27EE_ADC0_B5D6, 0xC2B2_AE3D_27D4_EB4F, 0x0, 0x61C8_864E_7A14_3579), block,
              0x6920_7964_6F62_6F4E, 0x2073_7463_6570_736E, 0x6D61_7073_2065_6874, 0x7065_7220_6873_696D,
              Lanes(0x3724_5127_A406_7E4B, 0x1B30_2B0A_818F_92CF, 0xCD62_D843_D058_0FCA, 0x1C16_E43E_F214_2A4A));
  }

  lemma Nobody64Lanes()
    ensures RLane64(0x60EA_27EE_ADC0_B5D6, 0x6920_7964_6F62_6F4E) == 0x3724_5127_A406_7E4B
    ensures RLane64(0xC2B2_AE3D_27D4_EB4F, 0x2073_7463_6570_736E) == 0x1B30_2B0A_818F_92CF
    ensures RLane64(0x0, 0x6D61_7073_2065_6874) == 0xCD62_D843_D058_0FCA
    ensures RLane64(0x61C8_864E_7A14_3579, 0x7065_7220_6873_696D) == 0x1C16_E43E_F214_2A4A
  {
    Lane64At(0x60EA_27EE_ADC0_B5D6, 0x6920_7964_6F62_6F4E, 0x67DA_963B_77E5_A8E8, 0x3724_5127_A406_7E4B);
    Lane64At(0xC2B2_AE3D_27D4_EB4F, 0x2073_7463_6570_736E, 0x81AB_3EF3_0896_8441, 0x1B30_2B0A_818F_92CF);
    Lane64At(0x0, 0x6D61_7073_2065_6874, 0xA62_64CC_423D_B7CC, 0xCD62_D843_D058_0FCA);
    Lane64At(0x61C8_864E_7A14_3579, 0x7065_7220_6873_696D, 0xE08C_C7CC_90BC_CD1C, 0x1C16_E43E_F214_2A4A);
  }

  lemma Nobody64Merge(f: Op)
    requires XorLike(f)
    ensures Reference64(f).merge(Lanes(0x3724_5127_A406_7E4B, 0x1B30_2B0A_818F_92CF, 0xCD62_D843_D058_0FCA,
                                       0x1C16_E43E_F214_2A4A))
            == 0x84F2_2C42_1A11_A8B5
  {
    Nobody64Sum();
    Nobody64Merge1(f);
    Nobody64Merge2(f);
    Nobody64Merge3(f);
    Nobody64Merge4(f);
    Merge64At(f, Lanes(0x3724_5127_A406_7E4B, 0x1B30_2B0A_818F_92CF, 0xCD62_D843_D058_0FCA, 0x1C16_E43E_F214_2A4A),
              0xC4DE_2CE6_39FB_8154, 0x30D4_0DDD_00AE_A144, 0xE5A1_F095_BF49_8698, 0xF9CE_E721_E748_096D,
              0x84F2_2C42_1A11_A8B5);
  }

  lemma Nobody64Sum()
    ensures RSum64(Lanes(0x3724_5127_A406_7E4B, 0x1B30_2B0A_818F_92CF, 0xCD62_D843_D058_0FCA, 0x1C16_E43E_F214_2A4A))
            == 0xC4DE_2CE6_39FB_8154
  {
    Sum64At(Lanes(0x3724_5127_A406_7E4B, 0x1B30_2B0A_818F_92CF, 0xCD62_D843_D058_0FCA, 0x1C16_E43E_F214_2A4A),
            0x6E48_A24F_480C_FC96, 0x9815_8540_C7C9_678D, 0x2D84_3D05_80FC_ACD6, 0x90FB_C850_A928_705B,
            0xC4DE_2CE6_39FB_8154);
  }

  lemma Nobody64Merge1(f: Op)
    requires XorLike(f)
    ensures RMergeLane64(f, 0xC4DE_2CE6_39FB_8154, 0x3724_5127_A406_7E4B) == 0x30D4_0DDD_00AE_A144
  {
    Lane64At(0x0, 0x3724_5127_A406_7E4B, 0xBF0E_534A_970B_D225, 0x7790_FF1F_7A9A_2803);
    LongXor(f, 0xC4DE_2CE6_39FB_8154, 0x7790_FF1F_7A9A_2803, 0xB34E_D3F9_4361_A957, 0xC4, 0xDE, 0x2C, 0xE6, 0x39,
            0xFB, 0x81, 0x54, 0x77, 0x90, 0xFF, 0x1F, 0x7A, 0x9A, 0x28, 0x03);
    MergeLane64At(f, 0xC4DE_2CE6_39FB_8154, 0x3724_5127_A406_7E4B, 0x7790_FF1F_7A9A_2803, 0xB34E_D3F9_4361_A957,
                  0x30D4_0DDD_00AE_A144);
  }

  lemma Nobody64Merge2(f: Op)
    requires XorLike(f)
    ensures RMergeLane64(f, 0x30D4_0DDD_00AE_A144, 0x1B30_2B0A_818F_92CF) == 0xE5A1_F095_BF49_8698
  {
    Lane64At(0x0, 0x1B30_2B0A_818F_92CF, 0x40BC_C4C2_E37E_52E1, 0xDECE_D6C0_BF71_6B27);
    LongXor(f, 0x30D4_0DDD_00AE_A144, 0xDECE_D6C0_BF71_6B27, 0xEE1A_DB1D_BFDF_CA63, 0x30, 0xD4, 0x0D, 0xDD, 0x00,
            0xAE, 0xA1, 0x44, 0xDE, 0xCE, 0xD6, 0xC0, 0xBF, 0x71, 0x6B, 0x27);
    MergeLane64At(f, 0x30D4_0DDD_00AE_A144, 0x1B30_2B0A_818F_92CF, 0xDECE_D6C0_BF71_6B27, 0xEE1A_DB1D_BFDF_CA63,
                  0xE5A1_F095_BF49_8698);
  }

  lemma Nobody64Merge3(f: Op)
    requires XorLike(f)
    ensures RMergeLane64(f, 0xE5A1_F095_BF49_8698, 0xCD62_D843_D058_0FCA) == 0xF9CE_E721_E748_096D
  {
    Lane64At(0x0, 0xCD62_D843_D058_0FCA, 0x1917_FFA4_FAF3_4D56, 0x7007_3EB8_0575_9BBE);
    LongXor(f, 0xE5A1_F095_BF49_8698, 0x7007_3EB8_0575_9BBE, 0x95A6_CE2D_BA3C_1D26, 0xE5, 0xA1, 0xF0, 0x95, 0xBF,
            0x49, 0x86, 0x98, 0x70, 0x07, 0x3E, 0xB8, 0x05, 0x75, 0x9B, 0xBE);
    MergeLane64At(f, 0xE5A1_F095_BF49_8698, 0xCD62_D843_D058_0FCA, 0x7007_3EB8_0575_9BBE, 0x95A6_CE2D_BA3C_1D26,
                  0xF9CE_E721_E748_096D);
  }

  lemma Nobody64Merge4(f: Op)
    requires XorLike(f)
    ensures RMergeLane64(f, 0xF9CE_E721_E748_096D, 0x1C16_E43E_F214_2A4A) == 0x84F2_2C42_1A11_A8B5
  {
    Lane64At(0x0, 0x1C16_E43E_F214_2A4A, 0x2898_226B_8252_FAD6, 0xC1CB_BAE5_0E57_E4F3);
    LongXor(f, 0xF9CE_E721_E748_096D, 0xC1CB_BAE5_0E57_E4F3, 0x3805_5DC4_E91F_ED9E, 0xF9, 0xCE, 0xE7, 0x21, 0xE7,
            0x48, 0x09, 0x6D, 0xC1, 0xCB, 0xBA, 0xE5, 0x0E, 0x57, 0xE4, 0xF3);
    MergeLane64At(f, 0xF9CE_E721_E748_096D, 0x1C16_E43E_F214_2A4A, 0xC1CB_BAE5_0E57_E4F3, 0x3805_5DC4_E91F_ED9E,
                  0x84F2_2C42_1A11_A8B5);
  }

  lemma Nobody64Half(f: Op, half: seq<Byte>)
    requires XorLike(f) && half == [101, 116, 105, 116]
    ensures Reference64(f).mixHalf(0x84F2_2C42_1A11_A8DC, half) == 0x9FCA_0F5D_0AAA_110F
  {
    Nobody64MixHalf(f);
    Half64Field(f, 0x84F2_2C42_1A11_A8DC, half, 0x7469_7465, 0x9FCA_0F5D_0AAA_110F);
  }

  lemma Nobody64MixHalf(f: Op)
    requires XorLike(f)
    ensures RHalf64(f, 0x84F2_2C42_1A11_A8DC, 0x7469_7465) == 0x9FCA_0F5D_0AAA_110F
  {
    LongXor(f, 0x84F2_2C42_1A11_A8DC, 0xE986_3933_EB2B_1343, 0x6D74_1571_F13A_BB9F, 0x84, 0xF2, 0x2C, 0x42, 0x1A,
            0x11, 0xA8, 0xDC, 0xE9, 0x86, 0x39, 0x33, 0xEB, 0x2B, 0x13, 0x43);
    Half64At(f, 0x84F2_2C42_1A11_A8DC, 0x7469_7465, 0xE986_3933_EB2B_1343, 0x6D74_1571_F13A_BB9F,
             0x9FCA_0F5D_0AAA_110F);
  }

  lemma Nobody64Bytes(f: Op, s: seq<Byte>)
    requires XorLike(f) && s == [105, 111, 110]
    ensures Singles(Reference64(f).mixByte, 0x9FCA_0F5D_0AAA_110F, s) == 0x1D0A_4748_3B37_CC24
  {
    Nobody64First(f);
    Nobody64Second(f);
    Nobody64Third(f);
    ThreeSingles(Reference64(f).mixByte, 0x9FCA_0F5D_0AAA_110F, s, 0x7696_7154_6F21_BA14, 0xEAE9_B643_C5F9_4E52,
                 0x1D0A_4748_3B37_CC24);
  }

  lemma Nobody64First(f: Op)
    requires XorLike(f)
    ensures Reference64(f).mixByte(0x9FCA_0F5D_0AAA_110F, 105) == 0x7696_7154_6F21_BA14
  {
    LongXor(f, 0x9FCA_0F5D_0AAA_110F, 0x5654_7650_2970_8FCD, 0xC99E_790D_23DA_9EC2, 0x9F, 0xCA, 0x0F, 0x5D, 0x0A,
            0xAA, 0x11, 0x0F, 0x56, 0x54, 0x76, 0x50, 0x29, 0x70, 0x8F, 0xCD);
    Byte64At(f, 0x9FCA_0F5D_0AAA_110F, 105, 0x5654_7650_2970_8FCD, 0xC99E_790D_23DA_9EC2, 0x7696_7154_6F21_BA14);
  }

  lemma Nobody64Second(f: Op)
    requires XorLike(f)
    ensures Reference64(f).mixByte(0x7696_7154_6F21_BA14, 111) == 0xEAE9_B643_C5F9_4E52
  {
    LongXor(f, 0x7696_7154_6F21_BA14, 0x4551_F96A_AF76_FE6B, 0x33C7_883E_C057_447F, 0x76, 0x96, 0x71, 0x54, 0x6F,
            0x21, 0xBA, 0x14, 0x45, 0x51, 0xF9, 0x6A, 0xAF, 0x76, 0xFE, 0x6B);
    Byte64At(f, 0x7696_7154_6F21_BA14, 111, 0x4551_F96A_AF76_FE6B, 0x33C7_883E_C057_447F, 0xEAE9_B643_C5F9_4E52);
  }

  lemma Nobody64Third(f: Op)
    requires XorLike(f)
    ensures Reference64(f).mixByte(0xEAE9_B643_C5F9_4E52, 110) == 0x1D0A_4748_3B37_CC24
  {
    LongXor(f, 0xEAE9_B643_C5F9_4E52, 0x1D7D_0E3B_9920_96A6, 0xF794_B878_5CD9_D8F4, 0xEA, 0xE9, 0xB6, 0x43, 0xC5,
            0xF9, 0x4E, 0x52, 0x1D, 0x7D, 0x0E, 0x3B, 0x99, 0x20, 0x96, 0xA6);
    Byte64At(f, 0xEAE9_B643_C5F9_4E52, 110, 0x1D7D_0E3B_9920_96A6, 0xF794_B878_5CD9_D8F4, 0x1D0A_4748_3B37_CC24);
  }

  lemma Nobody64Ends(f: Op)
    requires XorLike(f)
    ensures RAvalanche64(f, 0x1D0A_4748_3B37_CC24) == 0xFBCE_A83C_8A37_8BF1
  {
    LongXor(f, 0x1D0A_4748_3B37_CC24, 0xE85_23A4, 0x1D0A_4748_35B2_EF80, 0x1D, 0x0A, 0x47, 0x48, 0x3B, 0x37, 0xCC,
            0x24, 0x00, 0x00, 0x00, 0x00, 0x0E, 0x85, 0x23, 0xA4);
    LongXor(f, 0x5F02_14BE_AA12_6880, 0x2_F810_A5F5, 0x5F02_14BC_5202_CD75, 0x5F, 0x02, 0x14, 0xBE, 0xAA, 0x12, 0x68,
            0x80, 0x00, 0x00, 0x00, 0x02, 0xF8, 0x10, 0xA5, 0xF5);
    LongXor(f, 0xFBCE_A83C_71F9_23CD, 0xFBCE_A83C, 0xFBCE_A83C_8A37_8BF1, 0xFB, 0xCE, 0xA8, 0x3C, 0x71, 0xF9, 0x23,
            0xCD, 0x00, 0x00, 0x00, 0x00, 0xFB, 0xCE, 0xA8, 0x3C);
    Avalanche64At(f, 0x1D0A_4748_3B37_CC24, 0xE85_23A4, 0x1D0A_4748_35B2_EF80, 0x5F02_14BE_AA12_6880, 0x2_F810_A5F5,
                  0x5F02_14BC_5202_CD75, 0xFBCE_A83C_71F9_23CD, 0xFBCE_A83C, 0xFBCE_A83C_8A37_8BF1);
  }

  // -------------------------------------------------------------------------
  // XXH32
  // -------------------------------------------------------------------------

  lemma Fields32(f: Op)
    ensures var a := Reference32(f); a.Ok() && a.block == 16 && a.word == 4 && a.half == 0
  {
  }

  lemma Length32(f: Op, h: nat, n: nat, z: nat)
    requires z == (h + n) % 0x1_0000_0000
    ensures Reference32(f).addLength(h, n) == z
  {
  }

  lemma Lane32At(v: nat, k: nat, x: nat, z: nat)
    requires x == (v + k * 2246822519) % 0x1_0000_0000 && z == Turn(x, 0x2000, 0x8_0000) * 2654435761 % 0x1_0000_0000
    ensures RLane32(v, k) == z
  {
  }

  lemma Word32At(h: nat, k: nat, x: nat, z: nat)
    requires x == (h + k * 3266489917) % 0x1_0000_0000 && z == Turn(x, 0x2_0000, 0x8000) * 668265263 % 0x1_0000_0000
    ensures RWord32(h, k) == z
  {
  }

  lemma Byte32At(f: Op, h: nat, b: Byte, x: nat, z: nat)
    requires x == (h + b * 374761393) % 0x1_0000_0000 && z == Turn(x, 0x800, 0x20_0000) * 2654435761 % 0x1_0000_0000
    ensures Reference32(f).mixByte(h, b) == z
  {
  }

  lemma Avalanche32Field(f: Op, h: nat, z: nat)
    requires RAvalanche32(f, h) == z
    ensures Reference32(f).avalanche(h) == z
  {
  }

  lemma Word32Field(f: Op, h: nat, b: seq<Byte>, k: nat, z: nat)
    requires |b| == 4 && k == Little(b[0], b[1], b[2], b[3]) && RWord32(h, k) == z
    ensures Reference32(f).mixWord(h, b) == z
  {
    Read4(b, 0);
  }

  lemma Round32At(f: Op, l: Lanes, b: seq<Byte>, k1: nat, k2: nat, k3: nat, k4: nat, z: Lanes)
    requires |b| == 16
    requires k1 == Little(b[0], b[1], b[2], b[3]) && k2 == Little(b[4], b[5], b[6], b[7])
    requires k3 == Little(b[8], b[9], b[10], b[11]) && k4 == Little(b[12], b[13], b[14], b[15])
    requires z == Lanes(RLane32(l.v1, k1), RLane32(l.v2, k2), RLane32(l.v3, k3), RLane32(l.v4, k4))
    ensures Reference32(f).round(l, b) == z
  {
    Read4(b, 0);
    Read4(b, 4);
    Read4(b, 8);
    Read4(b, 12);
  }

  /** The empty message. */
  lemma Empty32(seed: nat, msg: seq<Byte>)
    requires seed == 0 && msg == []
    ensures Algorithm32().Hash(seed, msg) == 0x2CC_5D05
  {
    XorIsLike();
    Xxh32Agrees(seed, msg);
    Empty32By(Operator(), seed, msg);
  }

  lemma Empty32By(f: Op, seed: nat, msg: seq<Byte>)
    requires XorLike(f) && seed == 0 && msg == []
    ensures Reference32(f).Hash(seed, msg) == 0x2CC_5D05
  {
    Fields32(f);
    Empty32Ends(f);
    Avalanche32Field(f, 0x1656_67B1, 0x2CC_5D05);
    var h := 0x1656_67B1;
    HashFrom(Reference32(f), seed, Cut([], [], [], [], 0, 0), h, h, h, h, h, 0x2CC_5D05);
  }

  lemma Empty32Ends(f: Op)
    requires XorLike(f)
    ensures RAvalanche32(f, 0x1656_67B1) == 0x2CC_5D05
  {
    WordXor(f, 0x1656_67B1, 0x2CAC, 0x1656_4B1D, 0x16, 0x56, 0x67, 0xB1, 0x00, 0x00, 0x2C, 0xAC);
    WordXor(f, 0x7E00_CC7B, 0x3_F006, 0x7E03_3C7D, 0x7E, 0x00, 0xCC, 0x7B, 0x00, 0x03, 0xF0, 0x06);
    WordXor(f, 0x2CC_5FC9, 0x2CC, 0x2CC_5D05, 0x02, 0xCC, 0x5F, 0xC9, 0x00, 0x00, 0x02, 0xCC);
    Avalanche32At(f, 0x1656_67B1, 0x2CAC, 0x1656_4B1D, 0x7E00_CC7B, 0x3_F006, 0x7E03_3C7D, 0x2CC_5FC9, 0x2CC,
                  0x2CC_5D05);
  }

  /** The four bytes `abcd`. */
  lemma Abcd32(seed: nat, msg: seq<Byte>)
    requires seed == 0 && msg == [97, 98, 99, 100]
    ensures Algorithm32().Hash(seed, msg) == 0xA364_3705
  {
    XorIsLike();
    Xxh32Agrees(seed, msg);
    Abcd32By(Operator(), seed, msg);
  }

  lemma Abcd32By(f: Op, seed: nat, msg: seq<Byte>)
    requires XorLike(f) && seed == 0 && msg == [97, 98, 99, 100]
    ensures Reference32(f).Hash(seed, msg) == 0xA364_3705
  {
    Fields32(f);
    Length32(f, 0x1656_67B1, 4, 0x1656_67B5);
    Abcd32Mix(f, msg);
    Abcd32Ends(f);
    Avalanche32Field(f, 0x7527_5207, 0xA364_3705);
    HashWord(Reference32(f), seed, msg, 0x1656_67B1, 0x1656_67B5, 0x7527_5207, 0xA364_3705);
  }

  lemma Abcd32Mix(f: Op, msg: seq<Byte>)
    requires msg == [97, 98, 99, 100]
    ensures Reference32(f).mixWord(0x1656_67B5, msg) == 0x7527_5207
  {
    Abcd32Word();
    Word32Field(f, 0x1656_67B5, msg, 0x6463_6261, 0x7527_5207);
  }

  lemma Abcd32Word()
    ensures RWord32(0x1656_67B5, 0x6463_6261) == 0x7527_5207
  {
    Word32At(0x1656_67B5, 0x6463_6261, 0x7854_C6D2, 0x7527_5207);
  }

  lemma Abcd32Ends(f: Op)
    requires XorLike(f)
    ensures RAvalanche32(f, 0x7527_5207) == 0xA364_3705
  {
    WordXor(f, 0x7527_5207, 0xEA4E, 0x7527_B849, 0x75, 0x27, 0x52, 0x07, 0x00, 0x00, 0xEA, 0x4E);
    WordXor(f, 0xE4E3_43EF, 0x7_271A, 0xE4E4_64F5, 0xE4, 0xE3, 0x43, 0xEF, 0x00, 0x07, 0x27, 0x1A);
    WordXor(f, 0xA364_9461, 0xA364, 0xA364_3705, 0xA3, 0x64, 0x94, 0x61, 0x00, 0x00, 0xA3, 0x64);
    Avalanche32At(f, 0x7527_5207, 0xEA4E, 0x7527_B849, 0xE4E3_43EF, 0x7_271A, 0xE4E4_64F5, 0xA364_9461, 0xA364,
                  0xA364_3705);
  }

  /** `Nobody inspects the spammish repetition`: two blocks, a word and three bytes. */
  lemma Nobody32(first: seq<Byte>, second: seq<Byte>, word: seq<Byte>, singles: seq<Byte>)
    requires first == [78, 111, 98, 111, 100, 121, 32, 105, 110, 115, 112, 101, 99, 116, 115, 32]
    requires second == [116, 104, 101, 32, 115, 112, 97, 109, 109, 105, 115, 104, 32, 114, 101, 112]
    requires word == [101, 116, 105, 116] && singles == [105, 111, 110]
    ensures Algorithm32().Hash(0, first + second + word + singles) == 0xE229_3B2F
  {
    XorIsLike();
    Xxh32Agrees(0, first + second + word + singles);
    Nobody32By(Operator(), first, second, word, singles);
  }

  lemma Nobody32By(f: Op, first: seq<Byte>, second: seq<Byte>, word: seq<Byte>, singles: seq<Byte>)
    requires XorLike(f)
    requires first == [78, 111, 98, 111, 100, 121, 32, 105, 110, 115, 112, 101, 99, 116, 115, 32]
    requires second == [116, 104, 101, 32, 115, 112, 97, 109, 109, 105, 115, 104, 32, 114, 101, 112]
    requires word == [101, 116, 105, 116] && singles == [105, 111, 110]
    ensures Reference32(f).Hash(0, first + second + word + singles) == 0xE229_3B2F
  {
    Fields32(f);
    Nobody32First(f, first);
    Nobody32Second(f, second);
    Nobody32Merge(f);
    Length32(f, 0x8C86_B52D, 39, 0x8C86_B554);
    Nobody32Mix(f, word);
    Nobody32Bytes(f, singles);
    Nobody32Ends(f);
    Avalanche32Field(f, 0xB3A7_011B, 0xE229_3B2F);
    HashTwo(Reference32(f), 0, first, second, word, singles, Lanes(0x2423_4428, 0x85EB_CA77, 0x0, 0x61C8_864F),
            Lanes(0x46A_700A, 0xBFAD_F8E3, 0x5B32_B4AA, 0x137E_5555),
            Lanes(0x719A_836E, 0x514C_1DE8, 0x97FA_4BA2, 0x242A_97A2), 0x8C86_B52D, 0x8C86_B554, 0x9B5_1544,
            0xB3A7_011B, 0xE229_3B2F);
  }

  lemma Nobody32First(f: Op, b: seq<Byte>)
    requires b == [78, 111, 98, 111, 100, 121, 32, 105, 110, 115, 112, 101, 99, 116, 115, 32]
    ensures Reference32(f).start(0) == Lanes(0x2423_4428, 0x85EB_CA77, 0x0, 0x61C8_864F)
    ensures Reference32(f).round(Lanes(0x2423_4428, 0x85EB_CA77, 0x0, 0x61C8_864F), b)
            == Lanes(0x46A_700A, 0xBFAD_F8E3, 0x5B32_B4AA, 0x137E_5555)
  {
    Nobody32Lanes();
    Round32At(f, Lanes(0x2423_4428, 0x85EB_CA77, 0x0, 0x61C8_864F), b, 0x6F62_6F4E, 0x6920_7964, 0x6570_736E,
              0x2073_7463, Lanes(0x46A_700A, 0xBFAD_F8E3, 0x5B32_B4AA, 0x137E_5555));
  }

  lemma Nobody32Lanes()
    ensures RLane32(0x2423_4428, 0x6F62_6F4E) == 0x46A_700A
    ensures RLane32(0x85EB_CA77, 0x6920_7964) == 0xBFAD_F8E3
    ensures RLane32(0x0, 0x6570_736E) == 0x5B32_B4AA
    ensures RLane32(0x61C8_864F, 0x2073_7463) == 0x137E_5555
  {
    Lane32At(0x2423_4428, 0x6F62_6F4E, 0x4952_8D6A, 0x46A_700A);
    Lane32At(0x85EB_CA77, 0x6920_7964, 0x6699_1FF3, 0xBFAD_F8E3);
    Lane32At(0x0, 0x6570_736E, 0xFE54_7422, 0x5B32_B4AA);
    Lane32At(0x61C8_864F, 0x2073_7463, 0xD72A_BE54, 0x137E_5555);
  }

  lemma Nobody32Second(f: Op, b: seq<Byte>)
    requires b == [116, 104, 101, 32, 115, 112, 97, 109, 109, 105, 115, 104, 32, 114, 101, 112]
    ensures Reference32(f).round(Lanes(0x46A_700A, 0xBFAD_F8E3, 0x5B32_B4AA, 0x137E_5555), b)
            == Lanes(0x719A_836E, 0x514C_1DE8, 0x97FA_4BA2, 0x242A_97A2)
  {
    Nobody32More();
    Round32At(f, Lanes(0x46A_700A, 0xBFAD_F8E3, 0x5B32_B4AA, 0x137E_5555), b, 0x2065_6874, 0x6D61_7073, 0x6873_696D,
              0x7065_7220, Lanes(0x719A_836E, 0x514C_1DE8, 0x97FA_4BA2, 0x242A_97A2));
  }

  lemma Nobody32More()
    ensures RLane32(0x46A_700A, 0x2065_6874) == 0x719A_836E
    ensures RLane32(0xBFAD_F8E3, 0x6D61_7073) == 0x514C_1DE8
    ensures RLane32(0x5B32_B4AA, 0x6873_696D) == 0x97FA_4BA2
    ensures RLane32(0x137E_5555, 0x7065_7220) == 0x242A_97A2
  {
    Lane32At(0x46A_700A, 0x2065_6874, 0x3E75_85F6, 0x719A_836E);
    Lane32At(0xBFAD_F8E3, 0x6D61_7073, 0x7344_FC58, 0x514C_1DE8);
    Lane32At(0x5B32_B4AA, 0x6873_696D, 0x6217_B855, 0x97FA_4BA2);
    Lane32At(0x137E_5555, 0x7065_7220, 0xC213_A235, 0x242A_97A2);
  }

  lemma Nobody32Merge(f: Op)
    ensures Reference32(f).merge(Lanes(0x719A_836E, 0x514C_1DE8, 0x97FA_4BA2, 0x242A_97A2)) == 0x8C86_B52D
  {
  }

  lemma Nobody32Mix(f: Op, word: seq<Byte>)
    requires word == [101, 116, 105, 116]
    ensures Reference32(f).mixWord(0x8C86_B554, word) == 0x9B5_1544
  {
    Nobody32Word();
    Word32Field(f, 0x8C86_B554, word, 0x7469_7465, 0x9B5_1544);
  }

  lemma Nobody32Word()
    ensures RWord32(0x8C86_B554, 0x7469_7465) == 0x9B5_1544
  {
    Word32At(0x8C86_B554, 0x7469_7465, 0x6EFE_1765, 0x9B5_1544);
  }

  lemma Nobody32Bytes(f: Op, s: seq<Byte>)
    requires s == [105, 111, 110]
    ensures Singles(Reference32(f).mixByte, 0x9B5_1544, s) == 0xB3A7_011B
  {
    Nobody32Steps(f);
    ThreeSingles(Reference32(f).mixByte, 0x9B5_1544, s, 0xCDEF_D3C9, 0x3852_087B, 0xB3A7_011B);
  }

  lemma Nobody32Steps(f: Op)
    ensures Reference32(f).mixByte(0x9B5_1544, 105) == 0xCDEF_D3C9
    ensures Reference32(f).mixByte(0xCDEF_D3C9, 111) == 0x3852_087B
    ensures Reference32(f).mixByte(0x3852_087B, 110) == 0xB3A7_011B
  {
    Byte32At(f, 0x9B5_1544, 105, 0x3325_9CDD, 0xCDEF_D3C9);
    Byte32At(f, 0xCDEF_D3C9, 111, 0x7D66_C988, 0x3852_087B);
    Byte32At(f, 0x3852_087B, 110, 0xD172_9689, 0xB3A7_011B);
  }

  lemma Nobody32Ends(f: Op)
    requires XorLike(f)
    ensures RAvalanche32(f, 0xB3A7_011B) == 0xE229_3B2F
  {
    WordXor(f, 0xB3A7_011B, 0x1_674E, 0xB3A6_6655, 0xB3, 0xA7, 0x01, 0x1B, 0x00, 0x01, 0x67, 0x4E);
    WordXor(f, 0xE81F_A383, 0x7_40FD, 0xE818_E37E, 0xE8, 0x1F, 0xA3, 0x83, 0x00, 0x07, 0x40, 0xFD);
    WordXor(f, 0xE229_D906, 0xE229, 0xE229_3B2F, 0xE2, 0x29, 0xD9, 0x06, 0x00, 0x00, 0xE2, 0x29);
    Avalanche32At(f, 0xB3A7_011B, 0x1_674E, 0xB3A6_6655, 0xE81F_A383, 0x7_40FD, 0xE818_E37E, 0xE229_D906, 0xE229,
                  0xE229_3B2F);
  }

}
