/** XXH32 and XXH64: their arithmetic modulo 2^32 and 2^64, and the two promises of the library,
    one-shot and streaming, for each. */
module XxHash {
  import opened Bits
  import opened Common
  import opened XxStream

  const M32 := 0x1_0000_0000
  const PRIME32_1 := 2654435761
  const PRIME32_2 := 2246822519
  const PRIME32_3 := 3266489917
  const PRIME32_4 := 668265263
  const PRIME32_5 := 374761393

  const M64 := 0x1_0000_0000_0000_0000
  const PRIME64_1 := 11400714785074694791
  const PRIME64_2 := 14029467366897019727
  const PRIME64_3 := 1609587929392839161
  const PRIME64_4 := 9650029242287828579
  const PRIME64_5 := 2870177450012600261

  datatype Lanes = Lanes(v1: nat, v2: nat, v3: nat, v4: nat)

  /** The little-endian word of `n` bytes at `off`. */
  function ReadLE(s: seq<Byte>, off: nat, n: nat): nat
    decreases n
  {
    if n == 0 || off >= |s| then 0 else s[off] + 256 * ReadLE(s, off + 1, n - 1)
  }

  /** `(x << r) | (x >> (width - r))` in a word of `width` bits with modulus `m`. */
  function Rotl(x: nat, r: nat, width: nat, m: nat): nat
    requires r <= width && m > 0
  {
    Or(Wrapped(x, Pow2(r), m), Quotient(x, Pow2(width - r)))
  }

  // -------------------------------------------------------------------------
  // XXH32
  // -------------------------------------------------------------------------

  function Start32(seed: nat): Lanes
  {
    Lanes((seed + PRIME32_1 + PRIME32_2) % M32, (seed + PRIME32_2) % M32, seed % M32, (seed + M32 - PRIME32_1) % M32)
  }

  function Lane32(v: nat, k: nat): nat
  {
    Rotl((v + k * PRIME32_2) % M32, 13, 32, M32) * PRIME32_1 % M32
  }

  function Round32(l: Lanes, b: seq<Byte>): Lanes
  {
    Lanes(Lane32(l.v1, ReadLE(b, 0, 4)), Lane32(l.v2, ReadLE(b, 4, 4)),
          Lane32(l.v3, ReadLE(b, 8, 4)), Lane32(l.v4, ReadLE(b, 12, 4)))
  }

  function Merge32(l: Lanes): nat
  {
    (Rotl(l.v1, 1, 32, M32) + Rotl(l.v2, 7, 32, M32) + Rotl(l.v3, 12, 32, M32) + Rotl(l.v4, 18, 32, M32)) % M32
  }

  function Small32(seed: nat): nat { (seed + PRIME32_5) % M32 }

  function AddLength32(h: nat, length: nat): nat { (h + length % M32) % M32 }

  function MixWord32(h: nat, b: seq<Byte>): nat
  {
    Rotl((h + ReadLE(b, 0, 4) * PRIME32_3) % M32, 17, 32, M32) * PRIME32_4 % M32
  }

  function MixByte32(h: nat, b: Byte): nat
  {
    Rotl((h + b * PRIME32_5) % M32, 11, 32, M32) * PRIME32_1 % M32
  }

  function Avalanche32(h: nat): nat
  {
    var h1 := Xor(h, h / 0x8000) * PRIME32_2 % M32;
    var h2 := Xor(h1, h1 / 0x2000) * PRIME32_3 % M32;
    Xor(h2, h2 / 0x1_0000)
  }

  function Algorithm32(): (a: Algorithm<Lanes>)
    ensures a.Ok() && a.block == 16
  {
    Algorithm(16, 4, 0, Start32, Round32, Merge32, Small32, AddLength32, MixWord32, (h, b) => h, MixByte32, Avalanche32)
  }

  method Xxh32(input: seq<Byte>, seed: nat) returns (h: nat)
    ensures h == Algorithm32().Hash(seed, input)
  {
    h := OneShot(Algorithm32(), input, seed);
  }

  /** Streaming: after every chunk the digest is the one-shot hash of the bytes so far. */
  method Xxh32Stream(seed: nat, chunks: seq<seq<Byte>>) returns (digests: seq<nat>)
    requires |Concat(chunks)| < LENGTH_LIMIT
    ensures |digests| == |chunks| + 1
    ensures forall i :: 0 <= i <= |chunks| ==> digests[i] == Algorithm32().Hash(seed, Concat(chunks[..i]))
  {
    digests := Stream(Algorithm32(), seed, chunks);
  }

  // -------------------------------------------------------------------------
  // XXH64
  // -------------------------------------------------------------------------

  function Start64(seed: nat): Lanes
  {
    Lanes((seed + PRIME64_1 + PRIME64_2) % M64, (seed + PRIME64_2) % M64, seed % M64, (seed + M64 - PRIME64_1) % M64)
  }

  function Lane64(v: nat, k: nat): nat
  {
    Rotl((v + k * PRIME64_2) % M64, 31, 64, M64) * PRIME64_1 % M64
  }

  function Round64(l: Lanes, b: seq<Byte>): Lanes
  {
    Lanes(Lane64(l.v1, ReadLE(b, 0, 8)), Lane64(l.v2, ReadLE(b, 8, 8)),
          Lane64(l.v3, ReadLE(b, 16, 8)), Lane64(l.v4, ReadLE(b, 24, 8)))
  }

  function MergeLane64(h: nat, v: nat): nat
  {
    (Xor(h, Lane64(0, v)) * PRIME64_1 + PRIME64_4) % M64
  }

  function Sum64(l: Lanes): nat
  {
    (Rotl(l.v1, 1, 64, M64) + Rotl(l.v2, 7, 64, M64) + Rotl(l.v3, 12, 64, M64) + Rotl(l.v4, 18, 64, M64)) % M64
  }

  function Merge64(l: Lanes): nat
  {
    MergeLane64(MergeLane64(MergeLane64(MergeLane64(Sum64(l), l.v1), l.v2), l.v3), l.v4)
  }

  function Small64(seed: nat): nat { (seed + PRIME64_5) % M64 }

  function AddLength64(h: nat, length: nat): nat { (h + length % M64) % M64 }

  function MixWord64(h: nat, b: seq<Byte>): nat
  {
    (Rotl(Xor(h, Lane64(0, ReadLE(b, 0, 8))), 27, 64, M64) * PRIME64_1 + PRIME64_4) % M64
  }

  function MixHalf64(h: nat, b: seq<Byte>): nat
  {
    (Rotl(Xor(h, ReadLE(b, 0, 4) * PRIME64_1 % M64), 23, 64, M64) * PRIME64_2 + PRIME64_3) % M64
  }

  function MixByte64(h: nat, b: Byte): nat
  {
    Rotl(Xor(h, b * PRIME64_5 % M64), 11, 64, M64) * PRIME64_1 % M64
  }

  function Avalanche64(h: nat): nat
  {
    var h1 := Xor(h, h / 0x2_0000_0000) * PRIME64_2 % M64;
    var h2 := Xor(h1, h1 / 0x2000_0000) * PRIME64_3 % M64;
    Xor(h2, h2 / 0x1_0000_0000)
  }

  function Algorithm64(): (a: Algorithm<Lanes>)
    ensures a.Ok() && a.block == 32
  {
    Algorithm(32, 8, 4, Start64, Round64, Merge64, Small64, AddLength64, MixWord64, MixHalf64, MixByte64, Avalanche64)
  }

  method Xxh64(input: seq<Byte>, seed: nat) returns (h: nat)
    ensures h == Algorithm64().Hash(seed, input)
  {
    h := OneShot(Algorithm64(), input, seed);
  }

  /** Streaming: after every chunk the digest is the one-shot hash of the bytes so far. */
  method Xxh64Stream(seed: nat, chunks: seq<seq<Byte>>) returns (digests: seq<nat>)
    requires |Concat(chunks)| < LENGTH_LIMIT
    ensures |digests| == |chunks| + 1
    ensures forall i :: 0 <= i <= |chunks| ==> digests[i] == Algorithm64().Hash(seed, Concat(chunks[..i]))
  {
    digests := Stream(Algorithm64(), seed, chunks);
  }
}
