/** What the steps of XXH32 and XXH64 compute: the order and number of the steps over every message,
    little-endian words, rotations, and that no step loses information. */
module XxLaws {
  import opened Bits
  import opened Common
  import opened Modular
  import opened PcgNumbers
  import opened XxStream
  import opened XxHash

  // -------------------------------------------------------------------------
  // Words and rotations
  // -------------------------------------------------------------------------

  /** Digit `i` of the word, in base 256, is byte `i`; the word has no more digits. */
  lemma {:induction false} ReadDigits(s: seq<Byte>, off: nat, n: nat, i: nat)
    requires off + n <= |s| && i < n
    ensures ReadLE(s, off, n) < Pow2(8 * n)
    ensures Quotient(ReadLE(s, off, n), Pow2(8 * i)) % 256 == s[off + i]
    decreases n
  {
    ReadBound(s, off, n);
    var rest := ReadLE(s, off + 1, n - 1);
    if i == 0 {
      assert Pow2(8 * i) == 1;
      DivModUnique(s[off] + 256 * rest, 256, rest, s[off]);
    } else {
      ReadDigits(s, off + 1, n - 1, i - 1);
      Pow2Values();
      Pow2Add(8, 8 * (i - 1));
      NextDigit(s[off], rest, Pow2(8 * (i - 1)));
    }
  }

  lemma NextDigit(b: Byte, rest: nat, p: nat)
    requires p > 0
    ensures (b + 256 * rest) / (256 * p) == rest / p
  {
    var q, r := rest / p, rest % p;
    assert b + 256 * rest == q * (256 * p) + (256 * r + b);
    DivModUnique(b + 256 * rest, 256 * p, q, 256 * r + b);
  }

  lemma {:induction false} ReadBound(s: seq<Byte>, off: nat, n: nat)
    requires off + n <= |s|
    ensures ReadLE(s, off, n) < Pow2(8 * n)
    decreases n
  {
    if n > 0 {
      ReadBound(s, off + 1, n - 1);
      EightMore(8 * (n - 1));
    }
  }

  lemma EightMore(k: nat)
    ensures Pow2(k + 8) == 256 * Pow2(k)
  {
    Pow2Values();
    Pow2Add(8, k);
  }

  /** The word taken apart at `q`, with its two parts swapped. */
  function Turn(x: nat, p: nat, q: nat): nat
    requires q > 0
  {
    (x % q) * p + x / q
  }

  /** A rotation takes the word apart at bit `width - r` and swaps the two parts. */
  lemma RotlSwaps(x: nat, r: nat, width: nat, p: nat, q: nat, m: nat)
    requires r <= width && p == Pow2(r) && q == Pow2(width - r) && m == Pow2(width) && x < m
    ensures p * q == m && Rotl(x, r, width, m) == Turn(x, p, q) && x / q < p
  {
    Pow2Add(r, width - r);
    RotParts(x, p, q);
    OrParts(Wrapped(x, p, m), Quotient(x, q), x % q, r);
  }

  lemma OrParts(high: nat, low: nat, k: nat, r: nat)
    requires high == k * Pow2(r) && low < Pow2(r)
    ensures Or(high, low) == high + low
  {
    OrDisjoint(low, k, r);
  }

  lemma RotParts(x: nat, p: nat, q: nat)
    requires p > 0 && q > 0 && x < p * q && p * q > 0
    ensures Wrapped(x, p, p * q) == (x % q) * p && x / q < p
  {
    var hi, lo := x / q, x % q;
    assert x == hi * q + lo;
    QuotientBelow(x, p, q);
    assert x * p == hi * (p * q) + lo * p by { Regroup(hi, lo, p, q); }
    ProductBelow(lo, q, p);
    DivModUnique(x * p, p * q, hi, lo * p);
  }

  lemma Regroup(hi: nat, lo: nat, p: nat, q: nat)
    ensures (hi * q + lo) * p == hi * (p * q) + lo * p
  {
    assert (hi * q) * p == hi * (p * q);
  }

  lemma ProductBelow(lo: nat, q: nat, p: nat)
    requires lo < q && p > 0
    ensures 0 <= lo * p < p * q
  {
    assert lo * p <= (q - 1) * p == q * p - p;
  }

  lemma QuotientBelow(x: nat, p: nat, q: nat)
    requires q > 0 && x < p * q
    ensures x / q < p
  {
  }

  /** Rotating left by `r` is multiplying by `2^r` modulo `2^width - 1`: turned back, it is the word. */
  lemma RotlLaw(x: nat, r: nat, width: nat)
    requires 0 < r < width && x < Pow2(width)
    ensures Pow2(width) - 1 > 0 && Rotl(x, r, width, Pow2(width)) < Pow2(width)
    ensures Cong(Rotl(x, r, width, Pow2(width)) * Pow2(width - r), x, Pow2(width) - 1)
  {
    var p, q, m := Pow2(r), Pow2(width - r), Pow2(width);
    Pow2Monotone(1, width);
    RotlSwaps(x, r, width, p, q, m);
    TurnLaw(x, p, q);
  }

  lemma TurnLaw(x: nat, p: nat, q: nat)
    requires p > 0 && q > 0 && p * q > 1 && x < p * q && x / q < p
    ensures Turn(x, p, q) < p * q && Cong(Turn(x, p, q) * q, x, p * q - 1)
  {
    var hi, lo, m := x / q, x % q, p * q;
    assert x == hi * q + lo;
    RotBelow(hi, lo, p, q);
    Regroup(lo, hi, q, p);
    assert q * p == m;
    assert lo * m + hi * q == x + lo * (m - 1);
    CongMul(x, lo, m - 1);
  }

  lemma RotBelow(hi: nat, lo: nat, p: nat, q: nat)
    requires hi < p && lo < q
    ensures lo * p + hi < p * q
  {
    assert lo * p <= (q - 1) * p == q * p - p;
  }

  // -------------------------------------------------------------------------
  // Order and number of the steps
  // -------------------------------------------------------------------------

  /** `mix` applied to the first `k` pieces of `w` bytes of `s`. */
  function Pieces<A>(mix: (A, seq<Byte>) -> A, h: A, s: seq<Byte>, w: nat, k: nat): A
    requires k * w <= |s|
  {
    if k == 0 then h
    else
      assert (k - 1) * w <= k * w == (k - 1) * w + w;
      mix(Pieces(mix, h, s, w, k - 1), s[(k - 1) * w..k * w])
  }

  /** `mix` applied to each byte of `s` in turn. */
  function Singles(mix: (nat, Byte) -> nat, h: nat, s: seq<Byte>): nat
  {
    if |s| == 0 then h else mix(Singles(mix, h, s[..|s| - 1]), s[|s| - 1])
  }

  lemma {:induction false} TailBytesIs<L>(a: Algorithm<L>, h: nat, s: seq<Byte>)
    ensures a.TailBytes(h, s) == Singles(a.mixByte, h, s)
    decreases |s|
  {
    if |s| > 0 {
      TailBytesIs(a, a.mixByte(h, s[0]), s[1..]);
      SinglesFront(a.mixByte, h, s);
    }
  }

  lemma {:induction false} SinglesFront(mix: (nat, Byte) -> nat, h: nat, s: seq<Byte>)
    requires |s| > 0
    ensures Singles(mix, h, s) == Singles(mix, mix(h, s[0]), s[1..])
    decreases |s|
  {
    var front, last := s[..|s| - 1], s[|s| - 1];
    if |s| == 1 {
      assert front == [] && s[1..] == [];
    } else {
      SinglesFront(mix, h, front);
      assert s[1..][..|s| - 2] == front[1..] && s[1..][|s| - 2] == last;
    }
  }

  /** The pieces after the first. */
  lemma {:induction false} PiecesFront<A>(mix: (A, seq<Byte>) -> A, h: A, s: seq<Byte>, w: nat, k: nat)
    requires w <= |s| && k * w <= |s| - w && (k + 1) * w <= |s|
    ensures Pieces(mix, h, s, w, k + 1) == Pieces(mix, mix(h, s[..w]), s[w..], w, k)
  {
    if k == 0 {
      assert s[0 * w..1 * w] == s[..w];
      assert Pieces(mix, h, s, w, 0) == h;
    } else {
      PieceBounds(k, w);
      PiecesFront(mix, h, s, w, k - 1);
      assert s[w..][(k - 1) * w..k * w] == s[k * w..(k + 1) * w];
    }
  }

  lemma PieceBounds(k: nat, w: nat)
    requires k > 0
    ensures 0 <= (k - 1) * w && k * w == (k - 1) * w + w && (k + 1) * w == k * w + w
  {
  }

  /** What is left over: whole words, then half a word if the hash has that step and there is one,
      then single bytes. */
  lemma {:induction false} TailIs<L>(a: Algorithm<L>, h: nat, s: seq<Byte>, k: nat, r: nat)
    requires a.Ok() && r < a.word && k * a.word + r == |s| && k * a.word <= |s|
    ensures var h' := Pieces(a.mixWord, h, s, a.word, k);
            var rest := s[k * a.word..];
            a.Tail(h, s) == if 0 < a.half <= r then Singles(a.mixByte, a.mixHalf(h', rest[..a.half]), rest[a.half..])
                            else Singles(a.mixByte, h', rest)
    decreases k
  {
    if k == 0 {
      assert s[0..] == s;
      if 0 < a.half <= |s| {
        TailBytesIs(a, a.mixHalf(h, s[..a.half]), s[a.half..]);
      } else {
        TailBytesIs(a, h, s);
      }
    } else {
      PieceBounds(k, a.word);
      TailIs(a, a.mixWord(h, s[..a.word]), s[a.word..], k - 1, r);
      PiecesFront(a.mixWord, h, s, a.word, k - 1);
      assert s[a.word..][(k - 1) * a.word..] == s[k * a.word..];
    }
  }

  lemma {:induction false} BlocksIs<L>(a: Algorithm<L>, l: L, s: seq<Byte>, k: nat)
    requires a.Ok() && k * a.block == |s|
    ensures a.Blocks(l, s) == Pieces(a.round, l, s, a.block, k)
    decreases k
  {
    if k > 0 {
      PieceBounds(k, a.block);
      var front, last := s[..(k - 1) * a.block], s[(k - 1) * a.block..];
      BlocksIs(a, l, front, k - 1);
      PiecesPrefix(a.round, l, front, s, a.block, k - 1);
      assert s == front + last && s[(k - 1) * a.block..k * a.block] == last;
      BlocksNext(a, l, front, last);
    }
  }

  lemma {:induction false} PiecesPrefix<A>(mix: (A, seq<Byte>) -> A, h: A, s: seq<Byte>, t: seq<Byte>, w: nat, k: nat)
    requires k * w <= |s| && s <= t
    ensures Pieces(mix, h, s, w, k) == Pieces(mix, h, t, w, k)
  {
    if k > 0 {
      PieceBounds(k, w);
      PiecesPrefix(mix, h, s, t, w, k - 1);
      assert s[(k - 1) * w..k * w] == t[(k - 1) * w..k * w];
    }
  }

  /** A message cut as a hash cuts it: whole blocks, whole words of what is left, half a word if the hash
      has that step and there is one, and single bytes. */
  datatype Cut = Cut(blocks: seq<Byte>, words: seq<Byte>, half: seq<Byte>, singles: seq<Byte>, r: nat, k: nat) {
    function Message(): seq<Byte> { blocks + words + half + singles }

    predicate For<L>(a: Algorithm<L>)
    {
      && |blocks| == r * a.block && |words| == k * a.word
      && |words| + |half| + |singles| < a.block && |half| + |singles| < a.word
      && (if 0 < a.half <= |half| + |singles| then |half| == a.half else |half| == 0)
    }
  }

  /** The hash of a cut message, in this order. */
  function Stepwise<L>(a: Algorithm<L>, seed: nat, c: Cut): nat
    requires c.For(a)
  {
    var n := |c.Message()|;
    var h0 := if c.r > 0 then a.merge(Pieces(a.round, a.start(seed), c.blocks, a.block, c.r)) else a.small(seed);
    var h1 := Pieces(a.mixWord, a.addLength(h0, n), c.words, a.word, c.k);
    var h2 := if c.half == [] then h1 else a.mixHalf(h1, c.half);
    a.avalanche(Singles(a.mixByte, h2, c.singles))
  }

  lemma HashStepwise<L>(a: Algorithm<L>, seed: nat, c: Cut)
    requires a.Ok() && c.For(a)
    ensures a.Hash(seed, c.Message()) == Stepwise(a, seed, c)
  {
    var msg, rest := c.Message(), c.words + c.half + c.singles;
    DivModUnique(|msg|, a.block, c.r, |rest|);
    assert msg[..|c.blocks|] == c.blocks && msg[|c.blocks|..] == rest;
    BlocksIs(a, a.start(seed), c.blocks, c.r);
    assert c.r == 0 <==> |msg| < a.block by { RoundsPositive(c.r, a.block, |rest|); }
    var h0 := if c.r > 0 then a.merge(a.Blocks(a.start(seed), c.blocks)) else a.small(seed);
    TailStepwise(a, a.addLength(h0, |msg|), c);
  }

  lemma RoundsPositive(r: nat, b: nat, rest: nat)
    requires rest < b
    ensures r == 0 <==> r * b + rest < b
  {
    if r > 0 { assert r * b == b + (r - 1) * b; }
  }

  lemma TailStepwise<L>(a: Algorithm<L>, h: nat, c: Cut)
    requires a.Ok() && c.For(a)
    ensures var h1 := Pieces(a.mixWord, h, c.words, a.word, c.k);
            var h2 := if c.half == [] then h1 else a.mixHalf(h1, c.half);
            a.Tail(h, c.words + c.half + c.singles) == Singles(a.mixByte, h2, c.singles)
  {
    var rest := c.words + c.half + c.singles;
    TailIs(a, h, rest, c.k, |c.half| + |c.singles|);
    PiecesPrefix(a.mixWord, h, c.words, rest, a.word, c.k);
    var left := rest[c.k * a.word..];
    assert left == c.half + c.singles;
    assert left[..|c.half|] == c.half && left[|c.half|..] == c.singles;
  }

  /** Every message has its cut: for XXH64 n / 32 rounds, (n % 32) / 8 words, a 4-byte word if and only if
      n % 8 >= 4, and n % 4 single bytes. */
  lemma Cut64(msg: seq<Byte>) returns (c: Cut)
    ensures c.For(Algorithm64()) && c.Message() == msg
    ensures c.r == |msg| / 32 && c.k == |msg| % 32 / 8 && |c.singles| == |msg| % 4
    ensures c.half != [] <==> |msg| % 8 >= 4
  {
    var n := |msg|;
    Counts64(n);
    var b, w := n / 32 * 32, n % 32 / 8 * 8;
    var h := if n % 8 >= 4 then 4 else 0;
    c := Cut(msg[..b], msg[b..b + w], msg[b + w..b + w + h], msg[b + w + h..], n / 32, n % 32 / 8);
  }

  lemma Counts64(n: nat)
    ensures n / 32 * 32 + n % 32 / 8 * 8 + n % 8 == n && n % 32 / 8 * 8 + n % 8 == n % 32
    ensures n % 8 == (if n % 8 >= 4 then 4 else 0) + n % 4
  {
    var a, b := n / 32, n % 32;
    var c, d := b / 8, b % 8;
    DivModUnique(n, 8, 4 * a + c, d);
    DivModUnique(n, 4, 8 * a + 2 * c + (if d >= 4 then 1 else 0), if d >= 4 then d - 4 else d);
  }

  /** XXH64 of every message, step by step: n / 32 rounds over the four lanes, which are then merged, or
      below 32 bytes the seed and a prime; the length; (n % 32) / 8 words; one 4-byte word if and only if
      n % 8 >= 4; n % 4 single bytes; the avalanche. */
  lemma Xxh64Is(seed: nat, msg: seq<Byte>) returns (c: Cut)
    ensures c.For(Algorithm64()) && c.Message() == msg
    ensures c.r == |msg| / 32 && c.k == |msg| % 32 / 8 && |c.singles| == |msg| % 4
    ensures c.half != [] <==> |msg| % 8 >= 4
    ensures Algorithm64().Hash(seed, msg) == Stepwise(Algorithm64(), seed, c)
  {
    c := Cut64(msg);
    HashStepwise(Algorithm64(), seed, c);
  }

  lemma Cut32(msg: seq<Byte>) returns (c: Cut)
    ensures c.For(Algorithm32()) && c.Message() == msg
    ensures c.r == |msg| / 16 && c.k == |msg| % 16 / 4 && |c.singles| == |msg| % 4 && c.half == []
  {
    var n := |msg|;
    Counts32(n);
    var b, w := n / 16 * 16, n % 16 / 4 * 4;
    c := Cut(msg[..b], msg[b..b + w], [], msg[b + w..], n / 16, n % 16 / 4);
  }

  lemma Counts32(n: nat)
    ensures n / 16 * 16 + n % 16 / 4 * 4 + n % 4 == n && n % 16 / 4 * 4 + n % 4 == n % 16
  {
    assert n % 16 % 4 == n % 4;
  }

  /** XXH32 of every message: n / 16 rounds, or below 16 bytes the seed and a prime; the length;
      (n % 16) / 4 words; n % 4 single bytes; the avalanche. */
  lemma Xxh32Is(seed: nat, msg: seq<Byte>) returns (c: Cut)
    ensures c.For(Algorithm32()) && c.Message() == msg
    ensures c.r == |msg| / 16 && c.k == |msg| % 16 / 4 && |c.singles| == |msg| % 4 && c.half == []
    ensures Algorithm32().Hash(seed, msg) == Stepwise(Algorithm32(), seed, c)
  {
    c := Cut32(msg);
    HashStepwise(Algorithm32(), seed, c);
  }
}
