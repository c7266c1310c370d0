/** The shape XXH32 and XXH64 share: four lanes over full blocks, then the bytes that are left. The
    one-shot code, the streaming state, and the proof that every way of cutting a message into
    chunks gives the one-shot hash. The arithmetic of the two hashes is a parameter. */
module XxStream {
  import opened Bits
  import opened Common

  /** Lengths are 64-bit. */
  const LENGTH_LIMIT := 0x1_0000_0000_0000_0000

  /** The arithmetic of one hash: block and word length in bytes, and its mixing steps. */
  datatype Algorithm<!L> = Algorithm(
    block: nat, word: nat, half: nat,
    start: nat -> L, round: (L, seq<Byte>) -> L, merge: L -> nat, small: nat -> nat, addLength: (nat, nat) -> nat,
    mixWord: (nat, seq<Byte>) -> nat, mixHalf: (nat, seq<Byte>) -> nat, mixByte: (nat, Byte) -> nat,
    avalanche: nat -> nat)
  {
    predicate Ok() { block > 0 && word > 0 }

    /** The lanes after all blocks of a message of full blocks. */
    function Blocks(l: L, s: seq<Byte>): L
      requires Ok()
      decreases |s|
    {
      if |s| < block then l else round(Blocks(l, s[..|s| - block]), s[|s| - block..])
    }

    /** Mixing in what is left: words, then half a word if the hash has that step, then bytes. */
    function Tail(h: nat, s: seq<Byte>): nat
      requires Ok()
      decreases |s|
    {
      if |s| >= word then Tail(mixWord(h, s[..word]), s[word..]) else TailHalf(h, s)
    }

    function TailHalf(h: nat, s: seq<Byte>): nat
    {
      if 0 < half <= |s| then TailBytes(mixHalf(h, s[..half]), s[half..]) else TailBytes(h, s)
    }

    function TailBytes(h: nat, s: seq<Byte>): nat
      decreases |s|
    {
      if |s| == 0 then h else TailBytes(mixByte(h, s[0]), s[1..])
    }

    function Finish(seed: nat, length: nat, l: L, rest: seq<Byte>): nat
      requires Ok()
    {
      var h := if length >= block then merge(l) else small(seed);
      avalanche(Tail(addLength(h, length), rest))
    }

    /** The hash as a function of the whole message. */
    function Hash(seed: nat, msg: seq<Byte>): nat
      requires Ok()
    {
      var full := |msg| - |msg| % block;
      assert 0 <= full <= |msg| by { ModLess(|msg|, block); }
      Finish(seed, |msg|, Blocks(start(seed), msg[..full]), msg[full..])
    }
  }

  lemma ModLess(n: nat, b: nat)
    requires b > 0
    ensures n % b <= n && n % b < b
  {
    if n < b { DivModUnique(n, b, 0, n); }
  }

  /** A few more bytes that do not complete a block. */
  lemma ModMore(n: nat, m: nat, b: nat)
    requires b > 0 && n % b + m < b
    ensures (n + m) % b == n % b + m
  {
    DivModUnique(n + m, b, n / b, n % b + m);
  }

  /** The bytes that complete a block. */
  lemma ModNext(n: nat, b: nat)
    requires b > 0
    ensures (n + (b - n % b)) % b == 0
  {
    var q := n / b;
    assert (q + 1) * b == q * b + b;
    DivModUnique(n + (b - n % b), b, q + 1, 0);
  }

  lemma BlocksNext<L>(a: Algorithm<L>, l: L, s: seq<Byte>, b: seq<Byte>)
    requires a.Ok() && |b| == a.block
    ensures a.Blocks(l, s + b) == a.round(a.Blocks(l, s), b)
  {
    var all := s + b;
    assert all[..|all| - a.block] == s && all[|all| - a.block..] == b;
  }

  // -------------------------------------------------------------------------
  // The one-shot code
  // -------------------------------------------------------------------------

  method MixTail<L>(a: Algorithm<L>, h0: nat, s: seq<Byte>) returns (h: nat)
    requires a.Ok()
    ensures h == a.Tail(h0, s)
  {
    h := h0;
    var p := 0;
    while p + a.word <= |s|
      invariant 0 <= p <= |s| && a.Tail(h, s[p..]) == a.Tail(h0, s)
    {
      assert s[p..][..a.word] == s[p..p + a.word] && s[p..][a.word..] == s[p + a.word..];
      h := a.mixWord(h, s[p..p + a.word]);
      p := p + a.word;
    }
    if a.half > 0 && p + a.half <= |s| {
      assert s[p..][..a.half] == s[p..p + a.half] && s[p..][a.half..] == s[p + a.half..];
      h := a.mixHalf(h, s[p..p + a.half]);
      p := p + a.half;
    }
    while p < |s|
      invariant 0 <= p <= |s| && a.TailBytes(h, s[p..]) == a.Tail(h0, s)
    {
      assert s[p..][0] == s[p] && s[p..][1..] == s[p + 1..];
      h := a.mixByte(h, s[p]);
      p := p + 1;
    }
  }

  /** The one-shot hash: a walk over the blocks, then over the rest. */
  method OneShot<L>(a: Algorithm<L>, input: seq<Byte>, seed: nat) returns (h: nat)
    requires a.Ok()
    ensures h == a.Hash(seed, input)
  {
    var p := 0;
    var l := a.start(seed);
    DivModUnique(0, a.block, 0, 0);
    if |input| >= a.block {
      var limit := |input| - a.block;
      while p <= limit
        invariant 0 <= p <= |input| && p % a.block == 0 && l == a.Blocks(a.start(seed), input[..p])
      {
        BlocksNext(a, a.start(seed), input[..p], input[p..p + a.block]);
        assert input[..p] + input[p..p + a.block] == input[..p + a.block];
        ModNext(p, a.block);
        l := a.round(l, input[p..p + a.block]);
        p := p + a.block;
      }
      h := a.merge(l);
    } else {
      h := a.small(seed);
    }
    ModMore(p, |input| - p, a.block);
    h := a.addLength(h, |input|);
    h := MixTail(a, h, input[p..]);
    h := a.avalanche(h);
  }

  // -------------------------------------------------------------------------
  // The streaming state
  // -------------------------------------------------------------------------

  /** The lanes hold all full blocks of the message, the buffer the rest. */
  ghost predicate Streams<L>(a: Algorithm<L>, seed: nat, l: L, rest: seq<Byte>, msg: seq<Byte>)
    requires a.Ok()
  {
    && |rest| == |msg| % a.block && |rest| <= |msg|
    && l == a.Blocks(a.start(seed), msg[..|msg| - |rest|])
    && rest == msg[|msg| - |rest|..]
  }

  class State<L> {
    const a: Algorithm<L>
    var totalLen: nat
    var seed: nat
    var lanes: L
    const mem: array<Byte>
    var memsize: nat
    ghost var msg: seq<Byte>

    ghost predicate Valid()
      reads this, mem
    {
      && a.Ok() && mem.Length == a.block && memsize < a.block
      && totalLen == |msg| < LENGTH_LIMIT
      && Streams(a, seed, lanes, mem[..memsize], msg)
    }

    constructor (a: Algorithm<L>, seed: nat)
      requires a.Ok()
      ensures fresh(mem) && this.a == a && Valid() && msg == [] && this.seed == seed
    {
      this.a := a;
      mem := new Byte[a.block](_ => 0);
      this.seed, totalLen, memsize, lanes, msg := seed, 0, 0, a.start(seed), [];
      DivModUnique(0, a.block, 0, 0);
    }

    method Reset(seed: nat)
      requires a.Ok() && mem.Length == a.block
      modifies this
      ensures Valid() && msg == [] && this.seed == seed
    {
      this.seed := seed;
      lanes := a.start(seed);
      totalLen, memsize, msg := 0, 0, [];
      DivModUnique(0, a.block, 0, 0);
    }

    /** Feeding a chunk appends it to the message. */
    method Update(input: seq<Byte>)
      requires Valid() && |msg| + |input| < LENGTH_LIMIT
      modifies this, mem
      ensures Valid() && msg == old(msg) + input && seed == old(seed)
    {
      totalLen := totalLen + |input|;
      if memsize + |input| < a.block {
        FillMore(a, seed, lanes, mem[..memsize], msg, input);
        CopyIn(input, 0, |input|, memsize);
        memsize := memsize + |input|;
      } else {
        var p := FillUp(input);
        p := EatBlocks(input, p);
        KeepRest(input, p);
      }
      msg := msg + input;
    }

    /** Buffering what is left after the last full block. */
    method KeepRest(input: seq<Byte>, p: nat)
      requires a.Ok() && mem.Length == a.block && memsize == 0
      requires p <= |input| < p + a.block && (|msg| + p) % a.block == 0
      requires lanes == a.Blocks(a.start(seed), (msg + input)[..|msg| + p])
      modifies this`memsize, mem
      ensures memsize < a.block && Streams(a, seed, lanes, mem[..memsize], msg + input)
    {
      Remainder(a, seed, lanes, msg, input, p);
      if p < |input| {
        CopyIn(input, p, |input|, 0);
        memsize := |input| - p;
      }
      assert mem[..memsize] == input[p..];
    }

    /** Completing and consuming the buffered block, if there is one. */
    method FillUp(input: seq<Byte>) returns (p: nat)
      requires a.Ok() && mem.Length == a.block && memsize < a.block <= memsize + |input|
      requires Streams(a, seed, lanes, mem[..memsize], msg)
      modifies this`lanes, this`memsize, mem
      ensures memsize == 0 && p <= |input| && (|msg| + p) % a.block == 0
      ensures lanes == a.Blocks(a.start(seed), (msg + input)[..|msg| + p])
    {
      p := 0;
      if memsize > 0 {
        p := a.block - memsize;
        FillBlock(a, seed, lanes, mem[..memsize], msg, input);
        CopyIn(input, 0, p, memsize);
        assert mem[..] == mem[..a.block];
        lanes := a.round(lanes, mem[..]);
        memsize := 0;
      } else {
        assert (msg + input)[..|msg|] == msg == msg[..|msg| - 0];
      }
    }

    /** Consuming full blocks straight from the input. */
    method EatBlocks(input: seq<Byte>, from: nat) returns (p: nat)
      requires a.Ok() && from <= |input| && (|msg| + from) % a.block == 0
      requires lanes == a.Blocks(a.start(seed), (msg + input)[..|msg| + from])
      modifies this`lanes
      ensures p <= |input| < p + a.block && (|msg| + p) % a.block == 0
      ensures lanes == a.Blocks(a.start(seed), (msg + input)[..|msg| + p])
    {
      p := from;
      while p + a.block <= |input|
        invariant p <= |input| && (|msg| + p) % a.block == 0
        invariant lanes == a.Blocks(a.start(seed), (msg + input)[..|msg| + p])
      {
        NextBlock(a, seed, msg, input, p);
        ModNext(|msg| + p, a.block);
        lanes := a.round(lanes, input[p..p + a.block]);
        p := p + a.block;
      }
    }

    /** Copying input bytes `lo..hi` into the buffer at `at`. */
    method CopyIn(input: seq<Byte>, lo: nat, hi: nat, at: nat)
      requires lo <= hi <= |input| && at + (hi - lo) <= mem.Length
      modifies mem
      ensures mem[..at + (hi - lo)] == old(mem[..at]) + input[lo..hi]
    {
      var k := 0;
      while k < hi - lo
        invariant 0 <= k <= hi - lo && mem[..at + k] == old(mem[..at]) + input[lo..lo + k]
      {
        mem[at + k] := input[lo + k];
        assert input[lo..lo + k + 1] == input[lo..lo + k] + [input[lo + k]];
        k := k + 1;
      }
    }

    /** The digest is the hash of everything fed so far, and leaves the state as it is. */
    method Digest() returns (h: nat)
      requires Valid()
      ensures h == a.Hash(seed, msg)
    {
      if totalLen >= a.block {
        h := a.merge(lanes);
      } else {
        h := a.small(seed);
      }
      h := a.addLength(h, totalLen);
      h := MixTail(a, h, mem[..memsize]);
      h := a.avalanche(h);
    }
  }

  /** A chunk that does not complete a block only joins the rest. */
  lemma FillMore<L>(a: Algorithm<L>, seed: nat, l: L, rest: seq<Byte>, msg: seq<Byte>, input: seq<Byte>)
    requires a.Ok() && Streams(a, seed, l, rest, msg) && |rest| + |input| < a.block
    ensures Streams(a, seed, l, rest + input, msg + input)
  {
    var all, full := msg + input, |msg| - |rest|;
    ModMore(|msg|, |input|, a.block);
    assert all[..full] == msg[..full] && all[full..] == msg[full..] + input;
  }

  /** The rest and the start of the chunk make a block. */
  lemma FillBlock<L>(a: Algorithm<L>, seed: nat, l: L, rest: seq<Byte>, msg: seq<Byte>, input: seq<Byte>)
    requires a.Ok() && Streams(a, seed, l, rest, msg) && |rest| < a.block <= |rest| + |input|
    ensures var p := a.block - |rest|;
            (|msg| + p) % a.block == 0
            && a.round(l, rest + input[..p]) == a.Blocks(a.start(seed), (msg + input)[..|msg| + p])
  {
    var p, full := a.block - |rest|, |msg| - |rest|;
    ModNext(|msg|, a.block);
    BlocksNext(a, a.start(seed), msg[..full], rest + input[..p]);
    assert msg[..full] + (rest + input[..p]) == (msg + input)[..|msg| + p];
  }

  lemma NextBlock<L>(a: Algorithm<L>, seed: nat, msg: seq<Byte>, input: seq<Byte>, p: nat)
    requires a.Ok() && p + a.block <= |input|
    ensures var all := msg + input;
            a.Blocks(a.start(seed), all[..|msg| + p + a.block])
            == a.round(a.Blocks(a.start(seed), all[..|msg| + p]), input[p..p + a.block])
  {
    var all := msg + input;
    BlocksNext(a, a.start(seed), all[..|msg| + p], input[p..p + a.block]);
    assert all[..|msg| + p] + input[p..p + a.block] == all[..|msg| + p + a.block];
  }

  lemma Remainder<L>(a: Algorithm<L>, seed: nat, l: L, msg: seq<Byte>, input: seq<Byte>, p: nat)
    requires a.Ok() && p <= |input| < p + a.block && (|msg| + p) % a.block == 0
    requires l == a.Blocks(a.start(seed), (msg + input)[..|msg| + p])
    ensures Streams(a, seed, l, input[p..], msg + input)
  {
    var all := msg + input;
    ModMore(|msg| + p, |input| - p, a.block);
    assert |all| == |msg| + p + (|input| - p);
    assert all[|msg| + p..] == input[p..];
  }

  // -------------------------------------------------------------------------
  // Every way of cutting a message
  // -------------------------------------------------------------------------

  function Concat(chunks: seq<seq<Byte>>): seq<Byte>
  {
    if |chunks| == 0 then [] else Concat(chunks[..|chunks| - 1]) + chunks[|chunks| - 1]
  }

  lemma {:induction false} PrefixLength(chunks: seq<seq<Byte>>, i: nat)
    requires i <= |chunks|
    ensures |Concat(chunks[..i])| <= |Concat(chunks)|
    decreases |chunks| - i
  {
    if i < |chunks| {
      PrefixLength(chunks, i + 1);
      assert chunks[..i + 1][..i] == chunks[..i];
    } else {
      assert chunks[..i] == chunks;
    }
  }

  /** Reset, any number of updates, digest: the hash of the concatenation, for every way of cutting
      the message. A digest after each update is the hash of the chunks so far. */
  method Stream<L>(a: Algorithm<L>, seed: nat, chunks: seq<seq<Byte>>) returns (digests: seq<nat>)
    requires a.Ok() && |Concat(chunks)| < LENGTH_LIMIT
    ensures |digests| == |chunks| + 1
    ensures forall i :: 0 <= i <= |chunks| ==> digests[i] == a.Hash(seed, Concat(chunks[..i]))
  {
    var state := new State(a, seed);
    var h := state.Digest();
    digests := [h];
    var i := 0;
    while i < |chunks|
      invariant 0 <= i <= |chunks| && state.Valid() && state.seed == seed && state.a == a
      invariant fresh(state) && fresh(state.mem) && state.msg == Concat(chunks[..i])
      invariant |digests| == i + 1 && Digested(a, seed, chunks, digests)
    {
      assert chunks[..i + 1][..i] == chunks[..i];
      PrefixLength(chunks, i + 1);
      state.Update(chunks[i]);
      h := state.Digest();
      DigestedNext(a, seed, chunks, digests, h);
      digests := digests + [h];
      i := i + 1;
    }
  }

  /** Entry `j` is the hash of the first `j` chunks. */
  ghost predicate Digested<L>(a: Algorithm<L>, seed: nat, chunks: seq<seq<Byte>>, digests: seq<nat>)
    requires a.Ok()
  {
    && |digests| <= |chunks| + 1
    && forall j :: 0 <= j < |digests| ==> digests[j] == a.Hash(seed, Concat(chunks[..j]))
  }

  lemma DigestedNext<L>(a: Algorithm<L>, seed: nat, chunks: seq<seq<Byte>>, digests: seq<nat>, h: nat)
    requires a.Ok() && Digested(a, seed, chunks, digests) && |digests| <= |chunks|
    requires h == a.Hash(seed, Concat(chunks[..|digests|]))
    ensures Digested(a, seed, chunks, digests + [h])
  {
  }
}
