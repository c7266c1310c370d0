/** `rte_memcpy`: a copy made of 16- to 256-byte moves, some of them overlapping the bytes already
    copied. Memory is one array; the two buffers are disjoint ranges of it. */
module RteMemcpy {
  import opened Bits
  import opened Common

  /** Memory `now` is `orig` with the first `p` bytes of the source range copied to the destination,
      and every other byte as it was. */
  ghost predicate Copied(orig: seq<Byte>, now: seq<Byte>, d: nat, s: nat, p: nat)
    requires d + p <= |orig| && s + p <= |orig|
  {
    |now| == |orig| && forall i :: 0 <= i < |now| ==> now[i] == Wanted(orig, d, s, p, i)
  }

  /** What byte `i` must be once `p` bytes are copied. */
  ghost function Wanted(orig: seq<Byte>, d: nat, s: nat, p: nat, i: nat): Byte
    requires d + p <= |orig| && s + p <= |orig| && i < |orig|
  {
    if d <= i < d + p then orig[s + (i - d)] else orig[i]
  }

  predicate Apart(d: nat, s: nat, n: nat) { d + n <= s || s + n <= d }

  /** `rte_mov16` to `rte_mov128` and the scalar moves: all `k` bytes are loaded, then stored. */
  method Mov(mem: array<Byte>, dst: nat, src: nat, k: nat)
    requires dst + k <= mem.Length && src + k <= mem.Length
    modifies mem
    ensures forall i :: 0 <= i < mem.Length ==>
              mem[i] == if dst <= i < dst + k then old(mem[src + (i - dst)]) else old(mem[i])
  {
    forall i | dst <= i < dst + k {
      mem[i] := mem[src + (i - dst)];
    }
  }

  /** A move that starts at or before the first byte still missing extends what is copied, and
      writes only inside the destination range of `n` bytes. */
  method Extend(mem: array<Byte>, dst: nat, src: nat, k: nat,
                ghost orig: seq<Byte>, ghost d: nat, ghost s: nat, ghost n: nat, ghost p: nat)
    requires |orig| == mem.Length && d + n <= |orig| && s + n <= |orig| && Apart(d, s, n)
    requires p <= n && Copied(orig, mem[..], d, s, p)
    requires d <= dst && src - s == dst - d && dst - d <= p <= dst - d + k <= n
    modifies mem
    ensures Copied(orig, mem[..], d, s, dst - d + k)
  {
    ghost var was := mem[..];
    Mov(mem, dst, src, k);
    SourceIntact(orig, was, d, s, n, p);
    forall i | 0 <= i < mem.Length
      ensures mem[i] == Wanted(orig, d, s, dst - d + k, i)
    {
      if dst <= i < dst + k {
        assert mem[i] == was[src + (i - dst)] && src + (i - dst) == s + (i - d);
      } else {
        assert mem[i] == was[i];
      }
    }
  }

  /** The source range is never written. */
  lemma SourceIntact(orig: seq<Byte>, was: seq<Byte>, d: nat, s: nat, n: nat, p: nat)
    requires d + n <= |orig| && s + n <= |orig| && Apart(d, s, n) && p <= n && Copied(orig, was, d, s, p)
    ensures forall j :: s <= j < s + n ==> was[j] == orig[j]
  {
  }

  /** `rte_mov256` is two moves of 128 bytes. */
  method Mov256(mem: array<Byte>, dst: nat, src: nat,
                ghost orig: seq<Byte>, ghost d: nat, ghost s: nat, ghost n: nat, ghost p: nat)
    requires |orig| == mem.Length && d + n <= |orig| && s + n <= |orig| && Apart(d, s, n)
    requires p + 256 <= n && Copied(orig, mem[..], d, s, p) && dst == d + p && src == s + p
    modifies mem
    ensures Copied(orig, mem[..], d, s, p + 256)
  {
    Extend(mem, dst, src, 128, orig, d, s, n, p);
    Extend(mem, dst + 128, src + 128, 128, orig, d, s, n, p + 128);
  }

  /** The whole copy: exactly bytes `0..n` of the source reach the destination, for every `n`. */
  method Memcpy(mem: array<Byte>, dst0: nat, src0: nat, n0: nat) returns (ret: nat)
    requires dst0 + n0 <= mem.Length && src0 + n0 <= mem.Length && Apart(dst0, src0, n0)
    modifies mem
    ensures ret == dst0
    ensures mem[..] == old(mem[..dst0]) + old(mem[src0..src0 + n0]) + old(mem[dst0 + n0..])
  {
    ghost var orig := mem[..];
    if n0 < 16 {
      Small(mem, dst0, src0, n0, orig);
    } else if n0 <= 32 {
      Extend(mem, dst0, src0, 16, orig, dst0, src0, n0, 0);
      Extend(mem, dst0 - 16 + n0, src0 - 16 + n0, 16, orig, dst0, src0, n0, 16);
    } else if n0 <= 64 {
      Extend(mem, dst0, src0, 32, orig, dst0, src0, n0, 0);
      Extend(mem, dst0 - 32 + n0, src0 - 32 + n0, 32, orig, dst0, src0, n0, 32);
    } else if n0 <= 128 {
      Extend(mem, dst0, src0, 64, orig, dst0, src0, n0, 0);
      Extend(mem, dst0 - 64 + n0, src0 - 64 + n0, 64, orig, dst0, src0, n0, 64);
    } else {
      Large(mem, dst0, src0, n0, orig);
    }
    CopiedAll(orig, mem[..], dst0, src0, n0);
    return dst0;
  }

  lemma CopiedAll(orig: seq<Byte>, now: seq<Byte>, d: nat, s: nat, n: nat)
    requires d + n <= |orig| && s + n <= |orig| && Copied(orig, now, d, s, n)
    ensures now == orig[..d] + orig[s..s + n] + orig[d + n..]
  {
    var all := orig[..d] + orig[s..s + n] + orig[d + n..];
    forall i | 0 <= i < |orig| ensures now[i] == all[i] {
      if d <= i < d + n {
        assert all[i] == orig[s..s + n][i - d] == orig[s + (i - d)];
      } else if i >= d + n {
        assert all[i] == orig[d + n..][i - d - n];
      }
    }
  }

  /** Fewer than 16 bytes: one scalar move per bit of the length. */
  method Small(mem: array<Byte>, d: nat, s: nat, n: nat, ghost orig: seq<Byte>)
    requires orig == mem[..] && d + n <= |orig| && s + n <= |orig| && Apart(d, s, n) && n < 16
    modifies mem
    ensures Copied(orig, mem[..], d, s, n)
  {
    LengthBits(n);
    var dst, src := d, s;
    if And(n, 1) != 0 {
      Extend(mem, dst, src, 1, orig, d, s, n, dst - d);
      dst, src := dst + 1, src + 1;
    }
    if And(n, 2) != 0 {
      Extend(mem, dst, src, 2, orig, d, s, n, dst - d);
      dst, src := dst + 2, src + 2;
    }
    if And(n, 4) != 0 {
      Extend(mem, dst, src, 4, orig, d, s, n, dst - d);
      dst, src := dst + 4, src + 4;
    }
    if And(n, 8) != 0 {
      Extend(mem, dst, src, 8, orig, d, s, n, dst - d);
    }
  }

  lemma LengthBits(n: nat)
    requires n < 16
    ensures n == (if And(n, 1) != 0 then 1 else 0) + (if And(n, 2) != 0 then 2 else 0)
                 + (if And(n, 4) != 0 then 4 else 0) + (if And(n, 8) != 0 then 8 else 0)
  {
    AndBit(n, 0);
    AndBit(n, 1);
    AndBit(n, 2);
    AndBit(n, 3);
    assert Pow2(0) == 1 && Pow2(1) == 2 && Pow2(2) == 4 && Pow2(3) == 8;
  }

  /** More than 128 bytes: 256-byte moves, then up to three of 64, then up to three of 16, then a
      last move of 16 bytes that ends exactly at the end. */
  method Large(mem: array<Byte>, d: nat, s: nat, n0: nat, ghost orig: seq<Byte>)
    requires orig == mem[..] && d + n0 <= |orig| && s + n0 <= |orig| && Apart(d, s, n0) && n0 > 128
    modifies mem
    ensures Copied(orig, mem[..], d, s, n0)
  {
    var dst, src, n := d, s, n0;
    while n >= 256
      invariant n <= n0 && dst == d + (n0 - n) && src == s + (n0 - n) && (n0 - n) % 256 == 0
      invariant Copied(orig, mem[..], d, s, n0 - n)
    {
      Mov256(mem, dst, src, orig, d, s, n0, n0 - n);
      n, dst, src := n - 256, dst + 256, src + 256;
    }
    n := Chunks(mem, d, s, n0, n, 64, orig);
    n := Chunks(mem, d, s, n0, n, 16, orig);
    if n != 0 {
      Extend(mem, d + (n0 - n) - 16 + n, s + (n0 - n) - 16 + n, 16, orig, d, s, n0, n0 - n);
    }
  }

  /** `switch (3 - n / k)` with fall-through: the case taken runs all later cases too, which is one
      move of `k` bytes for each whole `k` in `n`. */
  method Chunks(mem: array<Byte>, d: nat, s: nat, n0: nat, n: nat, k: nat, ghost orig: seq<Byte>) returns (m: nat)
    requires |orig| == mem.Length && d + n0 <= |orig| && s + n0 <= |orig| && Apart(d, s, n0)
    requires k > 0 && n <= n0 && n < 4 * k && Copied(orig, mem[..], d, s, n0 - n)
    modifies mem
    ensures m == n % k && Copied(orig, mem[..], d, s, n0 - m)
  {
    m := n;
    ChunkCount(n, k);
    var selector := 3 - n / k;
    if selector == 0 {
      Extend(mem, d + (n0 - m), s + (n0 - m), k, orig, d, s, n0, n0 - m);
      m := m - k;
    }
    if selector <= 1 {
      Extend(mem, d + (n0 - m), s + (n0 - m), k, orig, d, s, n0, n0 - m);
      m := m - k;
    }
    if selector <= 2 {
      Extend(mem, d + (n0 - m), s + (n0 - m), k, orig, d, s, n0, n0 - m);
      m := m - k;
    }
  }

  lemma ChunkCount(n: nat, k: nat)
    requires k > 0 && n < 4 * k
    ensures 0 <= n / k <= 3
    ensures n / k == 0 ==> n % k == n
    ensures n / k == 1 ==> k <= n && n % k == n - k
    ensures n / k == 2 ==> 2 * k <= n && n % k == n - 2 * k
    ensures n / k == 3 ==> 3 * k <= n && n % k == n - 3 * k
  {
    if n < k { DivModUnique(n, k, 0, n); }
    else if n < 2 * k { DivModUnique(n, k, 1, n - k); }
    else if n < 3 * k { DivModUnique(n, k, 2, n - 2 * k); }
    else { DivModUnique(n, k, 3, n - 3 * k); }
  }
}
