/** Byte patterns of the DFC multi-pattern matcher: case handling, where a pattern
    occurs in a payload, and the window variants a pattern is filed under. */
module DfcPattern {
  import opened Bits
  import opened Common

  predicate IsUpper(c: Byte) { 65 <= c <= 90 }

  predicate IsLower(c: Byte) { 97 <= c <= 122 }

  /** `tolower` in the C locale. */
  function ToLower(c: Byte): Byte { if IsUpper(c) then c + 32 else c }

  /** `toupper` in the C locale, the table `xlatcase`. */
  function ToUpper(c: Byte): Byte { if IsLower(c) then c - 32 else c }

  /** A registered pattern: `bytes` is `casepatrn`, `sids` the external ids. The upper-case
      copy `patrn` is `ToUpper` of each byte. */
  datatype Pattern = Pattern(bytes: seq<Byte>, nocase: bool, sids: seq<nat>) {

    /** The byte `v` matches the pattern's byte `j`. */
    predicate Fits(v: Byte, j: nat)
      requires j < |bytes|
    {
      if nocase then ToLower(v) == ToLower(bytes[j]) else v == bytes[j]
    }

    /** The bytes `w` match the pattern's bytes from `off` on. */
    predicate FitsWindow(off: nat, w: seq<Byte>)
      requires off + |w| <= |bytes|
    {
      forall k :: 0 <= k < |w| ==> Fits(w[k], off + k)
    }

    /** Naive search: the pattern occurs in `buf` at `s`. */
    predicate Occurs(buf: seq<Byte>, s: nat)
    {
      s + |bytes| <= |buf| && FitsWindow(0, buf[s..s + |bytes|])
    }

    /** Where in the pattern the window lies that the filters look at. */
    function Anchor(): (a: nat)
      requires |bytes| > 0
      ensures a < |bytes| && (|bytes| > 1 ==> a + 2 <= |bytes|) && (|bytes| >= 4 ==> a + 4 <= |bytes|)
      ensures |bytes| >= 8 ==> a + 8 == |bytes|
    {
      if |bytes| == 1 then 0 else if |bytes| < 4 then |bytes| - 2 else if |bytes| < 8 then |bytes| - 4 else |bytes| - 8
    }

    /** One byte of a window variant, `Build_pattern`. */
    function Build(flag: bool, j: nat): (v: Byte)
      requires j < |bytes|
      ensures Fits(v, j)
    {
      if nocase then
        var u := ToUpper(bytes[j]);
        if IsUpper(u) || IsLower(u) then (if flag then ToUpper(u) else ToLower(u)) else u
      else bytes[j]
    }

    /** The two choices of the flag reach every byte that fits. */
    lemma BuildReaches(v: Byte, j: nat)
      requires j < |bytes| && Fits(v, j)
      ensures Build(true, j) == v || Build(false, j) == v
    {
    }

    /** The window variant numbered `alpha`: bit `m - 1 - k` chooses the case of byte `k`. */
    function Window(off: nat, m: nat, alpha: nat): (w: seq<Byte>)
      requires off + m <= |bytes|
      ensures |w| == m
      decreases m
    {
      if m == 0 then [] else Window(off, m - 1, alpha / 2) + [Build(alpha % 2 == 1, off + m - 1)]
    }

    lemma {:induction false} WindowFits(off: nat, m: nat, alpha: nat)
      requires off + m <= |bytes|
      ensures FitsWindow(off, Window(off, m, alpha))
      decreases m
    {
      if m > 0 {
        WindowFits(off, m - 1, alpha / 2);
      }
    }

    /** The variants numbered below `2^m` are all the windows that fit. */
    lemma {:induction false} WindowReaches(off: nat, w: seq<Byte>) returns (alpha: nat)
      requires off + |w| <= |bytes| && FitsWindow(off, w)
      ensures alpha < Pow2(|w|) && Window(off, |w|, alpha) == w
      decreases |w|
    {
      if |w| == 0 {
        alpha := 0;
      } else {
        var m := |w| - 1;
        var high := WindowReaches(off, w[..m]);
        BuildReaches(w[m], off + m);
        var flag := Build(true, off + m) == w[m];
        alpha := if flag then 2 * high + 1 else 2 * high;
        WindowNext(off, m, high, flag);
        assert w == w[..m] + [w[m]];
      }
    }

    /** One more byte of a window is one more bit of its number. */
    lemma WindowNext(off: nat, m: nat, high: nat, flag: bool)
      requires off + m < |bytes| && high < Pow2(m)
      ensures var alpha := if flag then 2 * high + 1 else 2 * high;
              alpha < Pow2(m + 1) && Window(off, m + 1, alpha) == Window(off, m, high) + [Build(flag, off + m)]
    {
      var alpha := if flag then 2 * high + 1 else 2 * high;
      assert alpha / 2 == high && (alpha % 2 == 1 <==> flag);
    }
  }

  // -------------------------------------------------------------------------
  // What case folding means, letter by letter
  // -------------------------------------------------------------------------

  const UPPERS := "ABCDEFGHIJKLMNOPQRSTUVWXYZ"
  const LOWERS := "abcdefghijklmnopqrstuvwxyz"

  /** One byte is letter `k` of the alphabet in upper case, the other in lower case. */
  predicate LetterPair(u: Byte, v: Byte, k: nat)
    requires k < 26
  {
    || (u == UPPERS[k] as int && v == LOWERS[k] as int)
    || (u == LOWERS[k] as int && v == UPPERS[k] as int)
  }

  /** The same byte, or the two cases of one letter. */
  ghost predicate SameLetter(u: Byte, v: Byte)
  {
    u == v || exists k: nat | k < 26 :: LetterPair(u, v, k)
  }

  lemma Alphabet(k: nat)
    requires k < 26
    ensures UPPERS[k] as int == 65 + k && LOWERS[k] as int == 97 + k
  {
  }

  /** Folding identifies exactly the two cases of each letter. */
  lemma FoldsLetters(u: Byte, v: Byte)
    ensures ToLower(u) == ToLower(v) <==> SameLetter(u, v)
    ensures ToUpper(u) == ToUpper(v) <==> SameLetter(u, v)
  {
    forall k: nat | k < 26 ensures UPPERS[k] as int == 65 + k && LOWERS[k] as int == 97 + k {
      Alphabet(k);
    }
    if u != v && ToLower(u) == ToLower(v) {
      assert LetterPair(u, v, ToLower(u) - 97);
    }
    if u != v && ToUpper(u) == ToUpper(v) {
      assert LetterPair(u, v, ToUpper(u) - 65);
    }
  }

  /** The bytes are the same up to the case of letters. */
  ghost predicate CaseVariant(v: seq<Byte>, w: seq<Byte>)
  {
    |v| == |w| && forall k :: 0 <= k < |v| ==> SameLetter(v[k], w[k])
  }

  /** What a pattern matches: exactly its bytes, or any case variant of them if it is `nocase`. */
  lemma FitsIff(p: Pattern, w: seq<Byte>)
    requires |w| == |p.bytes|
    ensures p.FitsWindow(0, w) <==> if p.nocase then CaseVariant(w, p.bytes) else w == p.bytes
  {
    forall k | 0 <= k < |w| ensures p.Fits(w[k], 0 + k) <==> if p.nocase then SameLetter(w[k], p.bytes[k])
                                                            else w[k] == p.bytes[k] {
      FoldsLetters(w[k], p.bytes[k]);
    }
    if p.FitsWindow(0, w) {
      forall k | 0 <= k < |w| ensures p.Fits(w[k], k) { assert p.Fits(w[k], 0 + k); }
    }
  }

  /** The value of a byte window loaded as a little-endian word. */
  function Fragment(w: seq<Byte>): nat
  {
    if |w| == 0 then 0 else w[0] + 256 * Fragment(w[1..])
  }

  lemma {:induction false} FragmentInjective(v: seq<Byte>, w: seq<Byte>)
    requires |v| == |w| && Fragment(v) == Fragment(w)
    ensures v == w
  {
    if |v| > 0 {
      assert Fragment(v) % 256 == v[0] && Fragment(w) % 256 == w[0];
      FragmentInjective(v[1..], w[1..]);
      assert v == [v[0]] + v[1..] && w == [w[0]] + w[1..];
    }
  }

  lemma Fragment2(w: seq<Byte>)
    requires |w| == 2
    ensures Fragment(w) == (w[0] as int) + 256 * (w[1] as int) < 0x1_0000
  {
    assert Fragment(w[1..]) == w[1] + 256 * Fragment(w[1..][1..]);
  }

  /** Comparing the payload with the first `n` bytes of a pattern, honouring its case flag. */
  method Compare(buf: seq<Byte>, at: nat, p: Pattern, n: nat) returns (equal: bool)
    requires n <= |p.bytes| && at + n <= |buf|
    ensures equal <==> p.FitsWindow(0, buf[at..at + n])
  {
    var i := 0;
    while i < n
      invariant 0 <= i <= n
      invariant p.FitsWindow(0, buf[at..at + i])
    {
      assert buf[at..at + i + 1] == buf[at..at + i] + [buf[at + i]];
      if p.nocase {
        if ToLower(buf[at + i]) != ToLower(p.bytes[i]) {
          assert buf[at..at + n][i] == buf[at + i];
          return false;
        }
      } else {
        if buf[at + i] != p.bytes[i] {
          assert buf[at..at + n][i] == buf[at + i];
          return false;
        }
      }
      i := i + 1;
    }
    return true;
  }
}
