/** The invertible output permutation `rxs_m_xs` and its inverse, at every word width.
    A word is its sequence of bits, least significant first. */
module PcgOutput {
  import opened Bits
  import opened Modular

  type Word = seq<bool>

  // ---------------------------------------------------------------- words

  function XorW(x: Word, y: Word): (r: Word)
    requires |x| == |y|
    ensures |r| == |x|
  {
    seq(|x|, i requires 0 <= i < |x| => x[i] != y[i])
  }

  function AndW(x: Word, y: Word): (r: Word)
    requires |x| == |y|
    ensures |r| == |x|
  {
    seq(|x|, i requires 0 <= i < |x| => x[i] && y[i])
  }

  function OrW(x: Word, y: Word): (r: Word)
    requires |x| == |y|
    ensures |r| == |x|
  {
    seq(|x|, i requires 0 <= i < |x| => x[i] || y[i])
  }

  function Not(x: Word): (r: Word)
    ensures |r| == |x|
  {
    seq(|x|, i requires 0 <= i < |x| => !x[i])
  }

  function Shr(x: Word, s: nat): (r: Word)
    ensures |r| == |x|
  {
    seq(|x|, i requires 0 <= i < |x| => i + s < |x| && x[i + s])
  }

  /** `(1 << k) - 1`. */
  function LowMask(w: nat, k: nat): (r: Word)
    ensures |r| == w
  {
    seq(w, i => i < k)
  }

  function ToNat(x: Word): nat
  {
    if x == [] then 0 else (if x[0] then 1 else 0) + 2 * ToNat(x[1..])
  }

  function FromNat(n: nat, w: nat): (r: Word)
    ensures |r| == w
  {
    if w == 0 then [] else [n % 2 == 1] + FromNat(n / 2, w - 1)
  }

  lemma {:induction false} ToNatBound(x: Word)
    ensures ToNat(x) < Pow2(|x|)
  {
    if x != [] { ToNatBound(x[1..]); }
  }

  lemma {:induction false} FromTo(x: Word)
    ensures FromNat(ToNat(x), |x|) == x
  {
    if x != [] {
      FromTo(x[1..]);
      assert ToNat(x) / 2 == ToNat(x[1..]);
    }
  }

  lemma {:induction false} ToFrom(n: nat, w: nat)
    requires n < Pow2(w)
    ensures ToNat(FromNat(n, w)) == n
  {
    if w > 0 {
      ToFrom(n / 2, w - 1);
      assert FromNat(n, w)[1..] == FromNat(n / 2, w - 1);
    }
  }

  /** `(1 << k) - 1`, as a number. */
  function LowMaskN(k: nat): nat { Pow2(k) - 1 }

  /** The low mask is the number the source computes for it. */
  lemma {:induction false} LowMaskValue(w: nat, k: nat)
    requires k <= w
    ensures ToNat(LowMask(w, k)) == LowMaskN(k)
  {
    if w > 0 {
      if k == 0 {
        LowMaskValue(w - 1, 0);
        assert LowMask(w, 0)[1..] == LowMask(w - 1, 0);
      } else {
        LowMaskValue(w - 1, k - 1);
        assert LowMask(w, k)[1..] == LowMask(w - 1, k - 1);
      }
    }
  }

  // ---------------------------------------------------------------- xorshift and its inverse

  function Xorshift(x: Word, s: nat): (r: Word)
    ensures |r| == |x|
  {
    XorW(x, Shr(x, s))
  }

  /** `top1`. */
  function Top(x: Word, bits: nat, shift: nat): (r: Word)
    requires 2 * shift < bits
    ensures |r| == |x|
  {
    AndW(Xorshift(x, shift), Not(LowMask(|x|, bits - 2 * shift)))
  }

  /** `top | (y & lowmask)`. */
  function Merged(top: Word, y: Word, k: nat): (r: Word)
    requires |top| == |y|
    ensures |r| == |y|
  {
    OrW(top, AndW(y, LowMask(|y|, k)))
  }

  /** The argument of the recursive call. */
  function Bottom(x: Word, bits: nat, shift: nat): (r: Word)
    requires 2 * shift < bits
    ensures |r| == |x|
  {
    AndW(Merged(Top(x, bits, shift), x, bits - 2 * shift), LowMask(|x|, bits - shift))
  }

  function Unxorshift(x: Word, bits: nat, shift: nat): (r: Word)
    requires 1 <= shift
    ensures |r| == |x|
    decreases bits
  {
    if 2 * shift >= bits then
      Xorshift(x, shift)
    else
      Merged(Top(x, bits, shift), Unxorshift(Bottom(x, bits, shift), bits - shift, shift), bits - 2 * shift)
  }

  ghost predicate Fits(x: Word, bits: nat)
  {
    forall i :: bits <= i < |x| ==> !x[i]
  }

  /** `unxorshift` inverts `x ^ (x >> s)` for every width and every shift. */
  lemma {:induction false} UnxorshiftInverts(x: Word, bits: nat, shift: nat)
    requires 1 <= shift && Fits(x, bits)
    ensures Unxorshift(Xorshift(x, shift), bits, shift) == x
    decreases bits
  {
    if 2 * shift >= bits {
      ShiftedTwice(x, bits, shift);
    } else {
      TopRecovered(x, bits, shift);
      BottomIsXorshift(x, bits, shift);
      UnxorshiftInverts(AndW(x, LowMask(|x|, bits - shift)), bits - shift, shift);
      Reassembled(x, bits, shift);
    }
  }

  /** A shift of half the bits or more is its own inverse. */
  lemma ShiftedTwice(x: Word, bits: nat, shift: nat)
    requires 1 <= shift && 2 * shift >= bits && Fits(x, bits)
    ensures Xorshift(Xorshift(x, shift), shift) == x
  {
  }

  lemma Reassembled(x: Word, bits: nat, shift: nat)
    requires 1 <= shift && 2 * shift < bits
    ensures var k := bits - 2 * shift;
            Merged(AndW(x, Not(LowMask(|x|, k))), AndW(x, LowMask(|x|, bits - shift)), k) == x
  {
  }

  /** A second shift recovers the bits from `bits - 2 * shift` up. */
  lemma TopRecovered(x: Word, bits: nat, shift: nat)
    requires 1 <= shift && 2 * shift < bits && Fits(x, bits)
    ensures Top(Xorshift(x, shift), bits, shift) == AndW(x, Not(LowMask(|x|, bits - 2 * shift)))
  {
  }

  /** With the top recovered, the low `bits - shift` bits are those of a smaller instance. */
  lemma BottomIsXorshift(x: Word, bits: nat, shift: nat)
    requires 1 <= shift && 2 * shift < bits && Fits(x, bits)
    ensures Bottom(Xorshift(x, shift), bits, shift) == Xorshift(AndW(x, LowMask(|x|, bits - shift)), shift)
  {
    TopRecovered(x, bits, shift);
  }

  // ---------------------------------------------------------------- rxs_m_xs

  function Times(x: Word, k: nat): (r: Word)
    ensures |r| == |x|
  {
    FromNat((ToNat(x) * k) % Pow2(|x|), |x|)
  }

  function OpBits(bits: nat): nat
  {
    if bits >= 128 then 6 else if bits >= 64 then 5 else if bits >= 32 then 4 else if bits >= 16 then 3 else 2
  }

  /** The shift of the last xorshift, `(2 * bits + 2) / 3`. */
  function LastShift(bits: nat): (s: nat)
    ensures bits >= 1 ==> s >= 1
  {
    (2 * bits + 2) / 3
  }

  /** `(internal >> (bits - opbits)) & mask`: the top `opbits` bits, as a number. */
  function RandomShift(x: Word): nat
  {
    var op := OpBits(|x|);
    if |x| < op then 0 else ToNat(AndW(Shr(x, |x| - op), LowMask(|x|, op)))
  }

  function Multiplication(k: nat): Word -> Word
  {
    (y: Word) => Times(y, k)
  }

  function Output(x: Word, multiplier: nat): (r: Word)
    requires |x| >= 2
    ensures |r| == |x|
  {
    OutputBy(x, Multiplication(multiplier), RandomShift)
  }

  function Unoutput(x: Word, unmultiplier: nat): Word
    requires |x| >= 2
  {
    UnoutputBy(x, Multiplication(unmultiplier), RandomShift)
  }

  /** The steps of `output`, for any xorshift, multiplication and choice of the random shift. */
  function OutputWith(x: Word, xs: (Word, nat) -> Word, mul: Word -> Word, pick: Word -> nat): Word
  {
    xs(mul(xs(x, OpBits(|x|) + pick(x))), LastShift(|x|))
  }

  /** The steps of `unoutput`. */
  function UnoutputWith(x: Word, unxs: (Word, nat) -> Word, unmul: Word -> Word, pick: Word -> nat): Word
  {
    var a := unmul(unxs(x, LastShift(|x|)));
    unxs(a, OpBits(|x|) + pick(a))
  }

  function Shift(): (Word, nat) -> Word { (x: Word, s: nat) => Xorshift(x, s) }

  function Unshift(bits: nat): (Word, nat) -> Word
  {
    (x: Word, s: nat) => if s == 0 then x else Unxorshift(x, bits, s)
  }

  function OutputBy(x: Word, mul: Word -> Word, pick: Word -> nat): (r: Word)
    ensures |r| == |mul(Xorshift(x, OpBits(|x|) + pick(x)))|
  {
    OutputWith(x, Shift(), mul, pick)
  }

  function UnoutputBy(x: Word, unmul: Word -> Word, pick: Word -> nat): Word
  {
    UnoutputWith(x, Unshift(|x|), unmul, pick)
  }

  /** Undoing each step in turn undoes them all. */
  lemma UnoutputWithInverts(x: Word, xs: (Word, nat) -> Word, unxs: (Word, nat) -> Word,
                            mul: Word -> Word, unmul: Word -> Word, pick: Word -> nat)
    requires var a := xs(x, OpBits(|x|) + pick(x));
             && unmul(mul(a)) == a && pick(a) == pick(x) && unxs(a, OpBits(|x|) + pick(x)) == x
             && |xs(mul(a), LastShift(|x|))| == |x| && unxs(xs(mul(a), LastShift(|x|)), LastShift(|x|)) == mul(a)
    ensures UnoutputWith(OutputWith(x, xs, mul, pick), unxs, unmul, pick) == x
  {
  }

  lemma TimesNat(n: nat, k: nat, k': nat, m: nat)
    requires n < m && Cong(k * k', 1, m)
    ensures (((n * k) % m) * k') % m == n
  {
    CongMod(n * k, m);
    MulCong((n * k) % m, n * k, k', k', m);
    assert (n * k) * k' == n * (k * k');
    MulCong(n, n, k * k', 1, m);
    DivModUnique(n, m, 0, n);
  }

  lemma TimesInverts(x: Word, k: nat, k': nat)
    requires Cong(k * k', 1, Pow2(|x|))
    ensures Times(Times(x, k), k') == x
  {
    ToNatBound(x);
    TimesNat(ToNat(x), k, k', Pow2(|x|));
    ToFrom((ToNat(x) * k) % Pow2(|x|), |x|);
    FromTo(x);
  }

  /** The random shift reads bits that the xorshift it selects leaves alone. */
  lemma RandomShiftStays(x: Word, s: nat)
    requires |x| >= 2 && s >= OpBits(|x|)
    ensures RandomShift(Xorshift(x, s)) == RandomShift(x)
  {
    var op := OpBits(|x|);
    var y := Xorshift(x, s);
    assert AndW(Shr(y, |x| - op), LowMask(|x|, op)) == AndW(Shr(x, |x| - op), LowMask(|x|, op));
  }

  lemma UnoutputByInverts(x: Word, mul: Word -> Word, unmul: Word -> Word, pick: Word -> nat)
    requires |x| >= 2
    requires var a := Xorshift(x, OpBits(|x|) + pick(x));
             |mul(a)| == |x| && unmul(mul(a)) == a && pick(a) == pick(x)
    ensures UnoutputBy(OutputBy(x, mul, pick), unmul, pick) == x
  {
    var a := Xorshift(x, OpBits(|x|) + pick(x));
    UnxorshiftInverts(mul(a), |x|, LastShift(|x|));
    UnxorshiftInverts(x, |x|, OpBits(|x|) + pick(x));
    UnoutputWithInverts(x, Shift(), Unshift(|x|), mul, unmul, pick);
  }

  lemma Recover(x: Word, a: Word, k: nat, k': nat)
    requires |x| >= 2 && a == Xorshift(x, OpBits(|x|) + RandomShift(x))
    requires Times(Times(a, k), k') == a && RandomShift(a) == RandomShift(x)
    ensures Unoutput(Output(x, k), k') == x
  {
    UnoutputByInverts(x, Multiplication(k), Multiplication(k'), RandomShift);
  }

  /** `unoutput` inverts `output` for every width and every pair of inverse multipliers: the
      data-dependent shift is recovered, and `output` is a permutation. */
  lemma UnoutputInverts(x: Word, k: nat, k': nat)
    requires |x| >= 2 && Cong(k * k', 1, Pow2(|x|))
    ensures Unoutput(Output(x, k), k') == x
  {
    var a := Xorshift(x, OpBits(|x|) + RandomShift(x));
    RandomShiftStays(x, OpBits(|x|) + RandomShift(x));
    TimesInverts(a, k, k');
    Recover(x, a, k, k');
  }

  /** The multiplier constants of the supported widths are inverse to each other. */
  function McgMultiplier(bits: nat): nat
  {
    if bits == 8 then 217
    else if bits == 16 then 62169
    else if bits == 32 then 277803737
    else if bits == 64 then 12605985483714917081
    else 17766728186571221404 * 0x1_0000_0000_0000_0000 + 12605985483714917081
  }

  function McgUnmultiplier(bits: nat): nat
  {
    if bits == 8 then 105
    else if bits == 16 then 28009
    else if bits == 32 then 2897767785
    else if bits == 64 then 15009553638781119849
    else 14422606686972528997 * 0x1_0000_0000_0000_0000 + 15009553638781119849
  }

  lemma InverseConstants(bits: nat)
    requires bits in {8, 16, 32, 64, 128}
    ensures Cong(McgMultiplier(bits) * McgUnmultiplier(bits), 1, Pow2(bits))
  {
    Pow2Values();
    DivModUnique(217 * 105, 0x100, 89, 1);
    DivModUnique(62169 * 28009, 0x1_0000, 26570, 1);
  }

  /** The round trip at the five supported widths, with their constants. */
  lemma UnoutputInvertsSupported(x: Word)
    requires |x| in {8, 16, 32, 64, 128}
    ensures Unoutput(Output(x, McgMultiplier(|x|)), McgUnmultiplier(|x|)) == x
  {
    InverseConstants(|x|);
    UnoutputInverts(x, McgMultiplier(|x|), McgUnmultiplier(|x|));
  }
}
