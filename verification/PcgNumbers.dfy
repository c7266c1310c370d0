/** `unxorshift` on unsigned numbers, as the source computes it with masks and shifts, and its agreement
    with the model on words. */
module PcgNumbers {
  import opened Bits
  import opened PcgOutput

  /** The bitwise operators of words are those of the numbers they stand for. */
  lemma {:induction false} AndValue(x: Word, y: Word)
    requires |x| == |y|
    ensures ToNat(AndW(x, y)) == And(ToNat(x), ToNat(y))
  {
    if x != [] {
      AndValue(x[1..], y[1..]);
      assert AndW(x, y)[1..] == AndW(x[1..], y[1..]);
      AndLow(x[0], y[0], ToNat(x[1..]), ToNat(y[1..]));
    }
  }

  function Bit(b: bool): nat { if b then 1 else 0 }

  lemma AndLow(p: bool, q: bool, x: nat, y: nat)
    ensures And(Bit(p) + 2 * x, Bit(q) + 2 * y) == Bit(p && q) + 2 * And(x, y)
  {
    var a, b := Bit(p) + 2 * x, Bit(q) + 2 * y;
    assert a / 2 == x && a % 2 == Bit(p) && b / 2 == y && b % 2 == Bit(q);
  }

  lemma {:induction false} OrValue(x: Word, y: Word)
    requires |x| == |y|
    ensures ToNat(OrW(x, y)) == Or(ToNat(x), ToNat(y))
  {
    if x != [] {
      OrValue(x[1..], y[1..]);
      assert OrW(x, y)[1..] == OrW(x[1..], y[1..]);
      OrLow(x[0], y[0], ToNat(x[1..]), ToNat(y[1..]));
    }
  }

  lemma OrLow(p: bool, q: bool, x: nat, y: nat)
    ensures Or(Bit(p) + 2 * x, Bit(q) + 2 * y) == Bit(p || q) + 2 * Or(x, y)
  {
    var a, b := Bit(p) + 2 * x, Bit(q) + 2 * y;
    assert a / 2 == x && a % 2 == Bit(p) && b / 2 == y && b % 2 == Bit(q);
  }

  lemma {:induction false} XorValue(x: Word, y: Word)
    requires |x| == |y|
    ensures ToNat(XorW(x, y)) == Xor(ToNat(x), ToNat(y))
  {
    if x != [] {
      XorValue(x[1..], y[1..]);
      assert XorW(x, y)[1..] == XorW(x[1..], y[1..]);
      XorLow(x[0], y[0], ToNat(x[1..]), ToNat(y[1..]));
    }
  }

  lemma XorLow(p: bool, q: bool, x: nat, y: nat)
    ensures Xor(Bit(p) + 2 * x, Bit(q) + 2 * y) == Bit(p != q) + 2 * Xor(x, y)
  {
    var a, b := Bit(p) + 2 * x, Bit(q) + 2 * y;
    assert a / 2 == x && a % 2 == Bit(p) && b / 2 == y && b % 2 == Bit(q);
  }

  lemma {:induction false} NotValue(x: Word)
    ensures ToNat(Not(x)) == Pow2(|x|) - 1 - ToNat(x)
  {
    if x != [] {
      NotValue(x[1..]);
      assert Not(x)[1..] == Not(x[1..]);
    }
  }

  lemma {:induction false} ShrValue(x: Word, s: nat)
    ensures ToNat(Shr(x, s)) == ToNat(x) / Pow2(s)
  {
    if s == 0 {
      assert Shr(x, 0) == x;
    } else if x != [] {
      ShrValue(x[1..], s - 1);
      assert Shr(x, s) == Shr(x[1..], s - 1) + [false];
      ToNatPad(Shr(x[1..], s - 1));
      assert ToNat(x) / 2 == ToNat(x[1..]);
      DivDiv(ToNat(x), Pow2(s - 1));
    } else {
      ZeroOver(Pow2(s));
    }
  }

  lemma ZeroOver(p: nat)
    requires p > 0
    ensures 0 / p == 0
  {
  }

  lemma {:induction false} ToNatPad(x: Word)
    ensures ToNat(x + [false]) == ToNat(x)
  {
    if x != [] {
      ToNatPad(x[1..]);
      assert (x + [false])[1..] == x[1..] + [false];
    }
  }

  lemma {:induction false} FitsBound(x: Word, bits: nat)
    requires ToNat(x) < Pow2(bits)
    ensures Fits(x, bits)
  {
    if x != [] {
      if bits == 0 {
        FitsBound(x[1..], 0);
      } else {
        FitsBound(x[1..], bits - 1);
      }
      forall i | bits <= i < |x| ensures !x[i] {
        if i > 0 { assert x[1..][i - 1] == x[i]; }
      }
    }
  }

  /** `~((1 << k) - 1)` in a word of `w` bits. */
  function HighMaskN(w: nat, k: nat): nat
    requires k <= w
  {
    Pow2Monotone(k, w);
    Pow2(w) - Pow2(k)
  }

  lemma HighMaskValue(w: nat, k: nat)
    requires k <= w
    ensures ToNat(Not(LowMask(w, k))) == HighMaskN(w, k)
  {
    LowMaskValue(w, k);
    NotValue(LowMask(w, k));
  }

  /** The operators of an unsigned type of `w` bits: `&`, `|`, `^`, `>>`, and the masks `(1 << k) - 1`
      and `~((1 << k) - 1)`. */
  datatype Unsigned = Unsigned(and: (nat, nat) -> nat, or: (nat, nat) -> nat, xor: (nat, nat) -> nat,
                               shr: (nat, nat) -> nat, low: nat -> nat, high: nat -> nat)
  {
    function Xorshift(n: nat, s: nat): nat { xor(n, shr(n, s)) }

    function Top(x: nat, bits: nat, shift: nat): nat
      requires 2 * shift < bits
    {
      and(Xorshift(x, shift), high(bits - 2 * shift))
    }

    function Merged(top: nat, y: nat, k: nat): nat { or(top, and(y, low(k))) }

    function Bottom(x: nat, bits: nat, shift: nat): nat
      requires 2 * shift < bits
    {
      and(Merged(Top(x, bits, shift), x, bits - 2 * shift), low(bits - shift))
    }

    /** `unxorshift` as the source writes it. */
    function Unxorshift(x: nat, bits: nat, shift: nat): nat
      requires 1 <= shift
      decreases bits
    {
      if 2 * shift >= bits then
        Xorshift(x, shift)
      else
        Merged(Top(x, bits, shift), Unxorshift(Bottom(x, bits, shift), bits - shift, shift), bits - 2 * shift)
    }
  }

  /** The operators on numbers below `2^w`. */
  function Arithmetic(w: nat): Unsigned
  {
    Unsigned((x: nat, y: nat) => And(x, y), (x: nat, y: nat) => Or(x, y), (x: nat, y: nat) => Xor(x, y),
             (x: nat, s: nat) => Quotient(x, Pow2(s)), (k: nat) => LowMaskN(k),
             (k: nat) => if k <= w then HighMaskN(w, k) else 0)
  }

  /** The number a word stands for. */
  function Value(): Word -> nat { (x: Word) => ToNat(x) }

  /** `u` does on the numbers `val` gives to words of `w` bits what the word operators do. */
  ghost predicate Models(u: Unsigned, val: Word -> nat, w: nat)
  {
    && (forall x, y {:trigger AndW(x, y)} :: |x| == |y| == w ==> val(AndW(x, y)) == u.and(val(x), val(y)))
    && (forall x, y {:trigger OrW(x, y)} :: |x| == |y| == w ==> val(OrW(x, y)) == u.or(val(x), val(y)))
    && (forall x, s {:trigger Xorshift(x, s)} :: |x| == w ==> val(Xorshift(x, s)) == u.Xorshift(val(x), s))
    && (forall k {:trigger LowMask(w, k)} ::
          0 <= k <= w ==> val(LowMask(w, k)) == u.low(k) && val(Not(LowMask(w, k))) == u.high(k))
  }

  /** The numbers of words are a model. */
  lemma ArithmeticModels(w: nat)
    ensures Models(Arithmetic(w), Value(), w)
  {
    var u := Arithmetic(w);
    forall x, y | |x| == |y| == w ensures ToNat(AndW(x, y)) == u.and(ToNat(x), ToNat(y)) {
      AndValue(x, y);
    }
    forall x, y | |x| == |y| == w ensures ToNat(OrW(x, y)) == u.or(ToNat(x), ToNat(y)) {
      OrValue(x, y);
    }
    forall x, s: nat | |x| == w ensures ToNat(Xorshift(x, s)) == u.Xorshift(ToNat(x), s) {
      XorshiftValue(x, s);
    }
    forall k | 0 <= k <= w ensures ToNat(LowMask(w, k)) == u.low(k) && ToNat(Not(LowMask(w, k))) == u.high(k) {
      LowMaskValue(w, k);
      HighMaskValue(w, k);
    }
  }

  lemma XorshiftValue(x: Word, s: nat)
    ensures ToNat(Xorshift(x, s)) == Xor(ToNat(x), Quotient(ToNat(x), Pow2(s)))
  {
    ShrValue(x, s);
    XorValue(x, Shr(x, s));
  }

  /** In every model the algorithm on numbers computes what the algorithm on words does. */
  lemma {:induction false} UnxorshiftValue(u: Unsigned, val: Word -> nat, x: Word, bits: nat, shift: nat)
    requires Models(u, val, |x|) && 1 <= shift && bits <= |x|
    ensures val(Unxorshift(x, bits, shift)) == u.Unxorshift(val(x), bits, shift)
    decreases bits
  {
    if 2 * shift >= bits {
    } else {
      var top, bottom := Top(x, bits, shift), Bottom(x, bits, shift);
      TopValue(u, val, x, bits, shift);
      BottomValue(u, val, x, bits, shift);
      UnxorshiftValue(u, val, bottom, bits - shift, shift);
      MergedValue(u, val, top, Unxorshift(bottom, bits - shift, shift), bits - 2 * shift);
    }
  }

  lemma TopValue(u: Unsigned, val: Word -> nat, x: Word, bits: nat, shift: nat)
    requires Models(u, val, |x|) && 2 * shift < bits <= |x|
    ensures val(Top(x, bits, shift)) == u.Top(val(x), bits, shift)
  {
  }

  lemma BottomValue(u: Unsigned, val: Word -> nat, x: Word, bits: nat, shift: nat)
    requires Models(u, val, |x|) && 2 * shift < bits <= |x|
    ensures val(Bottom(x, bits, shift)) == u.Bottom(val(x), bits, shift)
  {
    TopValue(u, val, x, bits, shift);
    MergedValue(u, val, Top(x, bits, shift), x, bits - 2 * shift);
  }

  lemma MergedValue(u: Unsigned, val: Word -> nat, top: Word, y: Word, k: nat)
    requires Models(u, val, |y|) && |top| == |y| && k <= |y|
    ensures val(Merged(top, y, k)) == u.Merged(val(top), val(y), k)
  {
  }

  /** On numbers: `unxorshift` undoes `x ^ (x >> s)` for every number of at most `bits` bits. */
  lemma UnxorshiftNumbers(n: nat, w: nat, bits: nat, shift: nat)
    requires 1 <= shift && bits <= w && n < Pow2(bits)
    ensures var u := Arithmetic(w);
            u.Unxorshift(Xor(n, Quotient(n, Pow2(shift))), bits, shift) == n
  {
    var x := FromNat(n, w);
    Pow2Monotone(bits, w);
    ToFrom(n, w);
    FitsBound(x, bits);
    UnxorshiftInverts(x, bits, shift);
    XorshiftValue(x, shift);
    ArithmeticModels(w);
    UnxorshiftValue(Arithmetic(w), Value(), Xorshift(x, shift), bits, shift);
  }

  // ---------------------------------------------------------------- rxs_m_xs on numbers

  /** The random shift is the number in the top bits. */
  lemma RandomShiftIs(n: nat, w: nat, op: nat)
    requires n < Pow2(w) && op == OpBits(w) <= w
    ensures RandomShift(FromNat(n, w)) == Quotient(n, Pow2(w - op))
  {
    var x, q := FromNat(n, w), Quotient(n, Pow2(w - op));
    ToFrom(n, w);
    ShrValue(x, w - op);
    LowMaskValue(w, op);
    AndValue(Shr(x, w - op), LowMask(w, op));
    AndMask(q, op);
    TopBits(n, w, op);
  }

  lemma TopBits(n: nat, w: nat, op: nat)
    requires n < Pow2(w) && op <= w
    ensures Quotient(n, Pow2(w - op)) % Pow2(op) == Quotient(n, Pow2(w - op))
  {
    Pow2Add(op, w - op);
    DivBelow(n, Pow2(op), Pow2(w - op));
    DivModUnique(Quotient(n, Pow2(w - op)), Pow2(op), 0, Quotient(n, Pow2(w - op)));
  }

  lemma DivBelow(n: nat, p: nat, q: nat)
    requires q > 0 && n < p * q
    ensures Quotient(n, q) < p
  {
  }

  lemma TimesValue(x: Word, k: nat)
    ensures ToNat(Times(x, k)) == ToNat(x) * k % Pow2(|x|)
  {
    ToFrom(ToNat(x) * k % Pow2(|x|), |x|);
  }

  /** The three steps of `output`. */
  lemma OutputSteps(x: Word, k: nat, a: Word, b: Word)
    requires |x| >= 2 && a == Xorshift(x, OpBits(|x|) + RandomShift(x)) && b == Times(a, k)
    ensures Output(x, k) == Xorshift(b, LastShift(|x|))
  {
  }

  /** `output` in plain arithmetic, at every width. */
  lemma OutputIs(n: nat, w: nat, op: nat, s: nat, k: nat, r: nat, z: nat)
    requires 2 <= w && n < Pow2(w) && op == OpBits(w) && s == LastShift(w) && r == Quotient(n, Pow2(w - op))
    requires z == Xor(n, Quotient(n, Pow2(op + r))) * k % Pow2(w)
    ensures RandomShift(FromNat(n, w)) == r
    ensures ToNat(Output(FromNat(n, w), k)) == Xor(z, Quotient(z, Pow2(s)))
  {
    ToFrom(n, w);
    RandomShiftIs(n, w, op);
    StepsValue(FromNat(n, w), n, k, op + r, z);
  }

  lemma StepsValue(x: Word, n: nat, k: nat, shift: nat, z: nat)
    requires |x| >= 2 && ToNat(x) == n && shift == OpBits(|x|) + RandomShift(x)
    requires z == Xor(n, Quotient(n, Pow2(shift))) * k % Pow2(|x|)
    ensures ToNat(Output(x, k)) == Xor(z, Quotient(z, Pow2(LastShift(|x|))))
  {
    var a := Xorshift(x, shift);
    var b := Times(a, k);
    OutputSteps(x, k, a, b);
    XorshiftValue(x, shift);
    TimesValue(a, k);
    XorshiftValue(b, LastShift(|x|));
  }

  /** The widths that are supported, the bits that choose the shift, the last shift, and the multiplier. */
  predicate Supported(w: nat, op: nat, s: nat, k: nat)
  {
    || (w == 8 && op == 2 && s == 6 && k == 217)
    || (w == 16 && op == 3 && s == 11 && k == 62169)
    || (w == 32 && op == 4 && s == 22 && k == 277803737)
    || (w == 64 && op == 5 && s == 43 && k == 12605985483714917081)
    || (w == 128 && op == 6 && s == 86 && k == 17766728186571221404 * 0x1_0000_0000_0000_0000 + 12605985483714917081)
  }

  lemma Widths(w: nat, op: nat, s: nat, k: nat)
    requires Supported(w, op, s, k)
    ensures 2 <= w && op == OpBits(w) && s == LastShift(w) && k == McgMultiplier(w)
  {
  }

  /** `output` at the supported widths: a shift by the top bits, the multiplication, and the last shift. */
  lemma OutputSupported(n: nat, w: nat, op: nat, s: nat, k: nat, r: nat, z: nat)
    requires Supported(w, op, s, k) && n < Pow2(w)
    requires r == Quotient(n, Pow2(w - op)) && z == Xor(n, Quotient(n, Pow2(op + r))) * k % Pow2(w)
    ensures RandomShift(FromNat(n, w)) == r
    ensures ToNat(Output(FromNat(n, w), McgMultiplier(w))) == Xor(z, Quotient(z, Pow2(s)))
  {
    Widths(w, op, s, k);
    OutputIs(n, w, op, s, k, r, z);
  }
}
