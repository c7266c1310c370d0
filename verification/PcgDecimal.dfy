/** Decimal output and input of 128-bit numbers: printing by repeated division into a 40-character
    buffer, and parsing with a check for overflow that misses some overflows. */
module PcgDecimal {
  import opened Bits
  import opened Decimal
  import opened PcgUint128

  const MAX_CHARS_128BIT := 40

  // -------------------------------------------------------------------------
  // Printing
  // -------------------------------------------------------------------------

  lemma {:induction false} Pow10Add(j: nat, k: nat)
    ensures Pow10(j + k) == Pow10(j) * Pow10(k)
  {
    if j > 0 {
      Pow10Add(j - 1, k);
      assert Pow10(j + k) == 10 * Pow10((j - 1) + k);
    }
  }

  lemma {:induction false} Pow10Of39()
    ensures Pow10(39) == 1_000_000_000_000_000_000_000_000_000_000_000_000_000
  {
    assert Pow10(3) == 1_000 by {
      assert Pow10(0) == 1 && Pow10(1) == 10 && Pow10(2) == 100;
    }
    Pow10Add(3, 3);
    Pow10Add(6, 6);
    Pow10Add(12, 12);
    Pow10Add(24, 12);
    Pow10Add(36, 3);
  }

  /** 128 bits need at most 39 digits, so the buffer with its terminator suffices. */
  lemma {:induction false} FitsBuffer(n: nat)
    requires n < B4
    ensures |Numeral(n)| < MAX_CHARS_128BIT
  {
    Pow10Of39();
    NumeralLength(n, 39);
  }

  /** `value / 10` and the digit `value - div * 10`. */
  method DivideByTen(value: U128) returns (div: U128, mod: nat)
    requires value.Valid()
    ensures div.Valid() && div.V() == value.V() / 10 && mod == value.V() % 10
  {
    var ten := FromDouble(10);
    ghost var remainder;
    div, remainder := DivMod(value, ten);
    DivModUnique(value.V(), 10, div.V(), remainder.V());
    var product := Mul(div, ten);
    value.Halves();
    DivModUnique(div.V() * 10, B4, 0, div.V() * 10);
    var rest := Sub(value, product);
    DivModUnique(value.V() - product.V(), B4, 0, value.V() - product.V());
    LowLimb(rest);
    mod := rest.w[0];
  }

  /** A number below 2^32 is its lowest limb. */
  lemma LowLimb(x: U128)
    requires x.Valid() && x.V() < B
    ensures x.w[0] == x.V()
  {
    x.Halves();
  }

  lemma NumeralSplit(n: nat)
    ensures n >= 10 ==> Numeral(n) == Numeral(n / 10) + [DigitChar(n % 10)]
    ensures n < 10 ==> Numeral(n) == [DigitChar(n % 10)]
  {
  }

  /** Printing gives the numeral of the value. */
  method Print(value0: U128) returns (text: string)
    requires value0.Valid()
    ensures text == Numeral(value0.V()) && |text| < MAX_CHARS_128BIT
  {
    var buffer := new char[MAX_CHARS_128BIT](_ => '\0');
    var pos := MAX_CHARS_128BIT - 1;
    buffer[pos] := '\0';
    var value, zero := value0, FromDouble(0);
    value0.Halves();
    FitsBuffer(value0.V());
    while true
      invariant value.Valid() && |Numeral(value.V())| <= pos < MAX_CHARS_128BIT && buffer.Length == MAX_CHARS_128BIT
      invariant Numeral(value0.V()) == Numeral(value.V()) + buffer[pos..MAX_CHARS_128BIT - 1]
      decreases value.V()
    {
      ghost var tail := buffer[pos..MAX_CHARS_128BIT - 1];
      NumeralSplit(value.V());
      var div, mod := DivideByTen(value);
      pos := pos - 1;
      buffer[pos] := DigitChar(mod);
      assert buffer[pos..MAX_CHARS_128BIT - 1] == [DigitChar(mod)] + tail;
      value := div;
      LessIs(zero, value);
      if !Less(zero, value) {
        break;
      }
    }
    text := buffer[pos..MAX_CHARS_128BIT - 1];
  }

  // -------------------------------------------------------------------------
  // Parsing
  // -------------------------------------------------------------------------

  /** What the two comparisons see: multiplying by ten wrapped below the old value, or adding the
      digit wrapped. */
  predicate StepFlags(c: nat, d: nat)
  {
    10 * c % B4 < c || (10 * c % B4 + d) % B4 < d
  }

  /** The same in terms of the true product: the wraps took off more than nine times the old value,
      or the digit did not fit. */
  predicate Caught(c: nat, d: nat)
  {
    9 * c < 10 * c / B4 * B4 || 10 * c % B4 + d >= B4
  }

  lemma StepFlagsIff(c: nat, d: nat)
    requires c < B4 && d < 10
    ensures StepFlags(c, d) <==> Caught(c, d)
  {
    var q, r := 10 * c / B4, 10 * c % B4;
    assert 10 * c == q * B4 + r;
    if r + d >= B4 {
      DivModUnique(r + d, B4, 1, r + d - B4);
    } else {
      DivModUnique(r + d, B4, 0, r + d);
    }
  }

  /** Some digit raised the overflow flag. */
  predicate Flagged(s: string)
    requires Digits(s)
  {
    |s| > 0 && (Flagged(s[..|s| - 1]) || StepFlags(Value(s[..|s| - 1]) % B4, DigitValue(s[|s| - 1])))
  }

  /** Parsing is exact modulo 2^128. */
  lemma WrapStep(v: nat, d: nat)
    ensures (10 * (v % B4) % B4 + d) % B4 == (10 * v + d) % B4
  {
    var q, r := v / B4, v % B4;
    assert v == q * B4 + r;
    var q', r' := 10 * r / B4, 10 * r % B4;
    assert 10 * v + d == (10 * q + q') * B4 + (r' + d);
    ModAddMul(r' + d, 10 * q + q', B4);
  }

  /** Numbers that fit raise no flag. */
  lemma {:induction false} NoFalseAlarm(s: string)
    requires Digits(s) && Value(s) < B4
    ensures !Flagged(s)
  {
    if |s| > 0 {
      var c, d := Value(s[..|s| - 1]), DigitValue(s[|s| - 1]);
      NoFalseAlarm(s[..|s| - 1]);
      DivModUnique(c, B4, 0, c);
      DivModUnique(10 * c, B4, 0, 10 * c);
      DivModUnique(10 * c + d, B4, 0, 10 * c + d);
    }
  }

  /** The step with the digit taken in: the wrap takes off more than nine times the old value. */
  lemma CaughtClosed(c: nat, d: nat)
    requires c < B4 && d < 10
    ensures Caught(c, d) <==> 9 * c < (10 * c + d) / B4 * B4
  {
    var q, r := 10 * c / B4, 10 * c % B4;
    assert 10 * c == q * B4 + r;
    if r + d >= B4 {
      DivModUnique(10 * c + d, B4, q + 1, r + d - B4);
    } else {
      DivModUnique(10 * c + d, B4, q, r + d);
    }
  }

  /** The last digit of the number `w` is caught when the digits before it are read modulo 2^128. */
  predicate CaughtLast(w: nat)
  {
    var c := w / 10 % B4;
    9 * c < (10 * c + w % 10) / B4 * B4
  }

  /** Some digit of the number `n` is caught. */
  ghost predicate CaughtNumber(n: nat)
  {
    exists k: nat :: CaughtLast(Without(n, k))
  }

  /** A number without its last `k` digits. */
  function Without(n: nat, k: nat): nat
  {
    if k == 0 then n else Without(n / 10, k - 1)
  }

  lemma {:induction false} NothingLeftOfZero(k: nat)
    ensures Without(0, k) == 0
  {
    if k > 0 { NothingLeftOfZero(k - 1); }
  }

  lemma CaughtNumberSplit(n: nat)
    ensures CaughtNumber(n) <==> CaughtLast(n) || CaughtNumber(n / 10)
  {
    if CaughtNumber(n) {
      var k: nat :| CaughtLast(Without(n, k));
      assert k > 0 ==> Without(n, k) == Without(n / 10, k - 1);
    }
    assert Without(n, 0) == n;
    if CaughtNumber(n / 10) {
      var k: nat :| CaughtLast(Without(n / 10, k));
      assert Without(n, k + 1) == Without(n / 10, k);
    }
  }

  /** Whether the flag goes up can be read off the number alone. */
  lemma {:induction false} FlaggedIff(s: string)
    requires Digits(s)
    ensures Flagged(s) <==> CaughtNumber(Value(s))
  {
    if |s| == 0 {
      forall k: nat ensures !CaughtLast(Without(0, k)) { NothingLeftOfZero(k); }
    } else {
      FlaggedIff(s[..|s| - 1]);
      CaughtStep(Value(s[..|s| - 1]), DigitValue(s[|s| - 1]));
    }
  }

  /** One more digit is caught by its step, or the digits before it were. */
  lemma CaughtStep(v: nat, d: nat)
    requires d < 10
    ensures CaughtNumber(10 * v + d) <==> CaughtNumber(v) || StepFlags(v % B4, d)
  {
    StepFlagsIff(v % B4, d);
    CaughtClosed(v % B4, d);
    DivModUnique(10 * v + d, 10, v, d);
    CaughtNumberSplit(10 * v + d);
  }

  /** When the overflow check is right, for every digit string: a number that does not fit is reported
      exactly when one of its digits is caught; below 10 * 2^128 that is one comparison. */
  lemma OverflowReportedIff(s: string)
    requires Digits(s)
    ensures (Flagged(s) <==> Value(s) >= B4) <==> Value(s) < B4 || CaughtNumber(Value(s))
    ensures Value(s) < 10 * B4 ==> (Flagged(s) <==> 9 * (Value(s) / 10) < Value(s) / B4 * B4)
  {
    FlaggedIff(s);
    if Value(s) < B4 { NoFalseAlarm(s); }
    if Value(s) < 10 * B4 { OneComparison(Value(s)); }
  }

  lemma OneComparison(n: nat)
    requires n < 10 * B4
    ensures CaughtNumber(n) <==> 9 * (n / 10) < n / B4 * B4
  {
    CaughtNumberSplit(n);
    NumeralRoundTrip(n / 10);
    NoFalseAlarm(Numeral(n / 10));
    FlaggedIff(Numeral(n / 10));
    DivModUnique(n / 10, B4, 0, n / 10);
    assert 10 * (n / 10) + n % 10 == n;
  }

  /** 1.5 * 2^128. */
  const MISSED: nat := 510423550381407695195061911147652317184

  /** It overflows and is not caught: it is read as 2^127. */
  lemma OverflowMissed()
    ensures MISSED == B4 + B4 / 2 && Digits(Numeral(MISSED)) && Value(Numeral(MISSED)) == MISSED
    ensures !Flagged(Numeral(MISSED)) && MISSED % B4 == Pow2(127)
  {
    NumeralRoundTrip(MISSED);
    OverflowReportedIff(Numeral(MISSED));
    HalfRange();
    DivModUnique(MISSED, B4, 1, B4 / 2);
  }

  lemma HalfRange()
    ensures Pow2(127) == B4 / 2
  {
    Pow2Values();
    assert Pow2(128) == 2 * Pow2(127);
  }

  /** The number of leading digits. */
  function Leading(text: string): (k: nat)
    ensures k <= |text| && Digits(text[..k]) && (k < |text| ==> !IsDigit(text[k]))
  {
    if |text| == 0 || !IsDigit(text[0]) then 0
    else
      var k := Leading(text[1..]);
      assert text[..1 + k] == [text[0]] + text[1..][..k];
      1 + k
  }

  /** One more digit, with the two comparisons that look for overflow. */
  method ParseDigit(current: U128, overflow: bool, c: char, ghost s: string) returns (next: U128, overflows: bool)
    requires current.Valid() && IsDigit(c) && Digits(s)
    requires current.V() == Value(s) % B4 && (overflow <==> Flagged(s))
    ensures next.Valid() && Digits(s + [c])
    ensures next.V() == Value(s + [c]) % B4 && (overflows <==> Flagged(s + [c]))
  {
    var flags;
    next, flags := TimesTenPlus(current, DigitValue(c));
    overflows := overflow || flags;
    WrapStep(Value(s), DigitValue(c));
    OneMoreDigit(s, c);
  }

  /** Multiplying by ten and adding a digit, and what the comparisons after each see. */
  method TimesTenPlus(current: U128, d: nat) returns (next: U128, flags: bool)
    requires current.Valid() && d < 10
    ensures next.Valid() && next.V() == (10 * current.V() % B4 + d) % B4
    ensures flags <==> StepFlags(current.V(), d)
  {
    var digit := FromDouble(d);
    var timesbase := Mul(current, FromDouble(10));
    LessIs(timesbase, current);
    flags := Less(timesbase, current);
    next := Add(timesbase, digit);
    LessIs(next, digit);
    flags := flags || Less(next, digit);
  }

  lemma OneMoreDigit(s: string, c: char)
    requires Digits(s) && IsDigit(c)
    ensures Digits(s + [c]) && Value(s + [c]) == 10 * Value(s) + DigitValue(c)
    ensures Flagged(s + [c]) <==> Flagged(s) || StepFlags(Value(s) % B4, DigitValue(c))
  {
    assert (s + [c])[..|s|] == s;
  }

  /** Parsing after leading white space is skipped: reads all leading digits. The value is the number
      modulo 2^128, or all ones if the flag went up; the stream fails if there was no digit, the flag
      went up, or the text ended (the read that finds the end fails). */
  method Parse(text: string) returns (value: U128, read: nat, failed: bool)
    requires |text| > 0
    ensures read == Leading(text) && value.Valid()
    ensures value.V() == if Flagged(text[..read]) then B4 - 1 else Value(text[..read]) % B4
    ensures failed <==> read == 0 || Flagged(text[..read]) || read == |text|
  {
    var current := FromDouble(0);
    var overflow, eof := false, true;
    read := 0;
    while read < |text|
      invariant read <= |text| && Digits(text[..read]) && current.Valid() && eof
      invariant current.V() == Value(text[..read]) % B4 && (overflow <==> Flagged(text[..read]))
      invariant Leading(text) == read + Leading(text[read..])
    {
      assert text[read..][0] == text[read] && text[read..][1..] == text[read + 1..];
      if !IsDigit(text[read]) {
        eof := false;
        break;
      }
      current, overflow := ParseDigit(current, overflow, text[read], text[..read]);
      assert text[..read + 1] == text[..read] + [text[read]];
      read := read + 1;
    }
    failed := read == 0 || overflow || eof;
    value := if overflow then AllOnes() else current;
  }

  function AllOnes(): (r: U128)
    ensures r.Valid() && r.V() == B4 - 1
  {
    var r := FromWords(B - 1, B - 1, B - 1, B - 1);
    r.Halves();
    r
  }

  /** Printing and reading back gives the value again, whatever non-digit follows; at the very end of
      the text the value is right but the stream is left failed. */
  method RoundTrip(v: U128, rest: string) returns (w: U128, failed: bool)
    requires v.Valid() && (|rest| > 0 ==> !IsDigit(rest[0]))
    ensures w.Valid() && w.V() == v.V() && (failed <==> rest == "")
  {
    var text := Print(v);
    NumeralRoundTrip(v.V());
    v.Halves();
    LeadingNumeral(text, rest);
    var read;
    w, read, failed := Parse(text + rest);
    assert (text + rest)[..read] == text;
    NoFalseAlarm(text);
    DivModUnique(v.V(), B4, 0, v.V());
  }

  lemma {:induction false} LeadingNumeral(s: string, rest: string)
    requires Digits(s) && (|rest| > 0 ==> !IsDigit(rest[0]))
    ensures Leading(s + rest) == |s|
  {
    if |s| == 0 {
      assert s + rest == rest;
    } else {
      LeadingNumeral(s[1..], rest);
      assert (s + rest)[1..] == s[1..] + rest;
    }
  }
}
