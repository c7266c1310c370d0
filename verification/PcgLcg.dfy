/** The linear congruential engine under PCG, at every word width `b`: one step is
    `state * mult + inc` modulo `2^b`. Jump-ahead, stepping back and discrete distance. */
module PcgLcg {
  import opened Bits
  import opened Modular

  /** A state type of `b` bits with its multiplier and increment. */
  datatype Lcg = Lcg(b: nat, mult: nat, inc: nat)
  {
    function M(): nat
      ensures M() >= 1
    {
      Pow2(b)
    }

    ghost predicate Valid() { mult < M() && inc < M() }

    function Bump(s: nat): (r: nat)
      ensures r < M()
    {
      (s * mult + inc) % M()
    }

    /** `n` steps, one at a time: what jump-ahead must agree with. */
    ghost function Iter(n: nat, s: nat): nat
    {
      if n == 0 then s else Iter(n - 1, Bump(s))
    }

    /** Over the integers, `n` steps map `x` to `A(n) * x + C(n)`. */
    ghost function A(n: nat): nat
    {
      if n == 0 then 1 else mult * A(n - 1)
    }

    ghost function C(n: nat): nat
    {
      if n == 0 then 0 else mult * C(n - 1) + inc
    }

    lemma {:induction false} CRight(n: nat)
      ensures C(n + 1) == C(n) + A(n) * inc
    {
      if n > 0 {
        CRight(n - 1);
        assert C(n + 1) == mult * C(n) + inc;
        CRightAlgebra(mult, C(n - 1), A(n - 1), inc);
      } else {
        assert C(1) == mult * C(0) + inc;
      }
    }

    static lemma CRightAlgebra(a: int, c: int, an: int, i: int)
      ensures a * (c + an * i) == a * c + (a * an) * i
    {
    }

    /** Composition of `n` steps after `m` steps. */
    lemma {:induction false} Compose(m: nat, n: nat)
      ensures A(m + n) == A(m) * A(n)
      ensures C(m + n) == A(n) * C(m) + C(n)
    {
      if n > 0 {
        Compose(m, n - 1);
        var a, am, cm, an, cn := mult, A(m), C(m), A(n - 1), C(n - 1);
        assert A(m + n) == a * A(m + (n - 1)) == a * (am * an);
        assert C(m + n) == a * C(m + (n - 1)) + inc == a * (an * cm + cn) + inc;
        ComposeAlgebra(a, am, cm, an, cn);
      }
    }

    static lemma ComposeAlgebra(a: int, am: int, cm: int, an: int, cn: int)
      ensures a * (am * an) == am * (a * an)
      ensures a * (an * cm + cn) == (a * an) * cm + a * cn
    {
    }

    /** `n` single steps are one affine map modulo `2^b`. */
    lemma {:induction false} IterAffine(n: nat, s: nat)
      requires s < M()
      ensures Iter(n, s) == (A(n) * s + C(n)) % M()
    {
      if n == 0 {
        SmallMod(s, M());
      } else {
        IterAffine(n - 1, Bump(s));
        IterAffineStep(n, s);
      }
    }

    lemma IterAffineStep(n: nat, s: nat)
      requires n > 0 && Iter(n - 1, Bump(s)) == (A(n - 1) * Bump(s) + C(n - 1)) % M()
      ensures Iter(n, s) == (A(n) * s + C(n)) % M()
    {
      var a, c := A(n - 1), C(n - 1);
      assert A(n) == mult * a;
      assert C(n) == c + a * inc by { CRight(n - 1); }
      AffineStep(a, c, s, mult, inc, M());
    }

    /** An affine map after one step is an affine map. */
    static lemma AffineStep(a: int, c: int, s: int, k: int, i: int, m: nat)
      requires m > 0
      ensures (a * ((s * k + i) % m) + c) % m == ((k * a) * s + (c + a * i)) % m
    {
      AffineMod(a, s * k + i, c, m);
      AffineAlgebra(a, s, k, i);
    }

    static lemma AffineMod(a: int, y: int, c: int, m: nat)
      requires m > 0
      ensures (a * (y % m) + c) % m == (a * y + c) % m
    {
      CongMod(y, m);
      MulCong(a, a, y % m, y, m);
      AddCong(a * (y % m), a * y, c, c, m);
    }

    static lemma AffineAlgebra(a: int, s: int, k: int, c: int)
      ensures a * (s * k + c) == (k * a) * s + a * c
    {
    }

    lemma {:induction false} IterBound(n: nat, s: nat)
      requires s < M()
      ensures Iter(n, s) < M()
    {
      IterAffine(n, s);
    }

    lemma {:induction false} IterAdd(m: nat, n: nat, s: nat)
      ensures Iter(m + n, s) == Iter(n, Iter(m, s))
    {
      if m > 0 { IterAdd(m - 1, n, Bump(s)); }
    }

    // -------------------------------------------------------------- advance

    /** The affine map of `2^k` steps by repeated squaring, reduced as the loop keeps it. */
    lemma Square(n: nat, m: nat, p: nat)
      requires m == A(n) % M() && p == C(n) % M()
      ensures (m * m) % M() == A(n + n) % M()
      ensures ((m + 1) * p) % M() == C(n + n) % M()
    {
      Compose(n, n);
      CongMod(A(n), M());
      CongMod(C(n), M());
      MulCong(m, A(n), m, A(n), M());
      AddCong(m, A(n), 1, 1, M());
      MulCong(m + 1, A(n) + 1, p, C(n), M());
      Distribute(A(n), C(n));
    }

    static lemma Distribute(a: int, c: int)
      ensures (a + 1) * c == a * c + c
    {
    }

    /** Appending `n` steps to an accumulated affine map of `j` steps. */
    lemma Append(j: nat, n: nat, am: nat, ap: nat, m: nat, p: nat)
      requires am == A(j) % M() && ap == C(j) % M() && m == A(n) % M() && p == C(n) % M()
      ensures (am * m) % M() == A(j + n) % M()
      ensures (ap * m + p) % M() == C(j + n) % M()
    {
      Compose(j, n);
      CongMod(A(j), M());
      CongMod(C(j), M());
      CongMod(A(n), M());
      CongMod(C(n), M());
      MulCong(am, A(j), m, A(n), M());
      MulCong(ap, C(j), m, A(n), M());
      AddCong(ap * m, C(j) * A(n), p, C(n), M());
      assert C(j) * A(n) == A(n) * C(j);
    }

    /** Jump-ahead by `delta` steps in as many rounds as `delta` has bits equals `delta`
        single steps. */
    method Advance(state: nat, delta: nat) returns (r: nat)
      requires Valid() && state < M() && delta < M()
      ensures r == Iter(delta, state)
    {
      var accMult, accPlus := 1 % M(), 0;
      var curMult, curPlus := mult, inc;
      var d := delta;
      ghost var j: nat, n: nat := 0, 1;
      First();
      while d > 0
        invariant 0 <= d && delta == j + d * n
        invariant accMult == A(j) % M() && accPlus == C(j) % M()
        invariant curMult == A(n) % M() && curPlus == C(n) % M()
      {
        Halve(d, n);
        if d % 2 == 1 {
          Append(j, n, accMult, accPlus, curMult, curPlus);
          accMult := (accMult * curMult) % M();
          accPlus := (accPlus * curMult + curPlus) % M();
          j := j + n;
        }
        Square(n, curMult, curPlus);
        curPlus := ((curMult + 1) * curPlus) % M();
        curMult := (curMult * curMult) % M();
        n := n + n;
        d := d / 2;
      }
      r := (accMult * state + accPlus) % M();
      Final(j, state, accMult, accPlus);
    }

    lemma First()
      requires Valid()
      ensures mult == A(1) % M() && inc == C(1) % M()
      ensures 1 % M() == A(0) % M() && 0 == C(0) % M()
    {
      assert A(0) == 1 && C(0) == 0;
      assert A(1) == mult * A(0) == mult && C(1) == mult * C(0) + inc == inc;
      DivModUnique(0, M(), 0, 0);
      SmallMod(mult, M());
      SmallMod(inc, M());
    }

    static lemma Halve(d: nat, n: nat)
      ensures d * n == (d / 2) * (n + n) + (if d % 2 == 1 then n else 0)
    {
      var h := d / 2;
      if d % 2 == 1 {
        assert (2 * h + 1) * n == h * (n + n) + n;
      } else {
        assert (2 * h) * n == h * (n + n);
      }
    }

    lemma Final(j: nat, s: nat, am: nat, ap: nat)
      requires s < M() && am == A(j) % M() && ap == C(j) % M()
      ensures (am * s + ap) % M() == Iter(j, s)
    {
      CongMod(A(j), M());
      CongMod(C(j), M());
      MulCong(am, A(j), s, s, M());
      AddCong(am * s, A(j) * s, ap, C(j), M());
      IterAffine(j, s);
    }

    // -------------------------------------------------------------- backstep

    /** By doubling: `2^k` steps of an odd multiplier act on the low `k` bits as the identity. */
    lemma {:induction false} Cycle(k: nat)
      requires mult % 2 == 1
      ensures Cong(A(Pow2(k)), 1, Pow2(k)) && Cong(C(Pow2(k)), 0, Pow2(k))
      ensures A(Pow2(k)) % 2 == 1
    {
      if k == 0 {
        assert A(1) == mult * A(0) == mult;
      } else {
        Cycle(k - 1);
        var n := Pow2(k - 1);
        Compose(n, n);
        DoubleCycle(A(n), C(n), n);
      }
    }

    static lemma DoubleCycle(a: nat, c: nat, p: nat)
      requires p > 0 && a % 2 == 1 && Cong(a, 1, p) && Cong(c, 0, p)
      ensures Cong(a * a, 1, 2 * p) && Cong(a * c + c, 0, 2 * p) && (a * a) % 2 == 1
    {
      CongIff(a, 1, p);
      CongIff(c, 0, p);
      var u, v, h := (a - 1) / p, c / p, (a + 1) / 2;
      assert a - 1 == u * p && c == v * p && a + 1 == 2 * h;
      SquareAlgebra(a, c, p, u, v, h);
      ModAddMul(1, u * h, 2 * p);
      ModAddMul(0, v * h, 2 * p);
      MulCong(a, 1, a, 1, 2);
    }

    static lemma SquareAlgebra(a: int, c: int, p: int, u: int, v: int, h: int)
      requires a - 1 == u * p && c == v * p && a + 1 == 2 * h
      ensures a * a == 1 + (u * h) * (2 * p)
      ensures a * c + c == 0 + (v * h) * (2 * p)
    {
      assert a * a == 1 + (a - 1) * (a + 1);
      assert (u * p) * (2 * h) == (u * h) * (2 * p);
      assert a * c + c == (a + 1) * c;
      assert (2 * h) * (v * p) == (v * h) * (2 * p);
    }

    /** `2^b` steps are the identity. */
    lemma FullCycle(s: nat)
      requires mult % 2 == 1 && s < M()
      ensures Iter(M(), s) == s
    {
      Cycle(b);
      IterAffine(M(), s);
      MulCong(A(M()), 1, s, s, M());
      AddCong(A(M()) * s, 1 * s, C(M()), 0, M());
      SmallMod(s, M());
    }

    /** `-delta` as an unsigned word of `b` bits. */
    function Neg(delta: nat): nat
      requires delta < M()
    {
      (M() - delta) % M()
    }

    /** Stepping back undoes jumping ahead, in either order, for every odd multiplier. */
    lemma BackstepUndoes(s: nat, delta: nat)
      requires mult % 2 == 1 && s < M() && delta < M()
      ensures Iter(Neg(delta), Iter(delta, s)) == s
      ensures Iter(delta, Iter(Neg(delta), s)) == s
    {
      if delta == 0 {
        assert M() % M() == 0;
      } else {
        SmallMod(M() - delta, M());
        IterAdd(delta, Neg(delta), s);
        IterAdd(Neg(delta), delta, s);
        FullCycle(s);
      }
    }

    ghost predicate Undone(s: nat, delta: nat)
      requires delta < M()
    {
      Iter(Neg(delta), Iter(delta, s)) == s
    }

    /** For an even multiplier no step back exists: two states have one successor. So `backstep`
        undoes `advance` on all states if and only if the multiplier is odd. */
    lemma BackstepIffOdd()
      requires Valid() && b >= 1
      ensures mult % 2 == 1 <==> forall s: nat, delta: nat :: s < M() && delta < M() ==> Undone(s, delta)
    {
      if mult % 2 == 1 {
        forall s: nat, delta: nat | s < M() && delta < M() ensures Undone(s, delta) {
          BackstepUndoes(s, delta);
        }
      } else {
        var t := Pow2(b - 1);
        assert Iter(1, 0) == Iter(0, Bump(0)) && Iter(1, t) == Iter(0, Bump(t));
        EvenCollides(t);
        assert 1 < M() && 0 < t < M();
        assert !Undone(0, 1) || !Undone(t, 1);
      }
    }

    lemma EvenCollides(t: nat)
      requires b >= 1 && mult % 2 == 0 && t == Pow2(b - 1)
      ensures Bump(0) == Bump(t)
    {
      var h := mult / 2;
      assert t * mult == h * (2 * t) by { assert mult == 2 * h; }
      ModAddMul(inc, h, M());
    }

    // -------------------------------------------------------------- distance

    /** Where `distance` works: multiplier 1 modulo 4 with an odd increment, or no increment,
        multiplier 5 modulo 8 and odd states that agree in their low two bits. */
    ghost predicate Distant(s: nat, t: nat)
    {
      if inc != 0 then mult % 4 == 1 && inc % 2 == 1
      else mult % 8 == 5 && s % 2 == 1 && s % 4 == t % 4
    }

    /** The number of low bits that the sequence never changes. */
    function Fixed(): nat
    {
      if inc == 0 then 2 else 0
    }

    /** The shape of `2^k` steps: the multiplier is 1 modulo `2^(k+2)`; with an increment the
        added part is an odd multiple of `2^k`, without one the multiplier less 1 is an odd
        multiple of `2^(k+2)`. */
    ghost predicate DoublingShape(k: nat, u: nat, v: nat)
    {
      if inc != 0 then
        A(Pow2(k)) == 1 + u * (4 * Pow2(k)) && C(Pow2(k)) == (2 * v + 1) * Pow2(k)
      else
        A(Pow2(k)) == 1 + (2 * u + 1) * (4 * Pow2(k)) && C(Pow2(k)) == 0
    }

    lemma DoublingBase() returns (u: nat, v: nat)
      requires if inc != 0 then mult % 4 == 1 && inc % 2 == 1 else mult % 8 == 5
      ensures DoublingShape(0, u, v)
    {
      assert A(1) == mult * A(0) == mult && C(1) == mult * C(0) + inc == inc;
      u := if inc != 0 then mult / 4 else mult / 8;
      v := inc / 2;
    }

    lemma {:induction false} Doubling(k: nat) returns (u: nat, v: nat)
      requires if inc != 0 then mult % 4 == 1 && inc % 2 == 1 else mult % 8 == 5
      ensures DoublingShape(k, u, v)
    {
      if k == 0 {
        u, v := DoublingBase();
      } else {
        u, v := Doubling(k - 1);
        var n := Pow2(k - 1);
        Compose(n, n);
        if inc != 0 {
          u, v := DoubleLcg(A(n), C(n), n, u, v);
        } else {
          u := DoubleMcg(A(n), n, u);
        }
      }
    }

    static lemma DoubleLcg(a: nat, c: nat, p: nat, u: nat, v: nat) returns (u': nat, v': nat)
      requires a == 1 + u * (4 * p) && c == (2 * v + 1) * p
      ensures a * a == 1 + u' * (8 * p) && a * c + c == (2 * v' + 1) * (2 * p)
    {
      var x := u * p;
      u' := u + 2 * (u * x);
      v' := v + x * (2 * v + 1);
      assert a == 1 + 4 * x;
      MulOut(u, x, p);
      SquareOnePlus(x);
      MulOut2(v, x, 2 * v + 1, p);
      Factor(x, c);
    }

    static lemma SquareOnePlus(x: int)
      ensures (1 + 4 * x) * (1 + 4 * x) == 1 + (8 * x + 16 * (x * x))
    {
    }

    static lemma Factor(x: int, c: int)
      ensures (1 + 4 * x) * c + c == (4 * x + 2) * c
    {
    }

    static lemma MulOut(u: int, x: int, p: int)
      requires x == u * p
      ensures (u + 2 * (u * x)) * (8 * p) == 8 * x + 16 * (x * x)
    {
      assert (u * x) * p == x * x;
      assert (u + 2 * (u * x)) * (8 * p) == 8 * (u * p) + 16 * ((u * x) * p);
    }

    static lemma MulOut2(v: int, x: int, y: int, p: int)
      requires y == 2 * v + 1
      ensures (2 * (v + x * y) + 1) * (2 * p) == (4 * x + 2) * (y * p)
    {
      assert 2 * (v + x * y) + 1 == (2 * x + 1) * y;
      assert ((2 * x + 1) * y) * (2 * p) == (4 * x + 2) * (y * p);
    }

    static lemma DoubleMcg(a: nat, p: nat, u: nat) returns (u': nat)
      requires a == 1 + (2 * u + 1) * (4 * p)
      ensures a * a == 1 + (2 * u' + 1) * (8 * p)
    {
      var w := 2 * u + 1;
      var x := w * p;
      assert w * (4 * p) == 4 * x;
      u' := u + w * x;
      assert a * a == 1 + 8 * x + 16 * (x * x) by { assert a == 1 + 4 * x; }
      assert (2 * u' + 1) * (8 * p) == (w + 2 * (w * x)) * (8 * p);
      MulOut(w, x, p);
    }

    /** `2^k` steps flip bit `k` (above the fixed bits) and leave the bits below alone. */
    lemma Flip(k: nat, x: nat, s: nat, t: nat)
      requires Distant(s, t) && x < M() && (inc == 0 ==> x % 2 == 1) && k + Fixed() < b
      ensures Cong(Iter(Pow2(k), x), x + Pow2(k + Fixed()), Pow2(k + Fixed() + 1))
    {
      var u, v := Doubling(k);
      var p := Pow2(k);
      IterAffine(p, x);
      var y := A(p) * x + C(p);
      CongMod(y, M());
      CongDown(y % M(), y, k + Fixed() + 1, b);
      if inc != 0 {
        FlipLcg(A(p), C(p), x, p, u, v);
        CongMul(x + p, 2 * (u * x) + v, 2 * p);
      } else {
        assert Pow2(k + 2) == 4 * p && Pow2(k + 3) == 8 * p;
        FlipMcg(A(p), x, p, u);
        CongMul(x + 4 * p, u * x + x / 2, 8 * p);
      }
    }

    static lemma FlipLcg(a: nat, c: nat, x: nat, p: nat, u: nat, v: nat)
      requires a == 1 + u * (4 * p) && c == (2 * v + 1) * p
      ensures a * x + c == x + p + (2 * (u * x) + v) * (2 * p)
    {
      assert (u * (4 * p)) * x == (2 * (u * x)) * (2 * p);
      assert (2 * v + 1) * p == v * (2 * p) + p;
      assert (1 + u * (4 * p)) * x == x + (u * (4 * p)) * x;
    }

    static lemma FlipMcg(a: nat, x: nat, p: nat, u: nat)
      requires a == 1 + (2 * u + 1) * (4 * p) && x % 2 == 1
      ensures a * x == x + 4 * p + (u * x + x / 2) * (8 * p)
    {
      var h := x / 2;
      assert (2 * u + 1) * x == 2 * (u * x) + x == 2 * (u * x) + 2 * h + 1;
      assert ((2 * u + 1) * (4 * p)) * x == ((2 * u + 1) * x) * (4 * p);
      assert (2 * (u * x + h) + 1) * (4 * p) == (u * x + h) * (8 * p) + 4 * p;
      assert (1 + (2 * u + 1) * (4 * p)) * x == x + ((2 * u + 1) * (4 * p)) * x;
    }

    lemma OddBump(s: nat)
      requires inc == 0 && mult % 2 == 1 && s % 2 == 1 && b >= 1
      ensures Bump(s) % 2 == 1
    {
      MulCong(s, 1, mult, 1, 2);
      CongMod(s * mult, M());
      CongDown(Bump(s), s * mult, 1, b);
      assert Pow2(1) == 2 * Pow2(0) == 2;
    }

    lemma {:induction false} OddIter(n: nat, s: nat)
      requires inc == 0 && mult % 2 == 1 && s % 2 == 1 && b >= 1
      ensures Iter(n, s) % 2 == 1
    {
      if n > 0 {
        OddBump(s);
        OddIter(n - 1, Bump(s));
      }
    }

    /** The sequence does not come back to a state, not even in its low bits, before they have all flipped. */
    lemma {:induction false} NoReturn(k: nat, i: nat, x: nat, s: nat, t: nat)
      requires Distant(s, t) && OnSequence(x) && k + Fixed() <= b && 0 < i < Pow2(k)
      ensures !Cong(Iter(i, x), x, Pow2(k + Fixed()))
      decreases k
    {
      var p, low := Pow2(k - 1), k - 1 + Fixed();
      if i < p {
        NoReturn(k - 1, i, x, s, t);
        NotUp(Iter(i, x), x, low);
      } else {
        var y := Iter(p, x);
        Flipped(k - 1, x, s, t);
        IterAdd(p, i - p, x);
        if i > p {
          SequenceStays(p, x, s, t);
          NoReturn(k - 1, i - p, y, s, t);
          NotTrans(Iter(i, x), y, x, Pow2(low));
          NotUp(Iter(i, x), x, low);
        }
      }
    }

    /** A state of the sequence, which stays odd where there is no increment. */
    ghost predicate OnSequence(x: nat) { x < M() && (inc == 0 ==> x % 2 == 1) }

    lemma SequenceStays(n: nat, x: nat, s: nat, t: nat)
      requires Distant(s, t) && OnSequence(x)
      ensures OnSequence(Iter(n, x))
    {
      IterBound(n, x);
      if inc == 0 {
        OddMultiplier(mult);
        OddIter(n, x);
      }
    }

    static lemma OddMultiplier(m: nat)
      requires m % 8 == 5
      ensures m % 2 == 1
    {
    }

    lemma Flipped(k: nat, x: nat, s: nat, t: nat)
      requires Distant(s, t) && OnSequence(x) && k + Fixed() < b
      ensures var y := Iter(Pow2(k), x);
              Cong(y, x, Pow2(k + Fixed())) && !Cong(y, x, Pow2(k + Fixed() + 1))
    {
      Flip(k, x, s, t);
      Halfway(Iter(Pow2(k), x), x, Pow2(k + Fixed()));
    }

    static lemma Halfway(y: int, x: int, p: nat)
      requires p > 0 && Cong(y, x + p, 2 * p)
      ensures Cong(y, x, p) && !Cong(y, x, 2 * p)
    {
      CongIff(y, x + p, 2 * p);
      CongIff(y, x, 2 * p);
      CongIff(y, x, p);
      var q := (y - x - p) / (2 * p);
      HalfwayParts(y - x, q, p);
    }

    static lemma HalfwayParts(d: int, q: int, p: nat)
      requires p > 0 && d - p == q * (2 * p)
      ensures d % p == 0 && d % (2 * p) == p
    {
      DivModUnique(d, 2 * p, q, p);
      assert d == (2 * q + 1) * p;
      DivModUnique(d, p, 2 * q + 1, 0);
    }

    static lemma NotUp(a: int, x: int, k: nat)
      requires !Cong(a, x, Pow2(k))
      ensures !Cong(a, x, Pow2(k + 1))
    {
      if Cong(a, x, Pow2(k + 1)) { CongDown(a, x, k, k + 1); }
    }

    static lemma NotTrans(a: int, y: int, x: int, m: nat)
      requires m > 0 && Cong(y, x, m) && !Cong(a, y, m)
      ensures !Cong(a, x, m)
    {
    }

    /** `period_pow2`: from every state of a sequence, which is odd where there is no increment, exactly
        `2^b` steps, or `2^(b - 2)` without an increment, lead back for the first time. */
    lemma Period(x: nat)
      requires x < M() && b >= Fixed() && Distant(x, x)
      ensures Iter(Pow2(b - Fixed()), x) == x
      ensures forall i :: 0 < i < Pow2(b - Fixed()) ==> Iter(i, x) != x
    {
      forall i | 0 < i < Pow2(b - Fixed()) ensures Iter(i, x) != x {
        NoReturn(b - Fixed(), i, x, x, x);
      }
      if inc != 0 {
        assert mult == 4 * (mult / 4) + 1;
        FullCycle(x);
      } else {
        QuarterCycle(x);
      }
    }

    lemma QuarterCycle(x: nat)
      requires inc == 0 && mult % 8 == 5 && b >= 2 && x < M()
      ensures Iter(Pow2(b - 2), x) == x
    {
      var p := Pow2(b - 2);
      var u, v := Doubling(b - 2);
      IterAffine(p, x);
      assert M() == 2 * Pow2(b - 1) == 4 * p;
      QuarterAlgebra(A(p), x, 2 * u + 1, M());
    }

    static lemma QuarterAlgebra(a: nat, x: nat, q: nat, m: nat)
      requires a == 1 + q * m && x < m
      ensures (a * x + 0) % m == x
    {
      assert a * x == (q * x) * m + x;
      DivModUnique(a * x, m, q * x, x);
    }

    /** No fewer steps lead to a state like `t` in the bits looked at. */
    lemma LeastSteps(s: nat, t: nat, m: nat, k: nat, d: nat, j: nat)
      requires Distant(s, t) && s < M() && k + Fixed() <= m <= b && j < d < Pow2(k) && Cong(Iter(d, s), t, Pow2(m))
      ensures !Cong(Iter(j, s), t, Pow2(m))
    {
      SequenceStays(j, s, s, t);
      NoReturn(k, d - j, Iter(j, s), s, t);
      NotMet(s, t, m, k + Fixed(), d, j);
    }

    lemma NotMet(s: nat, t: nat, m: nat, low: nat, d: nat, j: nat)
      requires low <= m && j < d && Cong(Iter(d, s), t, Pow2(m))
      requires !Cong(Iter(d - j, Iter(j, s)), Iter(j, s), Pow2(low))
      ensures !Cong(Iter(j, s), t, Pow2(m))
    {
      IterAdd(j, d - j, s);
      Apart(Iter(j, s), Iter(d, s), t, low, m);
    }

    static lemma Apart(x: int, y: int, t: int, k: nat, m: nat)
      requires k <= m && !Cong(y, x, Pow2(k)) && Cong(y, t, Pow2(m))
      ensures !Cong(x, t, Pow2(m))
    {
      if Cong(x, t, Pow2(m)) { CongDown(y, x, k, m); }
    }

    /** What holds before round `k` of `distance`, when `d` steps lead from `s` to `cur`. */
    ghost predicate Round(s: nat, t: nat, m: nat, k: nat, d: nat, cur: nat, distance: nat)
    {
      && d < Pow2(k) && distance == d * Pow2(Fixed()) && (k + Fixed() <= m || k == 0)
      && cur == Iter(d, s) && cur < M() && Cong(cur, t, Pow2(k + Fixed()))
    }

    ghost predicate Powers(k: nat, theBit: nat, curMult: nat, curPlus: nat)
    {
      && theBit == Pow2(k + Fixed()) % M()
      && curMult == A(Pow2(k)) % M() && curPlus == C(Pow2(k)) % M()
    }

    /** The number of steps from `s` to `t`, one bit per round: at most `m` rounds, the assertion
        of the source never fails, and jumping ahead by the result leads from `s` to a state that
        agrees with `t` under the mask of `m` low bits (all bits when `m == b`), and no smaller
        number of steps does. */
    method Distance(s: nat, t: nat, m: nat) returns (r: nat, ghost rounds: nat)
      requires Valid() && s < M() && t < M() && m <= b && Distant(s, t)
      ensures Cong(Iter(r, s), t, Pow2(m))
      ensures forall j :: 0 <= j < r ==> !Cong(Iter(j, s), t, Pow2(m))
      ensures r < Pow2(m) && rounds <= m
    {
      var mask := Pow2(m) - 1;
      var cur: nat, curMult: nat, curPlus: nat := s, mult, inc;
      var isMcg := curPlus == 0;
      var theBit: nat := (if isMcg then 4 else 1) % M();
      var distance: nat := 0;
      ghost var k, d: nat := 0, 0;
      RoundZero(s, t, m);
      while And(cur, mask) != And(t, mask)
        invariant Round(s, t, m, k, d, cur, distance) && Powers(k, theBit, curMult, curPlus)
        decreases m - (k + Fixed())
      {
        BitLeft(s, t, m, k, d, cur, distance, theBit, curMult, curPlus);
        if And(cur, theBit) != And(t, theBit) {
          RoundStep(s, t, m, k, d, cur, distance, theBit, curMult, curPlus);
          cur := (cur * curMult + curPlus) % M();
          distance := Or(distance, theBit);
          d := d + Pow2(k);
        } else {
          RoundSkip(s, t, m, k, d, cur, distance, theBit, curMult, curPlus);
        }
        assert And(cur, theBit) == And(t, theBit);
        PowersStep(k, theBit, curMult, curPlus);
        theBit := (theBit * 2) % M();
        curPlus := ((curMult + 1) * curPlus) % M();
        curMult := (curMult * curMult) % M();
        k := k + 1;
      }
      RoundEnd(s, t, m, k, d, cur, distance);
      NoFewer(s, t, m, k, d, cur, distance);
      r := if isMcg then distance / 4 else distance;
      rounds := k;
    }

    lemma NoFewer(s: nat, t: nat, m: nat, k: nat, d: nat, cur: nat, distance: nat)
      requires Distant(s, t) && s < M() && m <= b && Round(s, t, m, k, d, cur, distance) && Cong(Iter(d, s), t, Pow2(m))
      ensures forall j :: 0 <= j < d ==> !Cong(Iter(j, s), t, Pow2(m))
    {
      forall j | 0 <= j < d ensures !Cong(Iter(j, s), t, Pow2(m)) {
        LeastSteps(s, t, m, k, d, j);
      }
    }

    lemma RoundZero(s: nat, t: nat, m: nat)
      requires Valid() && s < M() && Distant(s, t)
      ensures Round(s, t, m, 0, 0, s, 0)
      ensures Powers(0, (if inc == 0 then 4 else 1) % M(), mult, inc)
    {
      First();
      assert Pow2(0) == 1 && Pow2(1) == 2 && Pow2(2) == 4;
    }

    lemma BitLeft(s: nat, t: nat, m: nat, k: nat, d: nat, cur: nat, distance: nat,
                  theBit: nat, curMult: nat, curPlus: nat)
      requires m <= b && Round(s, t, m, k, d, cur, distance) && Powers(k, theBit, curMult, curPlus)
      requires And(cur, Pow2(m) - 1) != And(t, Pow2(m) - 1)
      ensures k + Fixed() < m && theBit == Pow2(k + Fixed())
    {
      AndMask(cur, m);
      AndMask(t, m);
      if k + Fixed() >= m {
        CongDown(cur, t, m, k + Fixed());
      } else {
        Pow2Monotone(k + Fixed(), b);
        SmallMod(Pow2(k + Fixed()), M());
      }
    }

    lemma RoundStep(s: nat, t: nat, m: nat, k: nat, d: nat, cur: nat, distance: nat,
                    theBit: nat, curMult: nat, curPlus: nat)
      requires Distant(s, t) && s < M() && m <= b && k + Fixed() < m
      requires Round(s, t, m, k, d, cur, distance) && Powers(k, theBit, curMult, curPlus) && theBit == Pow2(k + Fixed())
      requires And(cur, theBit) != And(t, theBit)
      ensures var cur' := (cur * curMult + curPlus) % M();
              && Round(s, t, m, k + 1, d + Pow2(k), cur', Or(distance, theBit))
              && And(cur', theBit) == And(t, theBit)
    {
      Differs(cur, t, k + Fixed());
      FlipRound(s, cur, t, k, d, curMult, curPlus);
      SetDistance(d, k, Fixed(), distance, theBit);
      BitAgrees((cur * curMult + curPlus) % M(), t, k + Fixed());
    }

    static lemma BitAgrees(x: nat, t: nat, i: nat)
      requires Cong(x, t, Pow2(i + 1))
      ensures And(x, Pow2(i)) == And(t, Pow2(i))
    {
      CongDown(x, t, i, i + 1);
      Differs(x, t, i);
    }

    lemma RoundSkip(s: nat, t: nat, m: nat, k: nat, d: nat, cur: nat, distance: nat,
                    theBit: nat, curMult: nat, curPlus: nat)
      requires k + Fixed() < m
      requires Round(s, t, m, k, d, cur, distance) && theBit == Pow2(k + Fixed())
      requires And(cur, theBit) == And(t, theBit)
      ensures Round(s, t, m, k + 1, d, cur, distance)
    {
      Differs(cur, t, k + Fixed());
    }

    lemma PowersStep(k: nat, theBit: nat, curMult: nat, curPlus: nat)
      requires Powers(k, theBit, curMult, curPlus)
      ensures Powers(k + 1, (theBit * 2) % M(), (curMult * curMult) % M(), ((curMult + 1) * curPlus) % M())
    {
      var p := Pow2(k + Fixed());
      CongMod(p, M());
      MulCong(theBit, p, 2, 2, M());
      Square(Pow2(k), curMult, curPlus);
    }

    lemma RoundEnd(s: nat, t: nat, m: nat, k: nat, d: nat, cur: nat, distance: nat)
      requires Round(s, t, m, k, d, cur, distance)
      requires And(cur, Pow2(m) - 1) == And(t, Pow2(m) - 1)
      ensures d == (if inc == 0 then distance / 4 else distance)
      ensures Cong(Iter(d, s), t, Pow2(m)) && d < Pow2(m) && k <= m
    {
      AndMask(cur, m);
      AndMask(t, m);
      Pow2Monotone(k, m);
      assert Pow2(0) == 1 && Pow2(1) == 2 && Pow2(2) == 4;
    }

    /** The bit test of a round tells whether one more bit agrees. */
    static lemma Differs(x: nat, t: nat, i: nat)
      requires Cong(x, t, Pow2(i))
      ensures And(x, Pow2(i)) == And(t, Pow2(i)) <==> Cong(x, t, Pow2(i + 1))
      ensures And(x, Pow2(i)) != And(t, Pow2(i)) ==> Cong(x + Pow2(i), t, Pow2(i + 1))
    {
      AndBit(x, i);
      AndBit(t, i);
      NextBit(x, t, i);
    }

    /** A round that steps: `2^k` more steps, after which one more bit agrees. */
    lemma FlipRound(s: nat, cur: nat, t: nat, k: nat, d: nat, m: nat, p: nat)
      requires Distant(s, t) && s < M() && cur == Iter(d, s) && cur < M() && k + Fixed() < b
      requires m == A(Pow2(k)) % M() && p == C(Pow2(k)) % M()
      requires Cong(cur, t, Pow2(k + Fixed())) && Cong(cur + Pow2(k + Fixed()), t, Pow2(k + Fixed() + 1))
      ensures var next := (cur * m + p) % M();
              next == Iter(d + Pow2(k), s) && next < M() && Cong(next, t, Pow2(k + Fixed() + 1))
    {
      OddStays(s, cur, t, k);
      Flip(k, cur, s, t);
      CongTrans(Iter(Pow2(k), cur), cur + Pow2(k + Fixed()), t, Pow2(k + Fixed() + 1));
      Final(Pow2(k), cur, m, p);
      IterAdd(d, Pow2(k), s);
      assert m * cur == cur * m;
    }

    static lemma CongTrans(x: int, y: int, z: int, m: nat)
      requires m > 0 && Cong(x, y, m) && Cong(y, z, m)
      ensures Cong(x, z, m)
    {
    }

    /** The states of the multiplicative sequence stay odd. */
    lemma OddStays(s: nat, cur: nat, t: nat, k: nat)
      requires Distant(s, t) && Cong(cur, t, Pow2(k + Fixed()))
      ensures inc == 0 ==> cur % 2 == 1
    {
      if inc == 0 {
        CongDown(cur, t, 2, k + 2);
        assert Pow2(2) == 4 by { assert Pow2(0) == 1 && Pow2(1) == 2; }
        OddOfFour(cur, t, s);
      }
    }

    static lemma OddOfFour(cur: nat, t: nat, s: nat)
      requires Cong(cur, t, 4) && s % 2 == 1 && s % 4 == t % 4
      ensures cur % 2 == 1
    {
      ParityOfFour(cur);
      ParityOfFour(s);
    }

    static lemma SetDistance(d: nat, k: nat, e: nat, distance: nat, theBit: nat)
      requires d < Pow2(k) && distance == d * Pow2(e) && theBit == Pow2(k + e)
      ensures Or(distance, theBit) == (d + Pow2(k)) * Pow2(e)
    {
      Pow2Add(k, e);
      ScaleLess(d, Pow2(k), Pow2(e));
      OrTop(distance, k + e);
      ScaleSum(d, Pow2(k), Pow2(e));
    }

    static lemma OrTop(x: nat, i: nat)
      requires x < Pow2(i)
      ensures Or(x, Pow2(i)) == x + Pow2(i)
    {
      OrDisjoint(x, 1, i);
    }

    static lemma ScaleLess(x: nat, y: nat, p: nat)
      requires x < y && p > 0
      ensures x * p < y * p
    {
    }

    static lemma ScaleSum(x: nat, y: nat, p: nat)
      ensures (x + y) * p == x * p + y * p
    {
    }

    // -------------------------------------------------------------- engines on different streams

    /** How far one step moves, as an unsigned word. */
    function Stride(s: nat): nat
    {
      (inc + (mult - 1) * s) % M()
    }

    lemma StrideIsStep(s: nat)
      ensures mult >= 1 ==> Cong(s + Stride(s), Bump(s), M())
    {
      if mult >= 1 {
        LessOne(mult, s);
        AddedStride(s, inc + (mult - 1) * s, s * mult + inc, M());
      }
    }

    static lemma AddedStride(s: int, y: int, z: int, m: nat)
      requires m > 0 && s + y == z
      ensures Cong(s + y % m, z % m, m)
    {
      CongMod(y, m);
      AddCong(s, s, y % m, y, m);
      CongMod(z, m);
    }

    static lemma LessOne(a: int, s: int)
      ensures (a - 1) * s == s * a - s
    {
    }

    /** The strides of a sequence follow the multiplicative sequence with the same multiplier. */
    lemma {:induction false} StrideIter(n: nat, s: nat)
      requires mult >= 1 && s < M()
      ensures Stride(Iter(n, s)) == (A(n) * Stride(s)) % M()
    {
      if n == 0 {
        SmallMod(Stride(s), M());
      } else {
        StrideIter(n - 1, Bump(s));
        StrideBump(s);
        var y := mult * Stride(s);
        AffineMod(A(n - 1), y, 0, M());
        assert A(n - 1) * y == A(n) * Stride(s) by {
          ComposeAlgebra(mult, A(n - 1), 0, Stride(s), 0);
          MulAssoc(mult, A(n - 1), Stride(s));
        }
      }
    }

    static lemma MulAssoc(x: int, y: int, z: int)
      ensures x * (y * z) == (x * y) * z
    {
    }

    lemma StrideBump(s: nat)
      requires mult >= 1
      ensures Stride(Bump(s)) == (mult * Stride(s)) % M()
    {
      var x := s * mult + inc;
      var y := inc + (mult - 1) * s;
      AffineMod(mult - 1, x, inc, M());
      AffineMod(mult, y, 0, M());
      StrideAlgebra(mult, inc, s);
    }

    static lemma StrideAlgebra(a: int, c: int, s: int)
      ensures (a - 1) * (s * a + c) + c == a * (c + (a - 1) * s)
    {
      var w := (a - 1) * s;
      assert (a - 1) * (s * a) == w * a;
      assert (a - 1) * c + c == a * c;
      assert a * (c + w) == a * c + a * w;
    }

    lemma SmallMod(x: nat, m: nat)
      requires x < m
      ensures x % m == x
    {
    }
  }

  /** The default multipliers are 5 modulo 8, and so 1 modulo 4, at every width; the default
      increments are odd. */
  lemma DefaultConstants()
    ensures forall a :: a in {141, 12829, 747796405, 6364136223846793005,
                              2549297995355413924 * 0x1_0000_0000_0000_0000 + 4865540595714422341}
                        ==> a % 8 == 5
    ensures forall c :: c in {77, 47989, 2891336453, 1442695040888963407,
                              6364136223846793005 * 0x1_0000_0000_0000_0000 + 1442695040888963407}
                        ==> c % 2 == 1
  {
  }

  /** The engine: one state word that its operations move along the sequence. */
  class Engine {
    const lcg: Lcg
    var state: nat

    ghost predicate Valid()
      reads this
    {
      lcg.Valid() && state < lcg.M()
    }

    constructor (lcg: Lcg, state: nat)
      requires lcg.Valid() && state < lcg.M()
      ensures Valid() && this.lcg == lcg && this.state == state
    {
      this.lcg := lcg;
      this.state := state;
    }

    method Advance(delta: nat)
      requires Valid() && delta < lcg.M()
      modifies this
      ensures Valid() && state == lcg.Iter(delta, old(state))
    {
      lcg.IterBound(delta, state);
      state := lcg.Advance(state, delta);
    }

    /** Goes back to the state that `delta` steps lead here from. */
    method Backstep(delta: nat)
      requires Valid() && delta < lcg.M() && lcg.mult % 2 == 1
      modifies this
      ensures Valid() && lcg.Iter(delta, state) == old(state)
    {
      lcg.BackstepUndoes(state, delta);
      Advance(lcg.Neg(delta));
    }

    /** `this - rhs` on one sequence: how far `rhs` has to jump to get here. */
    method MinusSameStream(rhs: Engine) returns (d: nat)
      requires Valid() && rhs.Valid() && rhs.lcg == lcg && lcg.Distant(rhs.state, state)
      ensures d < lcg.M() && lcg.Iter(d, rhs.state) == state
    {
      ghost var rounds;
      d, rounds := lcg.Distance(rhs.state, state, lcg.b);
      lcg.IterBound(d, rhs.state);
      lcg.SmallMod(state, lcg.M());
      lcg.SmallMod(lcg.Iter(d, rhs.state), lcg.M());
    }

    /** `this - rhs` between sequences that differ in the increment: the number of steps after
        which one step of `rhs` moves as far as one step of `this`, up to sign. */
    method MinusOtherStream(rhs: Engine) returns (d: nat)
      requires Valid() && rhs.Valid() && rhs.lcg.b == lcg.b && rhs.lcg.mult == lcg.mult
      requires lcg.mult % 8 == 5 && lcg.inc % 2 == 1 && rhs.lcg.inc % 2 == 1
      ensures d < lcg.M()
      ensures var stride := rhs.lcg.Stride(rhs.lcg.Iter(d, rhs.state));
              stride == lcg.Stride(state) || lcg.Neg(stride) == lcg.Stride(state)
      ensures var x := rhs.lcg.Iter(d, rhs.state);
              || Cong(rhs.lcg.Bump(x) - x, lcg.Bump(state) - state, lcg.M())
              || Cong(x - rhs.lcg.Bump(x), lcg.Bump(state) - state, lcg.M())
    {
      var lhsDiff := lcg.Stride(state);
      var rhsDiff := rhs.lcg.Stride(rhs.state);
      OddStride(lcg, state);
      OddStride(rhs.lcg, rhs.state);
      if lhsDiff % 4 != rhsDiff % 4 {
        NegAgrees(lcg, rhsDiff, lhsDiff);
        rhsDiff := lcg.Neg(rhsDiff);
      }
      var mcg := Lcg(lcg.b, lcg.mult, 0);
      ghost var rounds;
      d, rounds := mcg.Distance(rhsDiff, lhsDiff, lcg.b);
      StrideReached(lcg, rhs.lcg, rhs.state, rhsDiff, lhsDiff, d);
      StridesMove(lcg, state, rhs.lcg, rhs.lcg.Iter(d, rhs.state));
    }
  }

  /** The stride is how far one step moves. */
  lemma StrideMoves(g: Lcg, s: nat)
    requires g.mult >= 1
    ensures Cong(g.Stride(s), g.Bump(s) - s, g.M())
  {
    g.StrideIsStep(s);
    var back: int := 0 - s;
    AddCong(s + g.Stride(s), g.Bump(s), back, back, g.M());
    assert s + g.Stride(s) + back == g.Stride(s);
  }

  /** Equal strides, or opposite ones, are equal moves, or opposite ones. */
  lemma StridesMove(l: Lcg, s: nat, g: Lcg, x: nat)
    requires l.b == g.b && l.mult >= 1 && g.mult >= 1
    requires g.Stride(x) == l.Stride(s) || l.Neg(g.Stride(x)) == l.Stride(s)
    ensures Cong(g.Bump(x) - x, l.Bump(s) - s, l.M()) || Cong(x - g.Bump(x), l.Bump(s) - s, l.M())
  {
    StrideMoves(l, s);
    StrideMoves(g, x);
    if g.Stride(x) != l.Stride(s) {
      OppositeMoves(g.Stride(x), g.Bump(x) - x, l.M());
      l.CongTrans(x - g.Bump(x), l.Neg(g.Stride(x)), l.Bump(s) - s, l.M());
    }
  }

  lemma OppositeMoves(y: nat, z: int, m: nat)
    requires m > 0 && y < m && Cong(y, z, m)
    ensures Cong(-z, (m - y) % m, m)
  {
    CongIff(y, z, m);
    var k := (y - z) / m;
    assert y - z == k * m;
    CongMod(m - y, m);
    assert -z == (m - y) + (k - 1) * m;
    ModAddMul(m - y, k - 1, m);
  }

  lemma Wide(g: Lcg)
    requires g.mult % 8 == 5 && g.mult < g.M()
    ensures g.b >= 3 && g.M() % 8 == 0
  {
    assert Pow2(0) == 1 && Pow2(1) == 2 && Pow2(2) == 4 && Pow2(3) == 8;
    if g.b < 3 {
      Pow2Monotone(g.b, 2);
    } else {
      Pow2Add(3, g.b - 3);
    }
  }

  lemma OddStride(g: Lcg, s: nat)
    requires g.mult % 8 == 5 && g.inc % 2 == 1 && g.mult < g.M()
    ensures g.Stride(s) % 2 == 1 && g.b >= 3 && g.M() % 8 == 0
  {
    Wide(g);
    var e := (g.mult - 1) * s;
    assert e % 2 == 0 by { EvenTimes(g.mult - 1, s); }
    ParityOfSum(g.inc, e);
    LowBitOfMod(g.inc + e, g.b);
  }

  lemma EvenTimes(a: nat, s: nat)
    requires a % 2 == 0
    ensures (a * s) % 2 == 0
  {
    assert a * s == 2 * ((a / 2) * s);
  }

  lemma LowBitOfMod(y: nat, b: nat)
    requires b >= 1
    ensures (y % Pow2(b)) % 2 == y % 2
  {
    CongMod(y, Pow2(b));
    CongDown(y % Pow2(b), y, 1, b);
    assert Pow2(1) == 2 * Pow2(0) == 2;
  }

  lemma NegAgrees(g: Lcg, x: nat, y: nat)
    requires g.M() % 8 == 0 && x < g.M() && x % 2 == 1 && y % 2 == 1 && x % 4 != y % 4
    ensures g.Neg(x) % 2 == 1 && g.Neg(x) % 4 == y % 4 && g.Neg(x) < g.M()
  {
    g.SmallMod(g.M() - x, g.M());
    NegFour(g.M(), x, y);
  }

  lemma NegFour(m: nat, x: nat, y: nat)
    requires m % 8 == 0 && x <= m && x % 2 == 1 && y % 2 == 1 && x % 4 != y % 4
    ensures (m - x) % 2 == 1 && (m - x) % 4 == y % 4
  {
    var k, q, r := m / 8, x / 4, x % 4;
    assert m == 8 * k && x == 4 * q + r;
    ParityOfFour(x);
    ParityOfFour(y);
    assert r == 1 || r == 3;
    DivModUnique(m - x, 4, 2 * k - q - 1, 4 - r);
    ParityOfFour(m - x);
  }

  lemma StrideReached(l: Lcg, g: Lcg, s: nat, x: nat, y: nat, d: nat)
    requires g.b == l.b && g.mult == l.mult && g.mult >= 1 && s < g.M()
    requires g.Stride(s) > 0 && (x == g.Stride(s) || x == l.Neg(g.Stride(s))) && x < l.M() && y < l.M()
    requires Cong(Lcg(l.b, l.mult, 0).Iter(d, x), y, l.M())
    ensures g.Stride(g.Iter(d, s)) == y || l.Neg(g.Stride(g.Iter(d, s))) == y
  {
    var mcg := Lcg(l.b, l.mult, 0);
    mcg.IterAffine(d, x);
    SameA(mcg, g, d);
    g.StrideIter(d, s);
    mcg.SmallMod(y, l.M());
    CongMod(mcg.A(d) * x, l.M());
    if x != g.Stride(s) {
      var m := l.M();
      var z := g.A(d) * g.Stride(s);
      l.SmallMod(m - g.Stride(s), m);
      assert g.A(d) * (m - g.Stride(s)) == g.A(d) * m - z by { MulMinus(g.A(d), m, g.Stride(s)); }
      NegMod(z, g.A(d), m);
    }
  }

  lemma MulMinus(a: int, m: int, s: int)
    ensures a * (m - s) == a * m - a * s
  {
  }

  lemma NegMod(z: nat, k: nat, m: nat)
    requires m > 0
    ensures (k * m - z) % m == (m - z % m) % m
  {
    var q, r := z / m, z % m;
    assert k * m - z == (m - r) + (k - q - 1) * m;
    ModAddMul(m - r, k - q - 1, m);
  }

  lemma {:induction false} SameA(g: Lcg, h: Lcg, n: nat)
    requires g.mult == h.mult
    ensures g.A(n) == h.A(n)
    ensures g.inc == 0 ==> g.C(n) == 0
  {
    if n > 0 { SameA(g, h, n - 1); }
  }
}
