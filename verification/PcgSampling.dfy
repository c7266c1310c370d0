/** Unbiased sampling: `bounded_rand` by rejection, and the in-place `shuffle` built on it. */
module PcgSampling {
  import opened Bits
  import opened Common

  // ---------------------------------------------------------------- bounded_rand

  /** `(max - min + 1 - upper_bound) % upper_bound` in unsigned words of `b` bits, where the sum
      before the last remainder wraps around. */
  function Threshold(b: nat, bound: nat): nat
    requires 0 < bound < Pow2(b)
  {
    var m := Pow2(b);
    (((m - 1) + 1) % m + (m - bound)) % m % bound
  }

  lemma ThresholdIs(b: nat, bound: nat)
    requires 0 < bound < Pow2(b)
    ensures Threshold(b, bound) == Pow2(b) % bound
    ensures (Pow2(b) - Threshold(b, bound)) % bound == 0
  {
    var m := Pow2(b);
    assert m % m == 0;
    DivModUnique(m - bound, m, 0, m - bound);
    ModAddMul(m - bound, 1, bound);
    var q, t := m / bound, m % bound;
    assert m - t == q * bound;
    ModAddMul(0, q, bound);
  }

  /** The accepted raw values that lead to the result `v`. */
  function Preimage(lo: nat, hi: nat, bound: nat, v: nat): set<nat>
    requires bound > 0
  {
    set r: nat | lo <= r < hi && r % bound == v
  }

  /** Any `bound` consecutive values hold exactly one with remainder `v`. */
  lemma OnePerBlock(lo: nat, bound: nat, v: nat)
    requires v < bound
    ensures |Preimage(lo, lo + bound, bound, v)| == 1
  {
    var r := if v >= lo % bound then lo - lo % bound + v else lo - lo % bound + v + bound;
    var q := lo / bound;
    assert lo - lo % bound == q * bound;
    assert r % bound == v by {
      if v >= lo % bound { DivModUnique(r, bound, q, v); }
      else { assert r == (q + 1) * bound + v; DivModUnique(r, bound, q + 1, v); }
    }
    forall x: nat | lo <= x < lo + bound && x % bound == v ensures x == r {
      if x < r { ModDistinct(x, r, bound); }
      if r < x { ModDistinct(r, x, bound); }
    }
    assert Preimage(lo, lo + bound, bound, v) == {r};
  }

  lemma {:induction false} CountBlocks(lo: nat, k: nat, bound: nat, v: nat)
    requires v < bound
    ensures |Preimage(lo, lo + k * bound, bound, v)| == k
  {
    if k == 0 {
      assert Preimage(lo, lo + 0 * bound, bound, v) == {};
    } else {
      CountBlocks(lo, k - 1, bound, v);
      var mid := lo + (k - 1) * bound;
      assert mid + bound == lo + k * bound;
      OnePerBlock(mid, bound, v);
      var a, b := Preimage(lo, mid, bound, v), Preimage(mid, mid + bound, bound, v);
      assert Preimage(lo, mid + bound, bound, v) == a + b;
      assert a !! b;
    }
  }

  lemma ExactQuotient(x: nat, d: nat)
    requires d > 0 && x % d == 0
    ensures x / d * d == x
  {
  }

  /** Exact uniformity: of the accepted raw values, every result in `[0, bound)` has the same
      number of preimages, and they account for all of them. */
  lemma BoundedRandUniform(b: nat, bound: nat, v: nat)
    requires 0 < bound < Pow2(b) && v < bound
    ensures var t := Threshold(b, bound);
            && t < Pow2(b)
            && |Preimage(t, Pow2(b), bound, v)| == (Pow2(b) - t) / bound
            && (Pow2(b) - t) / bound * bound == Pow2(b) - t
  {
    ThresholdIs(b, bound);
    var t := Threshold(b, bound);
    var k := (Pow2(b) - t) / bound;
    ExactQuotient(Pow2(b) - t, bound);
    CountBlocks(t, k, bound, v);
  }

  /** The rejection loop on the outputs that the generator produces: the first acceptable one,
      reduced. */
  method BoundedRand(b: nat, bound: nat, raws: seq<nat>) returns (r: Option<nat>, used: nat)
    requires 0 < bound < Pow2(b) && forall i :: 0 <= i < |raws| ==> raws[i] < Pow2(b)
    ensures used <= |raws|
    ensures r.None? ==> used == |raws| && forall i :: 0 <= i < |raws| ==> raws[i] < Threshold(b, bound)
    ensures r.Some? ==>
              && used > 0 && r.value == raws[used - 1] % bound
              && raws[used - 1] >= Threshold(b, bound)
              && forall i :: 0 <= i < used - 1 ==> raws[i] < Threshold(b, bound)
    ensures r.Some? ==> r.value < bound
  {
    var threshold := Threshold(b, bound);
    used := 0;
    while used < |raws|
      invariant used <= |raws|
      invariant forall i :: 0 <= i < used ==> raws[i] < threshold
    {
      var raw := raws[used];
      used := used + 1;
      if raw >= threshold {
        return Some(raw % bound), used;
      }
    }
    r := None;
  }

  // ---------------------------------------------------------------- shuffle

  /** How many elements are drawn. */
  function Draws(n: nat): nat { if n <= 1 then 0 else n - 1 }

  /** What `bounded_rand` may return on the way: below `n`, then below `n - 1`, down to 2. */
  predicate Choices(c: seq<nat>, n: nat)
  {
    |c| == Draws(n) && SomeChoices(c, n)
  }

  /** The same for a run that may stop early. */
  predicate SomeChoices(c: seq<nat>, n: nat)
  {
    |c| <= Draws(n) && forall i :: 0 <= i < |c| ==> c[i] < n - i
  }

  function Swap<T>(s: seq<T>, i: nat, j: nat): (r: seq<T>)
    requires i < |s| && j < |s|
    ensures |r| == |s| && r[i] == s[j] && r[j] == s[i]
    ensures forall p :: 0 <= p < |s| && p != i && p != j ==> r[p] == s[p]
  {
    s[i := s[j]][j := s[i]]
  }

  /** The shuffle on values: the chosen element goes to the end, the rest is shuffled. */
  function Shuffled<T>(s: seq<T>, c: seq<nat>): (r: seq<T>)
    requires SomeChoices(c, |s|)
    ensures |r| == |s|
    decreases |s|
  {
    if |s| <= 1 || |c| == 0 then s
    else
      var n := |s|;
      var s' := Swap(s, c[0], n - 1);
      Shuffled(s'[..n - 1], c[1..]) + [s'[n - 1]]
  }

  lemma SwapPermutes<T>(s: seq<T>, i: nat, j: nat)
    requires i < |s| && j < |s|
    ensures multiset(Swap(s, i, j)) == multiset(s)
  {
  }

  lemma {:induction false} ShuffledPermutes<T>(s: seq<T>, c: seq<nat>)
    requires SomeChoices(c, |s|)
    ensures multiset(Shuffled(s, c)) == multiset(s)
    decreases |s|
  {
    if |s| > 1 && |c| > 0 {
      var n := |s|;
      var s' := Swap(s, c[0], n - 1);
      var front, last := s'[..n - 1], s'[n - 1];
      ShuffledPermutes(front, c[1..]);
      SwapPermutes(s, c[0], n - 1);
      SameFront(Shuffled(front, c[1..]), front, last);
      LastBack(s');
    }
  }

  lemma SameFront<T>(r: seq<T>, s: seq<T>, x: T)
    requires multiset(r) == multiset(s)
    ensures multiset(r + [x]) == multiset(s + [x])
  {
  }

  /** Taking the last element of `t` off both sides. */
  lemma Peel<T>(s: seq<T>, t: seq<T>, k: nat)
    requires multiset(s) == multiset(t) && |s| == |t| > 1 && k < |s| && s[k] == t[|t| - 1]
    ensures multiset(Swap(s, k, |s| - 1)[..|s| - 1]) == multiset(t[..|t| - 1])
  {
    var n := |s|;
    var s' := Swap(s, k, n - 1);
    SwapPermutes(s, k, n - 1);
    DropLast(s');
    DropLast(t);
  }

  lemma DropLast<T>(s: seq<T>)
    requires |s| > 0
    ensures multiset(s[..|s| - 1]) == multiset(s) - multiset{s[|s| - 1]}
  {
    assert s == s[..|s| - 1] + [s[|s| - 1]];
  }

  lemma SameLength<T>(s: seq<T>, t: seq<T>)
    requires multiset(s) == multiset(t)
    ensures |s| == |t|
    ensures |s| == 1 ==> s == t
  {
    assert |s| == |multiset(s)| == |multiset(t)| == |t|;
    if |s| == 1 {
      assert s[0] in multiset(t);
    }
  }

  lemma ShuffledCons<T>(s: seq<T>, k: nat, rest: seq<nat>)
    requires |s| > 1 && k < |s| && SomeChoices(rest, |s| - 1)
    ensures SomeChoices([k] + rest, |s|)
    ensures Shuffled(s, [k] + rest)
         == Shuffled(Swap(s, k, |s| - 1)[..|s| - 1], rest) + [s[k]]
  {
    var c := [k] + rest;
    assert c[0] == k && c[1..] == rest;
    forall i | 0 <= i < |c| ensures c[i] < |s| - i {
      if i > 0 { assert c[i] == rest[i - 1]; }
    }
  }

  /** Every rearrangement is reached. */
  lemma {:induction false} ShuffledReachesAll<T>(s: seq<T>, t: seq<T>) returns (c: seq<nat>)
    requires multiset(s) == multiset(t)
    ensures Choices(c, |s|) && Shuffled(s, c) == t
    decreases |s|
  {
    SameLength(s, t);
    if |s| <= 1 {
      c := [];
    } else {
      var n := |s|;
      assert t[n - 1] in multiset(s);
      var k: nat :| k < n && s[k] == t[n - 1];
      Peel(s, t, k);
      var rest := ShuffledReachesAll(Swap(s, k, n - 1)[..n - 1], t[..n - 1]);
      c := [k] + rest;
      ShuffledCons(s, k, rest);
      LastBack(t);
    }
  }

  lemma LastBack<T>(t: seq<T>)
    requires |t| > 0
    ensures t[..|t| - 1] + [t[|t| - 1]] == t
  {
  }

  /** Distinct elements are rearranged differently by different choices, so with uniform choices
      every permutation is equally likely. */
  lemma {:induction false} ShuffledInjective<T>(s: seq<T>, c: seq<nat>, d: seq<nat>)
    requires NoDup(s) && Choices(c, |s|) && Choices(d, |s|) && Shuffled(s, c) == Shuffled(s, d)
    ensures c == d
    decreases |s|
  {
    if |s| > 1 {
      var n := |s|;
      var a, b := Swap(s, c[0], n - 1), Swap(s, d[0], n - 1);
      assert Shuffled(s, c)[n - 1] == a[n - 1] && Shuffled(s, d)[n - 1] == b[n - 1];
      assert c[0] == d[0];
      assert Shuffled(s, c)[..n - 1] == Shuffled(a[..n - 1], c[1..]);
      assert Shuffled(s, d)[..n - 1] == Shuffled(a[..n - 1], d[1..]);
      ShuffledInjective(a[..n - 1], c[1..], d[1..]);
      assert c == [c[0]] + c[1..] && d == [d[0]] + d[1..];
    }
  }

  // ---------------------------------------------------------------- shuffle on a raw stream

  /** The raw outputs that the draws accept, in order: below each threshold they are skipped. */
  ghost function Kept(b: nat, n: nat, raws: seq<nat>): (r: seq<nat>)
    requires n < Pow2(b)
    ensures |r| <= Draws(n)
    decreases |raws|
  {
    if n <= 1 || |raws| == 0 then []
    else if raws[0] >= Threshold(b, n) then [raws[0]] + Kept(b, n - 1, raws[1..])
    else Kept(b, n, raws[1..])
  }

  ghost predicate Raw(b: nat, raws: seq<nat>) { forall i :: 0 <= i < |raws| ==> raws[i] < Pow2(b) }

  /** A run of accepted raw values, one for each draw. */
  ghost predicate AcceptedRun(b: nat, n: nat, r: seq<nat>)
    requires n < Pow2(b)
  {
    |r| == Draws(n) && forall i :: 0 <= i < |r| ==> Threshold(b, n - i) <= r[i] < Pow2(b)
  }

  /** The choices that accepted raw values stand for. */
  function Reduced(r: seq<nat>, n: nat): (c: seq<nat>)
    requires |r| <= Draws(n)
    ensures |c| == |r| && SomeChoices(c, n)
    decreases |r|
  {
    if |r| == 0 then [] else ConsChoices(r[0] % n, Reduced(r[1..], n - 1), n); [r[0] % n] + Reduced(r[1..], n - 1)
  }

  lemma ConsChoices(k: nat, rest: seq<nat>, n: nat)
    requires k < n && n > 1 && SomeChoices(rest, n - 1)
    ensures SomeChoices([k] + rest, n)
  {
    var c := [k] + rest;
    forall i | 0 <= i < |c| ensures c[i] < n - i {
      if i > 0 { assert c[i] == rest[i - 1]; }
    }
  }

  lemma {:induction false} KeptAccepted(b: nat, n: nat, raws: seq<nat>)
    requires n < Pow2(b) && Raw(b, raws) && |Kept(b, n, raws)| == Draws(n)
    ensures AcceptedRun(b, n, Kept(b, n, raws))
    decreases |raws|
  {
    if n > 1 && |raws| > 0 {
      if raws[0] >= Threshold(b, n) {
        KeptAccepted(b, n - 1, raws[1..]);
      } else {
        KeptAccepted(b, n, raws[1..]);
      }
    }
  }

  /** Skipping rejected values changes nothing. */
  lemma {:induction false} KeptSkips(b: nat, n: nat, raws: seq<nat>, k: nat)
    requires 1 < n < Pow2(b) && k <= |raws| && forall i :: 0 <= i < k ==> raws[i] < Threshold(b, n)
    ensures Kept(b, n, raws) == Kept(b, n, raws[k..])
  {
    if k > 0 {
      KeptSkips(b, n, raws[1..], k - 1);
      assert raws[1..][k - 1..] == raws[k..];
    }
  }

  /** One draw takes the first kept value, or nothing is kept. */
  lemma KeptDraw(b: nat, n: nat, raws: seq<nat>, r: Option<nat>, used: nat)
    requires 1 < n < Pow2(b) && used <= |raws|
    requires r.None? ==> used == |raws| && forall i :: 0 <= i < |raws| ==> raws[i] < Threshold(b, n)
    requires r.Some? ==> used > 0 && r.value == raws[used - 1] % n && raws[used - 1] >= Threshold(b, n)
    requires r.Some? ==> forall i :: 0 <= i < used - 1 ==> raws[i] < Threshold(b, n)
    ensures r.None? ==> Kept(b, n, raws) == []
    ensures r.Some? ==> Kept(b, n, raws) == [raws[used - 1]] + Kept(b, n - 1, raws[used..])
  {
    if r.Some? {
      KeptSkips(b, n, raws, used - 1);
      assert raws[used - 1..][1..] == raws[used..];
    } else {
      KeptSkips(b, n, raws, |raws|);
    }
  }

  lemma ReducedCons(x: nat, rest: seq<nat>, n: nat)
    requires 1 < n && |rest| <= Draws(n - 1)
    ensures Reduced([x] + rest, n) == [x % n] + Reduced(rest, n - 1)
  {
    assert ([x] + rest)[1..] == rest;
  }

  /** The in-place loop, drawing each choice through `bounded_rand` from the raw outputs of the
      generator: it computes the shuffle of the accepted outputs, and is complete exactly when the
      outputs suffice. */
  method Shuffle<T>(a: array<T>, b: nat, raws: seq<nat>) returns (complete: bool, used: nat)
    requires a.Length < Pow2(b) && Raw(b, raws)
    modifies a
    ensures used <= |raws| && (complete <==> |Kept(b, a.Length, raws)| == Draws(a.Length))
    ensures complete ==> AcceptedRun(b, a.Length, Kept(b, a.Length, raws))
    ensures a[..] == Shuffled(old(a[..]), Reduced(Kept(b, a.Length, raws), a.Length))
    ensures multiset(a[..]) == multiset(old(a[..]))
  {
    ghost var start, kept := a[..], Kept(b, a.Length, raws);
    ghost var goal, k := Shuffled(start, Reduced(kept, a.Length)), kept;
    var count := a.Length;
    used := 0;
    complete := true;
    assert start[..count] == start && start[count..] == [] && raws[0..] == raws;
    while count > 1 && complete
      invariant count <= a.Length && used <= |raws| && |kept| == Draws(a.Length) - Draws(count) + |k|
      invariant Progress(a[..], goal, count, k)
      invariant if complete then k == Kept(b, count, raws[used..]) else count > 1 && k == []
      decreases count, complete
    {
      var chosen, next, x := DrawFrom(b, count, raws, used);
      used := next;
      complete := chosen.Some?;
      if complete {
        k := Kept(b, count - 1, raws[next..]);
        ProgressStep(a[..], goal, count, x, k);
        count := count - 1;
        SwapAt(a, chosen.value, count);
      }
    }
    if complete { KeptAccepted(b, a.Length, raws); }
    ProgressEnds(a[..], goal, count);
    ShuffledPermutes(start, Reduced(kept, a.Length));
  }

  /** One `bounded_rand` on the raw outputs from `used` on. */
  method DrawFrom(b: nat, count: nat, raws: seq<nat>, used: nat)
    returns (chosen: Option<nat>, next: nat, ghost x: nat)
    requires 1 < count < Pow2(b) && used <= |raws| && Raw(b, raws)
    ensures used <= next <= |raws|
    ensures chosen.None? ==> Kept(b, count, raws[used..]) == []
    ensures chosen.Some? ==>
              chosen.value == x % count && Kept(b, count, raws[used..]) == [x] + Kept(b, count - 1, raws[next..])
  {
    var n;
    chosen, n := BoundedRand(b, count, raws[used..]);
    KeptDraw(b, count, raws[used..], chosen, n);
    assert raws[used..][n..] == raws[used + n..];
    x := if chosen.Some? then raws[used..][n - 1] else 0;
    next := used + n;
  }

  method SwapAt<T>(a: array<T>, i: nat, j: nat)
    requires i < a.Length && j < a.Length
    modifies a
    ensures a[..] == Swap(old(a[..]), i, j)
    ensures a[i] == old(a[j]) && a[j] == old(a[i])
    ensures forall p :: 0 <= p < a.Length && p != i && p != j ==> a[p] == old(a[p])
  {
    a[i], a[j] := a[j], a[i];
  }

  /** The first `count` elements shuffled by the values `k` still to come give the goal. */
  ghost predicate Progress<T>(now: seq<T>, goal: seq<T>, count: nat, k: seq<nat>)
  {
    && count <= |now| && |k| <= Draws(count)
    && Shuffled(now[..count], Reduced(k, count)) + now[count..] == goal
  }

  /** One round of the loop: the tail grows by the element that was chosen. */
  lemma ProgressStep<T>(now: seq<T>, goal: seq<T>, count: nat, x: nat, rest: seq<nat>)
    requires count > 1 && |rest| <= Draws(count - 1) && Progress(now, goal, count, [x] + rest)
    ensures x % count < count
    ensures Progress(Swap(now, x % count, count - 1), goal, count - 1, rest)
  {
    var after, s := Swap(now, x % count, count - 1), now[..count];
    ReducedCons(x, rest, count);
    ShuffledCons(s, x % count, Reduced(rest, count - 1));
    assert after[..count - 1] == Swap(s, x % count, count - 1)[..count - 1];
    assert after[count - 1..] == [s[x % count]] + now[count..];
    Regroup(Shuffled(after[..count - 1], Reduced(rest, count - 1)), s[x % count], now[count..]);
  }

  lemma Regroup<T>(a: seq<T>, x: T, b: seq<T>)
    ensures a + [x] + b == a + ([x] + b)
  {
  }

  lemma ProgressEnds<T>(now: seq<T>, goal: seq<T>, count: nat)
    requires Progress(now, goal, count, [])
    ensures now == goal
  {
    assert now[..count] + now[count..] == now;
  }

  // ---------------------------------------------------------------- every permutation is equally likely

  /** How many accepted runs stand for one sequence of choices. */
  ghost function Weight(b: nat, n: nat): int
    requires n < Pow2(b)
  {
    if n <= 1 then 1 else (Pow2(b) - Threshold(b, n)) / n * Weight(b, n - 1)
  }

  ghost function Pairs(xs: set<nat>, rests: set<seq<nat>>): set<seq<nat>>
  {
    set x, rest | x in xs && rest in rests :: [x] + rest
  }

  lemma PairsIn(p: seq<nat>, xs: set<nat>, rests: set<seq<nat>>)
    ensures p in Pairs(xs, rests) <==> |p| > 0 && p[0] in xs && p[1..] in rests
  {
    if p in Pairs(xs, rests) {
      var x, rest :| x in xs && rest in rests && p == [x] + rest;
      assert p[1..] == rest;
    }
    if |p| > 0 && p[0] in xs && p[1..] in rests {
      assert p == [p[0]] + p[1..];
    }
  }

  lemma PairsAddRest(x: nat, others: set<seq<nat>>, rest: seq<nat>)
    ensures Pairs({x}, others + {rest}) == Pairs({x}, others) + {[x] + rest}
    ensures rest !in others ==> [x] + rest !in Pairs({x}, others)
  {
    forall p ensures p in Pairs({x}, others + {rest}) <==> p in Pairs({x}, others) + {[x] + rest} {
      PairsIn(p, {x}, others + {rest});
      PairsIn(p, {x}, others);
      assert ([x] + rest)[1..] == rest;
      assert |p| > 0 ==> p == [p[0]] + p[1..];
    }
    PairsIn([x] + rest, {x}, others);
    assert ([x] + rest)[1..] == rest;
  }

  lemma PairsAddFirst(x: nat, others: set<nat>, rests: set<seq<nat>>)
    ensures Pairs(others + {x}, rests) == Pairs(others, rests) + Pairs({x}, rests)
    ensures x !in others ==> Pairs(others, rests) !! Pairs({x}, rests)
  {
    forall p
      ensures p in Pairs(others + {x}, rests) <==> p in Pairs(others, rests) + Pairs({x}, rests)
      ensures x !in others ==> !(p in Pairs(others, rests) && p in Pairs({x}, rests))
    {
      PairsIn(p, others + {x}, rests);
      PairsIn(p, others, rests);
      PairsIn(p, {x}, rests);
    }
  }

  lemma {:induction false} PairsOfOne(x: nat, rests: set<seq<nat>>)
    ensures |Pairs({x}, rests)| == |rests|
    decreases |rests|
  {
    if rests == {} {
      assert Pairs({x}, rests) == {};
    } else {
      var rest :| rest in rests;
      PairsOfOne(x, rests - {rest});
      PairsAddRest(x, rests - {rest}, rest);
      assert rests - {rest} + {rest} == rests;
    }
  }

  lemma {:induction false} PairsSize(xs: set<nat>, rests: set<seq<nat>>)
    ensures |Pairs(xs, rests)| == |xs| * |rests|
    decreases |xs|
  {
    if xs == {} {
      assert Pairs(xs, rests) == {};
    } else {
      var x :| x in xs;
      var others := xs - {x};
      assert others + {x} == xs && |xs| == |others| + 1;
      PairsSize(others, rests);
      PairsOneMore(x, others, rests);
      OneMore(|others|, |rests|);
    }
  }

  lemma PairsOneMore(x: nat, others: set<nat>, rests: set<seq<nat>>)
    requires x !in others
    ensures |Pairs(others + {x}, rests)| == |Pairs(others, rests)| + |rests|
  {
    PairsOfOne(x, rests);
    PairsAddFirst(x, others, rests);
  }

  lemma OneMore(m: nat, n: nat)
    ensures (m + 1) * n == m * n + n
  {
  }

  /** The accepted runs that stand for the choices `c`. */
  ghost function RunsTo(b: nat, n: nat, c: seq<nat>): set<seq<nat>>
    requires n < Pow2(b) && Choices(c, n)
  {
    if n <= 1 then {[]}
    else
      TailChoices(c, n);
      Pairs(Preimage(Threshold(b, n), Pow2(b), n, c[0]), RunsTo(b, n - 1, c[1..]))
  }

  lemma TailChoices(c: seq<nat>, n: nat)
    requires n > 1 && Choices(c, n)
    ensures Choices(c[1..], n - 1)
  {
    forall i | 0 <= i < |c[1..]| ensures c[1..][i] < n - 1 - i {
      assert c[1..][i] == c[i + 1];
    }
  }

  lemma {:induction false} RunsToSize(b: nat, n: nat, c: seq<nat>)
    requires n < Pow2(b) && Choices(c, n)
    ensures |RunsTo(b, n, c)| == Weight(b, n)
  {
    if n > 1 {
      TailChoices(c, n);
      RunsToSize(b, n - 1, c[1..]);
      BoundedRandUniform(b, n, c[0]);
      PairsSize(Preimage(Threshold(b, n), Pow2(b), n, c[0]), RunsTo(b, n - 1, c[1..]));
    }
  }

  lemma {:induction false} RunsToIs(b: nat, n: nat, c: seq<nat>, r: seq<nat>)
    requires n < Pow2(b) && Choices(c, n)
    ensures r in RunsTo(b, n, c) <==> AcceptedRun(b, n, r) && Reduced(r, n) == c
  {
    if n > 1 {
      TailChoices(c, n);
      PairsIn(r, Preimage(Threshold(b, n), Pow2(b), n, c[0]), RunsTo(b, n - 1, c[1..]));
      if |r| > 0 {
        RunsToIs(b, n - 1, c[1..], r[1..]);
        AcceptedCons(b, n, r);
        if |r| == Draws(n) { ReducedIs(r, n, c); }
      }
    }
  }

  lemma AcceptedCons(b: nat, n: nat, r: seq<nat>)
    requires 1 < n < Pow2(b) && |r| > 0
    ensures AcceptedRun(b, n, r)
       <==> Threshold(b, n) <= r[0] < Pow2(b) && AcceptedRun(b, n - 1, r[1..])
  {
    if AcceptedRun(b, n, r) {
      forall i | 0 <= i < |r[1..]| ensures Threshold(b, n - 1 - i) <= r[1..][i] < Pow2(b) {
        assert r[1..][i] == r[i + 1];
      }
    }
    if Threshold(b, n) <= r[0] < Pow2(b) && AcceptedRun(b, n - 1, r[1..]) {
      forall i | 0 <= i < |r| ensures Threshold(b, n - i) <= r[i] < Pow2(b) {
        if i > 0 { assert r[i] == r[1..][i - 1]; }
      }
    }
  }

  lemma ReducedIs(r: seq<nat>, n: nat, c: seq<nat>)
    requires n > 1 && 0 < |r| == |c| <= Draws(n)
    ensures Reduced(r, n) == c <==> r[0] % n == c[0] && Reduced(r[1..], n - 1) == c[1..]
  {
    assert c == [c[0]] + c[1..];
    assert Reduced(r, n)[1..] == Reduced(r[1..], n - 1);
  }

  /** Uniform shuffling: of the accepted raw runs, the same number leads to each permutation of
      distinct elements. */
  lemma ShuffleUniform<T>(b: nat, s: seq<T>, t: seq<T>) returns (runs: set<seq<nat>>)
    requires |s| < Pow2(b) && NoDup(s) && multiset(s) == multiset(t)
    ensures |runs| == Weight(b, |s|)
    ensures forall r :: r in runs <==> AcceptedRun(b, |s|, r) && Shuffled(s, Reduced(r, |s|)) == t
  {
    var c := ShuffledReachesAll(s, t);
    runs := RunsTo(b, |s|, c);
    RunsToSize(b, |s|, c);
    forall r ensures r in runs <==> AcceptedRun(b, |s|, r) && Shuffled(s, Reduced(r, |s|)) == t {
      RunsToIs(b, |s|, c, r);
      if AcceptedRun(b, |s|, r) && Shuffled(s, Reduced(r, |s|)) == t {
        ShuffledInjective(s, Reduced(r, |s|), c);
      }
    }
  }
}
