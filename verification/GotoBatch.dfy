/** Batched packet processing: the sequential foreach loop, and the hand-compiled machine that
    keeps one lane per packet and jumps round-robin between saved labels. Both add the same
    number to the global sum. */
module GotoBatch {
  import opened Bits

  /** C's truncating remainder. */
  function CMod(x: int, m: nat): int
    requires m > 0
  {
    if x >= 0 then x % m else -((-x) % m)
  }

  /** `ABS(a - j) % 8` as the preprocessor expands it: the negative branch is `-1 * a - j`. */
  function Score(a: int, j: int): int
  {
    CMod(if a - j > 0 then a - j else -1 * a - j, 8)
  }

  /** The missing parentheses matter: the score is the distance modulo 8 exactly when the slot is
      larger than the jumper, or when both remainders vanish. */
  lemma ScoreIsDistance(a: nat, j: nat)
    ensures Score(a, j) == (if a > j then a - j else j - a) % 8 <==> a > j || ((a + j) % 8 == 0 && (j - a) % 8 == 0)
    ensures Score(1, 3) == -4
  {
    if a <= j {
      assert -1 * a - j == -(a + j);
    }
  }

  /** The bucket table: every slot holds the index of a bucket. */
  type Cache = seq<seq<nat>>

  predicate CacheOk(cache: Cache)
  {
    forall b, j :: 0 <= b < |cache| && 0 <= j < |cache[b]| ==> cache[b][j] < |cache|
  }

  predicate Bucketed(cache: Cache)
  {
    CacheOk(cache) && forall b :: 0 <= b < |cache| ==> |cache[b]| > 0
  }

  /** The first slot with the largest score among the first `n`. */
  function Best(arr: seq<nat>, jumper: nat, n: nat): (best: nat)
    requires 0 < n <= |arr|
    ensures best < n
    ensures forall j :: 0 <= j < n ==> Score(arr[j], jumper) <= Score(arr[best], jumper)
    ensures forall j :: 0 <= j < best ==> Score(arr[j], jumper) < Score(arr[best], jumper)
  {
    if n == 1 then 0
    else
      var best := Best(arr, jumper, n - 1);
      if Score(arr[n - 1], jumper) > Score(arr[best], jumper) then n - 1 else best
  }

  /** Following one bucket. */
  function Hop(cache: Cache, jumper: nat): (next: nat)
    requires Bucketed(cache) && jumper < |cache|
    ensures next < |cache|
  {
    cache[jumper][Best(cache[jumper], jumper, |cache[jumper]|)]
  }

  /** What a packet adds to the sum: hop until the depth is used up or a multiple of 16 is met. */
  function LaneResult(cache: Cache, depth: nat, jumper: nat, i: nat): nat
    requires Bucketed(cache) && jumper < |cache|
    decreases depth - i
  {
    if i >= depth then jumper
    else
      var next := Hop(cache, jumper);
      if next % 16 == 0 then next else LaneResult(cache, depth, next, i + 1)
  }

  /** `k` buckets in a row. */
  function Hops(cache: Cache, jumper: nat, k: nat): (end: nat)
    requires Bucketed(cache) && jumper < |cache|
    ensures end < |cache|
    decreases k
  {
    if k == 0 then jumper else Hops(cache, Hop(cache, jumper), k - 1)
  }

  /** A packet makes `k` hops: as many as the depth allows, unless an earlier one, and then the first,
      meets a multiple of 16. */
  lemma {:induction false} LaneResultIs(cache: Cache, depth: nat, jumper: nat, i: nat) returns (k: nat)
    requires Bucketed(cache) && jumper < |cache| && i <= depth
    ensures i + k <= depth && LaneResult(cache, depth, jumper, i) == Hops(cache, jumper, k)
    ensures forall j :: 1 <= j < k ==> Hops(cache, jumper, j) % 16 != 0
    ensures i + k < depth ==> k >= 1 && Hops(cache, jumper, k) % 16 == 0
    decreases depth - i
  {
    if i == depth {
      k := 0;
    } else {
      var next := Hop(cache, jumper);
      assert Hops(cache, jumper, 1) == Hops(cache, next, 0);
      if next % 16 == 0 {
        k := 1;
      } else {
        var rest := LaneResultIs(cache, depth, next, i + 1);
        k := rest + 1;
        forall j | 1 <= j < k ensures Hops(cache, jumper, j) % 16 != 0 {
          assert Hops(cache, jumper, j) == Hops(cache, next, j - 1);
        }
      }
    }
  }

  predicate PacketsOk(cache: Cache, pkts: seq<nat>)
  {
    forall l :: 0 <= l < |pkts| ==> pkts[l] < |cache|
  }

  function Total(cache: Cache, depth: nat, pkts: seq<nat>): int
    requires Bucketed(cache) && PacketsOk(cache, pkts)
  {
    if |pkts| == 0 then 0
    else Total(cache, depth, pkts[..|pkts| - 1]) + LaneResult(cache, depth, pkts[|pkts| - 1], 0)
  }

  /** The inner loop that both versions share. */
  method BestSlot(arr: seq<nat>, jumper: nat) returns (best: nat)
    requires |arr| > 0
    ensures best == Best(arr, jumper, |arr|)
  {
    best := 0;
    var maxDiff := Score(arr[0], jumper);
    var j := 1;
    while j < |arr|
      invariant 1 <= j <= |arr| && best == Best(arr, jumper, j) && maxDiff == Score(arr[best], jumper)
    {
      if Score(arr[j], jumper) > maxDiff {
        maxDiff := Score(arr[j], jumper);
        best := j;
      }
      j := j + 1;
    }
  }

  /** The sequential version, `nogoto.c`. */
  method Sequential(cache: Cache, depth: nat, pkts: seq<nat>, sum0: int) returns (sum: int)
    requires Bucketed(cache) && PacketsOk(cache, pkts)
    ensures sum == sum0 + Total(cache, depth, pkts)
  {
    sum := sum0;
    var batchIndex := 0;
    while batchIndex < |pkts|
      invariant 0 <= batchIndex <= |pkts|
      invariant sum == sum0 + Total(cache, depth, pkts[..batchIndex])
    {
      var jumper: nat := pkts[batchIndex];
      var i := 0;
      while i < depth
        invariant 0 <= i <= depth && jumper < |cache|
        invariant LaneResult(cache, depth, jumper, i) == LaneResult(cache, depth, pkts[batchIndex], 0)
      {
        var best := BestSlot(cache[jumper], jumper);
        jumper := cache[jumper][best];
        if jumper % 16 == 0 {
          i := depth;
          break;
        }
        i := i + 1;
      }
      sum := sum + jumper;
      assert pkts[..batchIndex + 1][..batchIndex] == pkts[..batchIndex];
      batchIndex := batchIndex + 1;
    }
    assert pkts[..batchIndex] == pkts;
  }

  // -------------------------------------------------------------------------
  // The done mask
  // -------------------------------------------------------------------------

  datatype Label = Label0 | Label1 | End

  /** The mask with bit `l` set for every lane `l` saved at `end`. */
  function MaskOf(rips: seq<Label>): nat
  {
    if |rips| == 0 then 0 else (if rips[0].End? then 1 else 0) + 2 * MaskOf(rips[1..])
  }

  /** `FPP_SET` marks one lane as done; marking it again changes nothing. */
  lemma {:induction false} SetBit(rips: seq<Label>, l: nat)
    requires l < |rips|
    ensures Or(MaskOf(rips), Pow2(l)) == MaskOf(rips[l := End])
  {
    var now := rips[l := End];
    if l == 0 {
      assert now[1..] == rips[1..];
      OrOne(MaskOf(rips));
    } else {
      SetBit(rips[1..], l - 1);
      assert now[1..] == rips[1..][l - 1 := End];
      OrEven(MaskOf(rips), Pow2(l - 1));
    }
  }

  lemma OrOne(x: nat)
    ensures Or(x, 1) == x - x % 2 + 1
  {
    assert Or(x / 2, 0) == x / 2;
  }

  lemma OrEven(x: nat, y: nat)
    requires y > 0
    ensures Or(x, 2 * y) == x % 2 + 2 * Or(x / 2, y)
  {
  }

  /** The mask is full exactly when every lane is done. */
  lemma {:induction false} MaskFull(rips: seq<Label>)
    ensures MaskOf(rips) <= Pow2(|rips|) - 1
    ensures MaskOf(rips) == Pow2(|rips|) - 1 <==> forall l :: 0 <= l < |rips| ==> rips[l].End?
  {
    if |rips| > 0 {
      MaskFull(rips[1..]);
      assert forall l :: 1 <= l < |rips| ==> rips[l] == rips[1..][l - 1];
      assert Pow2(|rips|) == 2 * Pow2(|rips[1..]|);
      if MaskOf(rips) == Pow2(|rips|) - 1 {
        assert rips[0].End?;
      }
    }
  }

  // -------------------------------------------------------------------------
  // The machine
  // -------------------------------------------------------------------------

  /** A lane saved at `label_1` still owes the result of its packet. */
  ghost predicate LaneOk(cache: Cache, depth: nat, pkt: nat, rip: Label, jumper: nat, i: nat)
    requires Bucketed(cache) && pkt < |cache|
  {
    rip.Label1? ==>
      i < depth && jumper < |cache| && LaneResult(cache, depth, jumper, i) == LaneResult(cache, depth, pkt, 0)
  }

  ghost predicate LanesOk(cache: Cache, depth: nat, pkts: seq<nat>, rips: seq<Label>, jumper: seq<nat>, i: seq<nat>)
    requires Bucketed(cache) && PacketsOk(cache, pkts)
  {
    |rips| == |jumper| == |i| == |pkts|
    && forall l :: 0 <= l < |pkts| ==> LaneOk(cache, depth, pkts[l], rips[l], jumper[l], i[l])
  }

  /** The sum of the results of the lanes that are done. */
  ghost function DoneSum(cache: Cache, depth: nat, pkts: seq<nat>, rips: seq<Label>): int
    requires Bucketed(cache) && PacketsOk(cache, pkts) && |rips| == |pkts|
  {
    if |pkts| == 0 then 0
    else
      var n := |pkts| - 1;
      DoneSum(cache, depth, pkts[..n], rips[..n]) + if rips[n].End? then LaneResult(cache, depth, pkts[n], 0) else 0
  }

  lemma {:induction false} DoneSumSet(cache: Cache, depth: nat, pkts: seq<nat>, rips: seq<Label>, l: nat, rip: Label)
    requires Bucketed(cache) && PacketsOk(cache, pkts) && l < |rips| == |pkts| && !rips[l].End?
    ensures DoneSum(cache, depth, pkts, rips[l := rip])
            == DoneSum(cache, depth, pkts, rips) + if rip.End? then LaneResult(cache, depth, pkts[l], 0) else 0
  {
    var n := |pkts| - 1;
    if l < n {
      DoneSumSet(cache, depth, pkts[..n], rips[..n], l, rip);
      assert rips[l := rip][..n] == rips[..n][l := rip];
    } else {
      assert rips[l := rip][..n] == rips[..n];
    }
  }

  lemma {:induction false} DoneSumAll(cache: Cache, depth: nat, pkts: seq<nat>, rips: seq<Label>, done: bool)
    requires Bucketed(cache) && PacketsOk(cache, pkts) && |rips| == |pkts|
    requires forall l :: 0 <= l < |rips| ==> rips[l].End? == done
    ensures DoneSum(cache, depth, pkts, rips) == if done then Total(cache, depth, pkts) else 0
  {
    if |pkts| > 0 {
      DoneSumAll(cache, depth, pkts[..|pkts| - 1], rips[..|pkts| - 1], done);
    }
  }

  /** Segments a lane has still to execute. */
  ghost function LaneWork(depth: nat, rip: Label, i: nat): nat
  {
    if rip.Label0? then depth + 1 else if rip.Label1? && i < depth then depth - i else 0
  }

  ghost function Work(depth: nat, rips: seq<Label>, i: seq<nat>): nat
    requires |rips| == |i|
  {
    if |rips| == 0 then 0
    else Work(depth, rips[..|rips| - 1], i[..|rips| - 1]) + LaneWork(depth, rips[|rips| - 1], i[|rips| - 1])
  }

  lemma {:induction false} WorkSet(depth: nat, rips: seq<Label>, i: seq<nat>, l: nat, rip: Label, x: nat)
    requires |rips| == |i| && l < |rips|
    ensures Work(depth, rips[l := rip], i[l := x])
            == Work(depth, rips, i) - LaneWork(depth, rips[l], i[l]) + LaneWork(depth, rip, x)
  {
    var n := |rips| - 1;
    if l < n {
      WorkSet(depth, rips[..n], i[..n], l, rip, x);
      assert rips[l := rip][..n] == rips[..n][l := rip] && i[l := x][..n] == i[..n][l := x];
    } else {
      assert rips[l := rip][..n] == rips[..n] && i[l := x][..n] == i[..n];
    }
  }

  /** How many jumps lead round-robin from one lane to another. */
  ghost function Jumps(n: nat, lane: nat, u: nat): nat
    requires lane < n && u < n
  {
    if u >= lane then u - lane else u + n - lane
  }

  /** `I = (I + 1) & BATCH_SIZE_` is the next lane in round-robin order, one jump closer to any other lane. */
  lemma NextLane(bits: nat, lane: nat, u: nat)
    requires lane < Pow2(bits) && u < Pow2(bits)
    ensures var next := And(lane + 1, Pow2(bits) - 1);
            next < Pow2(bits) && (lane != u ==> Jumps(Pow2(bits), next, u) < Jumps(Pow2(bits), lane, u))
  {
    AndMask(lane + 1, bits);
    if lane + 1 == Pow2(bits) {
      DivModUnique(lane + 1, Pow2(bits), 1, 0);
    } else {
      DivModUnique(lane + 1, Pow2(bits), 0, lane + 1);
    }
  }

  /** The loop state between two computed jumps. */
  ghost predicate Machine(cache: Cache, depth: nat, pkts: seq<nat>, sum0: int,
                          rips: seq<Label>, jumper: seq<nat>, i: seq<nat>, iMask: nat, sum: int)
    requires Bucketed(cache) && PacketsOk(cache, pkts)
  {
    && LanesOk(cache, depth, pkts, rips, jumper, i)
    && iMask == MaskOf(rips)
    && sum == sum0 + DoneSum(cache, depth, pkts, rips)
  }

  /** `FPP_PSS`: a lane hops to `label_1` and switches; no other lane changes. */
  lemma Yield(cache: Cache, depth: nat, pkts: seq<nat>, sum0: int, rips: seq<Label>, jumper: seq<nat>, i: seq<nat>,
              iMask: nat, sum: int, l: nat, x: nat, k: nat)
    requires Bucketed(cache) && PacketsOk(cache, pkts)
    requires Machine(cache, depth, pkts, sum0, rips, jumper, i, iMask, sum) && l < |pkts| && !rips[l].End?
    requires LaneOk(cache, depth, pkts[l], Label1, x, k)
    requires k < depth && LaneWork(depth, Label1, k) < LaneWork(depth, rips[l], i[l])
    ensures Machine(cache, depth, pkts, sum0, rips[l := Label1], jumper[l := x], i[l := k], iMask, sum)
    ensures Work(depth, rips[l := Label1], i[l := k]) < Work(depth, rips, i)
  {
    DoneSumSet(cache, depth, pkts, rips, l, Label1);
    WorkSet(depth, rips, i, l, Label1, k);
    MaskSame(rips, l, Label1);
  }

  lemma {:induction false} MaskSame(rips: seq<Label>, l: nat, rip: Label)
    requires l < |rips| && rips[l].End? == rip.End?
    ensures MaskOf(rips[l := rip]) == MaskOf(rips)
  {
    var now := rips[l := rip];
    if l == 0 {
      assert now[1..] == rips[1..];
    } else {
      MaskSame(rips[1..], l - 1, rip);
      assert now[1..] == rips[1..][l - 1 := rip];
    }
  }

  /** `end`: the lane adds its result once and is marked as done. */
  lemma Finish(cache: Cache, depth: nat, pkts: seq<nat>, sum0: int, rips: seq<Label>, jumper: seq<nat>, i: seq<nat>,
               iMask: nat, sum: int, l: nat, x: nat, k: nat)
    requires Bucketed(cache) && PacketsOk(cache, pkts)
    requires Machine(cache, depth, pkts, sum0, rips, jumper, i, iMask, sum) && l < |pkts| && !rips[l].End?
    requires x == LaneResult(cache, depth, pkts[l], 0)
    ensures Machine(cache, depth, pkts, sum0, rips[l := End], jumper[l := x], i[l := k], Or(iMask, Pow2(l)), sum + x)
    ensures Work(depth, rips[l := End], i[l := k]) < Work(depth, rips, i)
  {
    DoneSumSet(cache, depth, pkts, rips, l, End);
    WorkSet(depth, rips, i, l, End, k);
    SetBit(rips, l);
  }

  /** With a full mask every lane has added its result. */
  lemma Halted(cache: Cache, depth: nat, pkts: seq<nat>, sum0: int, rips: seq<Label>, jumper: seq<nat>, i: seq<nat>,
               iMask: nat, sum: int)
    requires Bucketed(cache) && PacketsOk(cache, pkts)
    requires Machine(cache, depth, pkts, sum0, rips, jumper, i, iMask, sum) && iMask == Pow2(|pkts|) - 1
    ensures sum == sum0 + Total(cache, depth, pkts)
  {
    MaskFull(rips);
    DoneSumAll(cache, depth, pkts, rips, true);
  }

  /** With a mask that is not full some lane is unfinished. */
  lemma Unfinished(rips: seq<Label>) returns (u: nat)
    requires MaskOf(rips) != Pow2(|rips|) - 1
    ensures u < |rips| && !rips[u].End?
  {
    MaskFull(rips);
    u :| 0 <= u < |rips| && !rips[u].End?;
  }

  /** The code of one lane from its saved label to the next switch or to `end`. */
  method Segment(cache: Cache, depth: nat, pkt: nat, rip: Label, jumper: nat, i: nat)
    returns (switches: bool, x: nat, k: nat)
    requires Bucketed(cache) && pkt < |cache| && !rip.End? && LaneOk(cache, depth, pkt, rip, jumper, i)
    ensures switches ==> k < depth && LaneOk(cache, depth, pkt, Label1, x, k)
    ensures switches ==> LaneWork(depth, Label1, k) < LaneWork(depth, rip, i)
    ensures !switches ==> x == LaneResult(cache, depth, pkt, 0)
  {
    if rip.Label0? {
      x, k := pkt, 0;
    } else {
      var best := BestSlot(cache[jumper], jumper);
      x, k := cache[jumper][best], i;
      if x % 16 == 0 {
        return false, x, k;
      }
      k := k + 1;
    }
    assert LaneResult(cache, depth, x, k) == LaneResult(cache, depth, pkt, 0);
    switches := k < depth;
  }

  /** The batched version, `goto.c`, for every batch of a power-of-two size: it terminates with the
      sum of the sequential version. */
  method Batched(cache: Cache, depth: nat, pkts: seq<nat>, sum0: int, bits: nat) returns (sum: int)
    requires Bucketed(cache) && PacketsOk(cache, pkts) && |pkts| == Pow2(bits)
    ensures sum == sum0 + Total(cache, depth, pkts)
  {
    var n := |pkts|;
    var i: seq<nat>, jumper: seq<nat> := seq(n, _ => 0), seq(n, _ => 0);
    var batchRips := seq(n, _ => Label0);
    var lane: nat, iMask: nat := 0, 0;
    sum := sum0;
    Initial(cache, depth, pkts, sum0, batchRips, jumper, i);
    ghost var u: nat := 0;
    var full := false;
    while !full
      invariant lane < n && Machine(cache, depth, pkts, sum0, batchRips, jumper, i, iMask, sum)
      invariant full ==> iMask == Pow2(n) - 1
      invariant !full ==> u < n && !batchRips[u].End?
      decreases !full, Work(depth, batchRips, i), if u < n then Jumps(n, lane, u) else 0
    {
      NextLane(bits, lane, u);
      batchRips, jumper, i, iMask, sum, full, u :=
        Visit(cache, depth, pkts, sum0, batchRips, jumper, i, iMask, sum, lane, u);
      lane := And(lane + 1, n - 1);
    }
    Halted(cache, depth, pkts, sum0, batchRips, jumper, i, iMask, sum);
  }

  /** One lane from the jump to its saved label to the next jump. Unless the mask is full then, some
      lane `v` is unfinished, and either work was done or the visit changed nothing. */
  method Visit(cache: Cache, depth: nat, pkts: seq<nat>, ghost sum0: int, rips: seq<Label>, jumper: seq<nat>,
               i: seq<nat>, iMask: nat, sum: int, lane: nat, ghost u: nat)
    returns (rips': seq<Label>, jumper': seq<nat>, i': seq<nat>, iMask': nat, sum': int, full: bool, ghost v: nat)
    requires Bucketed(cache) && PacketsOk(cache, pkts) && lane < |pkts| && u < |pkts|
    requires Machine(cache, depth, pkts, sum0, rips, jumper, i, iMask, sum) && !rips[u].End?
    ensures Machine(cache, depth, pkts, sum0, rips', jumper', i', iMask', sum')
    ensures full ==> iMask' == Pow2(|pkts|) - 1
    ensures !full ==> v < |pkts| && !rips'[v].End?
    ensures !full ==> Work(depth, rips', i') < Work(depth, rips, i) || (rips' == rips && i' == i && v == u != lane)
  {
    rips', jumper', i', iMask', sum', full, v := rips, jumper, i, iMask, sum, false, u;
    if rips[lane].End? {
      // The code at `end` runs again: the label and the bit are set to what they are.
      Revisit(cache, depth, pkts, sum0, rips, jumper, i, iMask, sum, lane);
      rips', iMask' := rips[lane := End], Or(iMask, Pow2(lane));
      full := iMask' == Pow2(|pkts|) - 1;
      return;
    }
    var switches, x, k := Segment(cache, depth, pkts[lane], rips[lane], jumper[lane], i[lane]);
    jumper', i' := jumper[lane := x], i[lane := k];
    if switches {
      Yield(cache, depth, pkts, sum0, rips, jumper, i, iMask, sum, lane, x, k);
      rips', v := rips[lane := Label1], lane;
    } else {
      Finish(cache, depth, pkts, sum0, rips, jumper, i, iMask, sum, lane, x, k);
      rips', iMask', sum' := rips[lane := End], Or(iMask, Pow2(lane)), sum + x;
      full := iMask' == Pow2(|pkts|) - 1;
      if !full {
        v := Unfinished(rips');
      }
    }
  }

  /** Revisiting a finished lane changes nothing. */
  lemma Revisit(cache: Cache, depth: nat, pkts: seq<nat>, sum0: int, rips: seq<Label>, jumper: seq<nat>, i: seq<nat>,
                iMask: nat, sum: int, l: nat)
    requires Bucketed(cache) && PacketsOk(cache, pkts)
    requires Machine(cache, depth, pkts, sum0, rips, jumper, i, iMask, sum) && l < |pkts| && rips[l].End?
    ensures Or(iMask, Pow2(l)) == iMask && rips[l := End] == rips
  {
    SetBit(rips, l);
    assert rips[l := End] == rips;
  }

  lemma Initial(cache: Cache, depth: nat, pkts: seq<nat>, sum0: int, rips: seq<Label>, jumper: seq<nat>, i: seq<nat>)
    requires Bucketed(cache) && PacketsOk(cache, pkts) && |rips| == |jumper| == |i| == |pkts|
    requires forall l :: 0 <= l < |rips| ==> rips[l].Label0?
    ensures Machine(cache, depth, pkts, sum0, rips, jumper, i, 0, sum0)
  {
    DoneSumAll(cache, depth, pkts, rips, false);
    MaskNone(rips);
  }

  lemma {:induction false} MaskNone(rips: seq<Label>)
    requires forall l :: 0 <= l < |rips| ==> !rips[l].End?
    ensures MaskOf(rips) == 0
  {
    if |rips| > 0 {
      MaskNone(rips[1..]);
    }
  }
}
