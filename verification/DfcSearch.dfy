/** Verification of candidate positions (`Verification_CT1`, `_CT2`, `_CT4_7`, `_CT8_plus`): from the
    ids filed under the payload's window to the matches reported. */
module DfcSearch {
  import opened Common
  import opened DfcPattern
  import opened DfcTable
  import opened DfcCompile
  import opened DfcRecursive

  /** How far before the payload the verification may look. */
  const LOOK_BACK := 3

  /** A payload and the memory right before it, whatever that holds. */
  datatype Payload = Payload(before: seq<Byte>, bytes: seq<Byte>) {
    predicate Ok() { |before| == LOOK_BACK }

    function Memory(): seq<Byte> { before + bytes }

    /** The two bytes before position `i`. */
    function LookBack(i: nat): (w: seq<Byte>)
      requires Ok() && i <= |bytes|
      ensures |w| == 2 && w[0] == Memory()[LOOK_BACK + i - 2] && w[1] == Memory()[LOOK_BACK + i - 1]
    {
      Memory()[LOOK_BACK + i - 2..LOOK_BACK + i]
    }
  }

  /** One call of the match action: a pattern id and where the pattern starts, relative to the payload. */
  type Hit = (nat, int)

  /** The pattern fits the memory there, and its window lies at position `i` of the payload. */
  ghost predicate InMemory(pats: seq<Pattern>, d: Payload, i: nat, h: Hit)
  {
    && h.0 < |pats| && |pats[h.0].bytes| > 0 && h.1 + pats[h.0].Anchor() == i
    && LOOK_BACK + h.1 >= 0 && pats[h.0].Occurs(d.Memory(), LOOK_BACK + h.1)
  }

  /** It starts inside the payload, or starts before it are let through. */
  ghost predicate Shows(pats: seq<Pattern>, d: Payload, i: nat, stray: bool, h: Hit)
  {
    InMemory(pats, d, i, h) && (h.1 >= 0 || stray)
  }

  /** What shows at `i` of the listed patterns, each reported once. */
  ghost predicate Picked(hits: seq<Hit>, pats: seq<Pattern>, d: Payload, i: nat, pids: seq<nat>, stray: bool)
  {
    NoDup(hits) && forall h: Hit :: h in hits <==> h.0 in pids && Shows(pats, d, i, stray, h)
  }

  ghost predicate Ids(pats: seq<Pattern>, pids: seq<nat>)
  {
    NoDup(pids) && forall k :: 0 <= k < |pids| ==> pids[k] < |pats| && |pats[pids[k]].bytes| > 0
  }

  /** A pattern shows at most once per window position. */
  lemma OneStart(pats: seq<Pattern>, d: Payload, i: nat, h: Hit, g: Hit)
    requires InMemory(pats, d, i, h) && InMemory(pats, d, i, g) && h.0 == g.0
    ensures h == g
  {
  }

  lemma PickMore(hits: seq<Hit>, pats: seq<Pattern>, d: Payload, i: nat, pids: seq<nat>, stray: bool, h: Hit)
    requires Picked(hits, pats, d, i, pids, stray) && h.0 !in pids && Shows(pats, d, i, stray, h)
    ensures Picked(hits + [h], pats, d, i, pids + [h.0], stray)
  {
    assert h !in hits;
    forall g: Hit ensures g in hits + [h] <==> g.0 in pids + [h.0] && Shows(pats, d, i, stray, g) {
      if g.0 == h.0 && Shows(pats, d, i, stray, g) {
        OneStart(pats, d, i, g, h);
      }
    }
  }

  lemma PickNoMore(hits: seq<Hit>, pats: seq<Pattern>, d: Payload, i: nat, pids: seq<nat>, stray: bool, pid: nat)
    requires Picked(hits, pats, d, i, pids, stray)
    requires forall h: Hit :: h.0 == pid ==> !Shows(pats, d, i, stray, h)
    ensures Picked(hits, pats, d, i, pids + [pid], stray)
  {
  }

  /** A pattern fits when its two parts fit. */
  lemma SplitFits(p: Pattern, v: seq<Byte>, k: nat)
    requires k <= |v| == |p.bytes|
    ensures p.FitsWindow(0, v) <==> p.FitsWindow(0, v[..k]) && p.FitsWindow(k, v[k..])
  {
    if p.FitsWindow(0, v[..k]) && p.FitsWindow(k, v[k..]) {
      forall j | 0 <= j < |v| ensures p.Fits(v[j], 0 + j) {
        if j < k {
          assert v[j] == v[..k][j] && p.Fits(v[..k][j], 0 + j);
        } else {
          assert v[j] == v[k..][j - k] && p.Fits(v[k..][j - k], k + (j - k));
        }
      }
    }
    if p.FitsWindow(0, v) {
      forall j | 0 <= j < |v| ensures p.Fits(v[j], j) {
        assert p.Fits(v[j], 0 + j);
      }
    }
  }

  // -------------------------------------------------------------------------
  // Candidate lists
  // -------------------------------------------------------------------------

  /** The last `m` bytes of a pattern fit the payload at `i`. */
  ghost predicate TailFits(p: Pattern, d: Payload, i: nat, m: nat)
  {
    && i + m <= |d.bytes| && |p.bytes| >= m > 0 && p.Anchor() + m == |p.bytes|
    && p.FitsWindow(|p.bytes| - m, d.bytes[i..i + m])
  }

  ghost predicate TailsFit(pats: seq<Pattern>, d: Payload, i: nat, pids: seq<nat>, m: nat)
    requires Ids(pats, pids)
  {
    forall k :: 0 <= k < |pids| ==> TailFits(pats[pids[k]], d, i, m)
  }

  /** The only place where a pattern whose tail fits can start. */
  lemma StartIs(pats: seq<Pattern>, d: Payload, i: nat, m: nat, h: Hit)
    requires h.0 < |pats| && TailFits(pats[h.0], d, i, m) && InMemory(pats, d, i, h)
    ensures h.1 == i + m - |pats[h.0].bytes|
  {
  }

  lemma SameSlice(d: Payload, i: nat, m: nat)
    requires d.Ok() && i + m <= |d.bytes|
    ensures d.Memory()[LOOK_BACK + i..LOOK_BACK + i + m] == d.bytes[i..i + m]
  {
  }

  /** What the comparison of the bytes before the window decides. */
  lemma HeadDecides(p: Pattern, d: Payload, i: nat, m: nat)
    requires d.Ok() && TailFits(p, d, i, m) && |p.bytes| <= LOOK_BACK + i + m
    ensures var s := LOOK_BACK + i + m - |p.bytes|;
            p.Occurs(d.Memory(), s) <==> p.FitsWindow(0, d.Memory()[s..s + (|p.bytes| - m)])
  {
    var mem, n := d.Memory(), |p.bytes|;
    var s := LOOK_BACK + i + m - n;
    var v := mem[s..s + n];
    SplitFits(p, v, n - m);
    assert v[..n - m] == mem[s..s + (n - m)];
    SameSlice(d, i, m);
    assert v[n - m..] == mem[LOOK_BACK + i..LOOK_BACK + i + m];
  }

  /** The candidate loops of CT2 (`m` is 2) and CT4 (`m` is 4) for entries without recursive
      structures: the window already agrees with the key, so only the bytes before it are compared. */
  method ScanTails(pats: seq<Pattern>, d: Payload, i: nat, pids: seq<nat>, m: nat) returns (hits: seq<Hit>)
    requires d.Ok() && Ids(pats, pids) && TailsFit(pats, d, i, pids, m)
    ensures Picked(hits, pats, d, i, pids, false)
  {
    hits := [];
    var j := 0;
    while j < |pids|
      invariant 0 <= j <= |pids|
      invariant Picked(hits, pats, d, i, pids[..j], false)
    {
      var pid := pids[j];
      assert pids[..j + 1] == pids[..j] + [pid] && pid !in pids[..j];
      var equal := TailAt(pats[pid], d, i, m);
      var h := (pid, i + m - |pats[pid].bytes|);
      if equal {
        PickMore(hits, pats, d, i, pids[..j], false, h);
        hits := hits + [h];
      } else {
        NotShown(pats, d, i, m, false, pid);
        PickNoMore(hits, pats, d, i, pids[..j], false, pid);
      }
      j := j + 1;
    }
    assert pids[..j] == pids;
  }

  /** Whether a pattern whose window fits starts inside the payload and occurs there. */
  method TailAt(p: Pattern, d: Payload, i: nat, m: nat) returns (equal: bool)
    requires d.Ok() && TailFits(p, d, i, m)
    ensures equal <==> i + m >= |p.bytes| && p.Occurs(d.Memory(), LOOK_BACK + i + m - |p.bytes|)
  {
    var n := |p.bytes|;
    equal := false;
    if i + m >= n {
      HeadDecides(p, d, i, m);
      equal := Compare(d.Memory(), LOOK_BACK + i + m - n, p, n - m);
    }
  }

  lemma NotShown(pats: seq<Pattern>, d: Payload, i: nat, m: nat, stray: bool, pid: nat)
    requires pid < |pats| && TailFits(pats[pid], d, i, m)
    requires !Shows(pats, d, i, stray, (pid, i + m - |pats[pid].bytes|))
    ensures forall h: Hit :: h.0 == pid ==> !Shows(pats, d, i, stray, h)
  {
    forall h: Hit | h.0 == pid ensures !Shows(pats, d, i, stray, h) {
      if Shows(pats, d, i, stray, h) {
        StartIs(pats, d, i, m, h);
      }
    }
  }

  /** The candidate loops of CT8: all bytes are compared. */
  method ScanLong(pats: seq<Pattern>, d: Payload, i: nat, pids: seq<nat>) returns (hits: seq<Hit>)
    requires d.Ok() && Ids(pats, pids) && WideIds(8, pats, pids) && i + 8 <= |d.bytes|
    ensures Picked(hits, pats, d, i, pids, false)
  {
    hits := [];
    var j := 0;
    while j < |pids|
      invariant 0 <= j <= |pids|
      invariant Picked(hits, pats, d, i, pids[..j], false)
    {
      var pid := pids[j];
      var p := pats[pid];
      var n := |p.bytes|;
      assert pids[..j + 1] == pids[..j] + [pid] && pid !in pids[..j];
      var equal := false;
      if i >= n - 8 {
        equal := Compare(d.Memory(), LOOK_BACK + i - (n - 8), p, n);
      }
      if equal {
        PickMore(hits, pats, d, i, pids[..j], false, (pid, i - (n - 8)));
        hits := hits + [(pid, i - (n - 8))];
      } else {
        PickNoMore(hits, pats, d, i, pids[..j], false, pid);
      }
      j := j + 1;
    }
    assert pids[..j] == pids;
  }

  // -------------------------------------------------------------------------
  // Entries with recursive structures
  // -------------------------------------------------------------------------

  /** The entry stands for this list of ids, flat or split. */
  ghost predicate Serves(m: nat, e: Entry, pats: seq<Pattern>, crc: nat -> nat, pids: seq<nat>)
  {
    && Ids(pats, pids) && WideIds(m, pats, pids)
    && (e.deep.Flat? ==> e.pids == pids)
    && (e.deep.Deep? ==> Split(m, pats, pids, crc, e.pids, e.deep.filter, e.deep.table))
  }

  lemma OccursByte(p: Pattern, mem: seq<Byte>, s: nat, k: nat)
    requires p.Occurs(mem, s) && k < |p.bytes|
    ensures p.Fits(mem[s + k], k)
  {
    var v := mem[s..s + |p.bytes|];
    assert p.FitsWindow(0, v);
    assert v[k] == mem[s + k];
    assert p.Fits(v[k], 0 + k);
  }

  /** A pattern longer than the window has its own bytes right before the window, so the recursive
      filter and table find it. */
  lemma HitBehind(m: nat, pats: seq<Pattern>, d: Payload, i: nat, h: Hit)
    requires d.Ok() && i <= |d.bytes| && InMemory(pats, d, i, h)
    requires |pats[h.0].bytes| > m && pats[h.0].Anchor() + m == |pats[h.0].bytes|
    ensures Behind(m, pats[h.0], Fragment(d.LookBack(i)))
  {
    var p := pats[h.0];
    var n := |p.bytes|;
    var w := d.LookBack(i);
    Fragment2(w);
    OccursByte(p, d.Memory(), LOOK_BACK + h.1, n - m - 1);
    if n >= m + 2 {
      OccursByte(p, d.Memory(), LOOK_BACK + h.1, n - m - 2);
      assert p.FitsWindow(n - m - 2, w);
      CoversLoaded(p, n - m - 2, w);
    }
  }

  /** Each id's window is the last `m` bytes of its pattern. */
  ghost predicate Anchored(m: nat, pats: seq<Pattern>, pids: seq<nat>)
    requires Ids(pats, pids)
  {
    forall k :: 0 <= k < |pids| ==> pats[pids[k]].Anchor() + m == |pats[pids[k]].bytes|
  }

  /** Hits of the flat ids and hits of the recursive table together. */
  lemma Together(m: nat, flat: seq<Hit>, deep: seq<Hit>, pats: seq<Pattern>, d: Payload, i: nat,
                 e: Entry, crc: nat -> nat, pids: seq<nat>, stray: bool)
    requires d.Ok() && i <= |d.bytes| && Serves(m, e, pats, crc, pids) && e.deep.Deep? && Anchored(m, pats, pids)
    requires Picked(flat, pats, d, i, e.pids, stray)
    requires Picked(deep, pats, d, i, Pids(e.deep.table, crc, Fragment(d.LookBack(i))), stray)
    ensures Picked(flat + deep, pats, d, i, pids, stray)
  {
    forall h: Hit ensures h in flat + deep <==> h.0 in pids && Shows(pats, d, i, stray, h) {
      if h.0 in pids && Shows(pats, d, i, stray, h) && |pats[h.0].bytes| != m {
        HitBehind(m, pats, d, i, h);
      }
    }
    forall j, k | 0 <= j < |flat| && 0 <= k < |deep| ensures flat[j] != deep[k] {
      assert flat[j] in flat && deep[k] in deep;
      assert flat[j].0 in e.pids && Behind(m, pats[deep[k].0], Fragment(d.LookBack(i)));
    }
  }

  /** Whatever the recursive table holds passes the recursive filter. */
  lemma FiledIsMarked(m: nat, pats: seq<Pattern>, crc: nat -> nat, e: Entry, pids: seq<nat>, x: nat)
    requires Serves(m, e, pats, crc, pids) && e.deep.Deep? && x < DF_SIZE
    ensures Pids(e.deep.table, crc, x) != [] ==> Has(e.deep.filter, x)
  {
    var found := Pids(e.deep.table, crc, x);
    if found != [] {
      var pid := found[0];
      assert pid in found;
      assert pid in pids && Behind(m, pats[pid], x);
      var k :| 0 <= k < |pids| && pids[k] == pid;
    }
  }

  lemma FoundIds(m: nat, pats: seq<Pattern>, crc: nat -> nat, e: Entry, pids: seq<nat>, x: nat)
    requires Serves(m, e, pats, crc, pids) && e.deep.Deep?
    ensures Ids(pats, Pids(e.deep.table, crc, x)) && Ids(pats, e.pids)
    ensures forall k :: 0 <= k < |Pids(e.deep.table, crc, x)| ==>
              Pids(e.deep.table, crc, x)[k] in pids && Behind(m, pats[Pids(e.deep.table, crc, x)[k]], x)
    ensures forall k :: 0 <= k < |e.pids| ==> e.pids[k] in pids && |pats[e.pids[k]].bytes| == m
  {
    var found := Pids(e.deep.table, crc, x);
    forall k | 0 <= k < |found| ensures found[k] in pids && Behind(m, pats[found[k]], x) {
      assert found[k] in found;
    }
    forall k | 0 <= k < |e.pids| ensures e.pids[k] in pids && |pats[e.pids[k]].bytes| == m {
      assert e.pids[k] in e.pids;
    }
  }

  /** The ids found in the recursive structures of an entry for the look-back bytes. */
  method DeepPids(m: nat, e: Entry, ghost pids: seq<nat>, ghost pats: seq<Pattern>, crc: nat -> nat, d: Payload, i: nat)
    returns (found: seq<nat>)
    requires d.Ok() && i <= |d.bytes| && Serves(m, e, pats, crc, pids) && e.deep.Deep?
    ensures found == Pids(e.deep.table, crc, Fragment(d.LookBack(i)))
  {
    var data := Fragment(d.LookBack(i));
    Fragment2(d.LookBack(i));
    found := [];
    if Has(e.deep.filter, data) {
      var bucket := e.deep.table[Slot(crc, data, |e.deep.table|)];
      var k := FindEntry(bucket, data);
      if k < |bucket| {
        found := bucket[k].pids;
      }
    } else {
      FiledIsMarked(m, pats, crc, e, pids, data);
    }
  }

  /** An entry for eight or more bytes reports the same matches whether its ids are flat or moved to
      the recursive filter and table, for every value of the bytes before the payload. */
  method VerifyLong(e: Entry, ghost pids: seq<nat>, pats: seq<Pattern>, crc: nat -> nat, d: Payload, i: nat)
    returns (hits: seq<Hit>)
    requires d.Ok() && i + 8 <= |d.bytes| && Serves(8, e, pats, crc, pids)
    ensures Picked(hits, pats, d, i, pids, false)
  {
    if e.deep.Flat? {
      hits := ScanLong(pats, d, i, e.pids);
    } else {
      FoundIds(8, pats, crc, e, pids, Fragment(d.LookBack(i)));
      var flat := ScanLong(pats, d, i, e.pids);
      var found := DeepPids(8, e, pids, pats, crc, d, i);
      var deep := ScanLong(pats, d, i, found);
      Together(8, flat, deep, pats, d, i, e, crc, pids, false);
      hits := flat + deep;
    }
  }

  /** The patterns that are all window are reported without a comparison. */
  method ReportAll(pats: seq<Pattern>, d: Payload, i: nat, pids: seq<nat>, m: nat) returns (hits: seq<Hit>)
    requires d.Ok() && Ids(pats, pids) && TailsFit(pats, d, i, pids, m)
    requires forall k :: 0 <= k < |pids| ==> |pats[pids[k]].bytes| == m
    ensures Picked(hits, pats, d, i, pids, true)
  {
    hits := [];
    var j := 0;
    while j < |pids|
      invariant 0 <= j <= |pids|
      invariant Picked(hits, pats, d, i, pids[..j], true)
    {
      var pid := pids[j];
      assert pids[..j + 1] == pids[..j] + [pid] && pid !in pids[..j];
      HeadDecides(pats[pid], d, i, m);
      PickMore(hits, pats, d, i, pids[..j], true, (pid, i));
      hits := hits + [(pid, i)];
      j := j + 1;
    }
    assert pids[..j] == pids;
  }

  /** The number of bytes still to compare once the window and two bytes before it agree. */
  function Rest(n: nat, m: nat): nat { if n < m + 2 then 0 else n - m - 2 }

  /** What that comparison decides, for a pattern found in the recursive table. */
  lemma BehindDecides(m: nat, p: Pattern, d: Payload, i: nat)
    requires d.Ok() && TailFits(p, d, i, m) && m < |p.bytes| <= LOOK_BACK + i + m
    requires Behind(m, p, Fragment(d.LookBack(i)))
    ensures var s := LOOK_BACK + i + m - |p.bytes|;
            p.Occurs(d.Memory(), s) <==> p.FitsWindow(0, d.Memory()[s..s + Rest(|p.bytes|, m)])
  {
    var mem, n, w := d.Memory(), |p.bytes|, d.LookBack(i);
    var s := LOOK_BACK + i + m - n;
    HeadDecides(p, d, i, m);
    Fragment2(w);
    if n == m + 1 {
      assert mem[s..s + 1] == [w[1]];
    } else {
      CoversLoaded(p, n - m - 2, w);
      HeadSplits(p, mem, s, n - m, w);
    }
  }

  lemma HeadSplits(p: Pattern, mem: seq<Byte>, s: nat, k: nat, w: seq<Byte>)
    requires 2 <= k <= |p.bytes| && s + k <= |mem| && w == mem[s + k - 2..s + k] && p.FitsWindow(k - 2, w)
    ensures p.FitsWindow(0, mem[s..s + k]) <==> p.FitsWindow(0, mem[s..s + (k - 2)])
  {
    var u, v := mem[s..s + (k - 2)], mem[s..s + k];
    assert u == v[..k - 2] && w == v[k - 2..];
    if p.FitsWindow(0, u) {
      forall j | 0 <= j < k ensures p.Fits(v[j], 0 + j) {
        if j < k - 2 {
          assert v[j] == u[j] && p.Fits(u[j], 0 + j);
        } else {
          assert v[j] == w[j - (k - 2)] && p.Fits(w[j - (k - 2)], k - 2 + (j - (k - 2)));
        }
      }
    }
    if p.FitsWindow(0, v) {
      forall j | 0 <= j < |u| ensures p.Fits(u[j], 0 + j) {
        assert p.Fits(v[j], 0 + j);
      }
    }
  }

  /** The candidates of the recursive tables of CT2 and CT4. Nothing is compared for CT2, the bytes
      before the look-back for CT4, and neither asks whether the pattern starts inside the payload. */
  method ScanBehind(pats: seq<Pattern>, d: Payload, i: nat, pids: seq<nat>, m: nat) returns (hits: seq<Hit>)
    requires d.Ok() && Ids(pats, pids) && TailsFit(pats, d, i, pids, m)
    requires forall k :: 0 <= k < |pids| ==> m < |pats[pids[k]].bytes| <= LOOK_BACK + m
                                             && Behind(m, pats[pids[k]], Fragment(d.LookBack(i)))
    ensures Picked(hits, pats, d, i, pids, true)
  {
    hits := [];
    var j := 0;
    while j < |pids|
      invariant 0 <= j <= |pids|
      invariant Picked(hits, pats, d, i, pids[..j], true)
    {
      var pid := pids[j];
      var n := |pats[pid].bytes|;
      assert pids[..j + 1] == pids[..j] + [pid] && pid !in pids[..j];
      BehindDecides(m, pats[pid], d, i);
      var equal := Compare(d.Memory(), LOOK_BACK + i + m - n, pats[pid], Rest(n, m));
      if equal {
        PickMore(hits, pats, d, i, pids[..j], true, (pid, i + m - n));
        hits := hits + [(pid, i + m - n)];
      } else {
        NotShown(pats, d, i, m, true, pid);
        PickNoMore(hits, pats, d, i, pids[..j], true, pid);
      }
      j := j + 1;
    }
    assert pids[..j] == pids;
  }

  /** An entry of CT2 or CT4 reports the matches that start inside the payload; once it owns recursive
      structures, it also reports those that start in the memory before the payload. */
  method VerifyShort(m: nat, e: Entry, ghost pids: seq<nat>, pats: seq<Pattern>, crc: nat -> nat,
                     d: Payload, i: nat)
    returns (hits: seq<Hit>)
    requires d.Ok() && i <= |d.bytes| && Serves(m, e, pats, crc, pids) && TailsFit(pats, d, i, pids, m)
    requires forall k :: 0 <= k < |pids| ==> |pats[pids[k]].bytes| <= LOOK_BACK + m
    ensures Picked(hits, pats, d, i, pids, e.deep.Deep?)
  {
    if e.deep.Flat? {
      hits := ScanTails(pats, d, i, e.pids, m);
    } else {
      FoundIds(m, pats, crc, e, pids, Fragment(d.LookBack(i)));
      var flat := ReportAll(pats, d, i, e.pids, m);
      var found := DeepPids(m, e, pids, pats, crc, d, i);
      var deep := ScanBehind(pats, d, i, found, m);
      Together(m, flat, deep, pats, d, i, e, crc, pids, true);
      hits := flat + deep;
    }
  }
}
