/** The DFC matcher as a whole: registering patterns, compiling them, and searching a payload.
    The main result is that a search reports every occurrence of every registered pattern, at every
    position, exactly once; and beside them exactly the strays, patterns of 3 or 5 to 7 bytes that
    share a crowded key and start in the memory before the payload. */
module DfcEngine {
  import opened Common
  import opened DfcPattern
  import opened DfcTable
  import opened DfcCompile
  import opened DfcRecursive
  import opened DfcSearch

  const INIT_HASH_SIZE := 65536
  const CT2_TABLE_SIZE := 0x1000
  const CT4_TABLE_SIZE := 0x2_0000
  const CT8_TABLE_SIZE := 0x2_0000
  const CT_TYPE1_PID_CNT_MAX := 100

  // -------------------------------------------------------------------------
  // What the compiled structures hold
  // -------------------------------------------------------------------------

  datatype FilterKind = First | Single | Short | Four | FourSeven

  ghost predicate Wants(k: FilterKind, p: Pattern, x: nat)
  {
    match k
    case First => Wants1(p, x)
    case Single => x < 256 && Wants0(p, x)
    case Short => WantsShort(p, x)
    case Four => Wants4Plus(p, x)
    case FourSeven => Wants47(p, x)
  }

  ghost predicate Any(k: FilterKind, pats: seq<Pattern>, ids: seq<nat>, x: nat)
  {
    exists pid :: pid in ids && pid < |pats| && Wants(k, pats[pid], x)
  }

  /** The filters let through exactly what the listed patterns want. */
  ghost predicate FiltersHold(fs: Filters, pats: seq<Pattern>, ids: seq<nat>)
  {
    && fs.Ok()
    && (forall x :: 0 <= x < DF_SIZE ==> (Has(fs.df1, x) <==> Any(First, pats, ids, x)))
    && (forall c: Byte :: fs.cdf0[c] <==> Any(Single, pats, ids, c))
    && (forall x :: 0 <= x < DF_SIZE ==> (Has(fs.cdf1, x) <==> Any(Short, pats, ids, x)))
    && (forall x :: 0 <= x < DF_SIZE ==> (Has(fs.df4plus, x) <==> Any(Four, pats, ids, x)))
    && (forall x :: 0 <= x < DF_SIZE ==> (Has(fs.df41, x) <==> Any(FourSeven, pats, ids, x)))
  }

  lemma AnyMore(k: FilterKind, pats: seq<Pattern>, ids: seq<nat>, pid: nat, x: nat)
    requires pid < |pats|
    ensures Any(k, pats, ids + [pid], x) <==> Any(k, pats, ids, x) || Wants(k, pats[pid], x)
  {
    assert pid in ids + [pid];
  }

  /** One more pattern marked in the filters. */
  method FilterStep(fs: Filters, pats: seq<Pattern>, ghost ids: seq<nat>, pid: nat) returns (gs: Filters)
    requires pid < |pats| && FiltersHold(fs, pats, ids)
    ensures FiltersHold(gs, pats, ids + [pid])
  {
    gs := FilterPattern(fs, pats[pid]);
    forall k: FilterKind, x: nat
      ensures Any(k, pats, ids + [pid], x) <==> Any(k, pats, ids, x) || Wants(k, pats[pid], x)
    {
      AnyMore(k, pats, ids, pid, x);
    }
    forall x | 0 <= x < DF_SIZE
      ensures Has(gs.df1, x) <==> Any(First, pats, ids + [pid], x)
      ensures Has(gs.cdf1, x) <==> Any(Short, pats, ids + [pid], x)
      ensures Has(gs.df4plus, x) <==> Any(Four, pats, ids + [pid], x)
      ensures Has(gs.df41, x) <==> Any(FourSeven, pats, ids + [pid], x)
    {
    }
  }

  datatype TableKind = ShortTable | FourSevenTable | LongTable

  /** The keys a pattern is filed under. */
  ghost predicate Files(k: TableKind, p: Pattern, key: nat)
  {
    match k
    case ShortTable => WantsShort(p, key)
    case FourSevenTable => 4 <= |p.bytes| < 8 && Covers(p, p.Anchor(), 4, key)
    case LongTable => Files8(p, key)
  }

  /** The table holds each listed pattern under exactly its keys. */
  ghost predicate TableHolds(k: TableKind, t: Table, crc: nat -> nat, pats: seq<Pattern>, ids: seq<nat>)
  {
    FlatTable(t) && Placed(t, crc) && Filing(k, t, crc, pats, ids)
  }

  ghost predicate Filing(k: TableKind, t: Table, crc: nat -> nat, pats: seq<Pattern>, ids: seq<nat>)
    requires |t| > 0
  {
    forall key: nat, pid: nat :: FiledAt(k, t, crc, pats, ids, key, pid)
  }

  ghost predicate FiledAt(k: TableKind, t: Table, crc: nat -> nat, pats: seq<Pattern>, ids: seq<nat>,
                          key: nat, pid: nat)
    requires |t| > 0
  {
    pid in Pids(t, crc, key) <==> pid in ids && pid < |pats| && Files(k, pats[pid], key)
  }

  lemma TableNext(k: TableKind, t: Table, u: Table, crc: nat -> nat, pats: seq<Pattern>, ids: seq<nat>, pid: nat)
    requires pid < |pats| && TableHolds(k, t, crc, pats, ids) && FlatTable(u) && Placed(u, crc)
    requires forall key: nat :: Pids(u, crc, key) == if Files(k, pats[pid], key) then Inserted(Pids(t, crc, key), pid)
                                                     else Pids(t, crc, key)
    ensures TableHolds(k, u, crc, pats, ids + [pid])
  {
    forall key: nat, q: nat ensures FiledAt(k, u, crc, pats, ids + [pid], key, q) {
      assert FiledAt(k, t, crc, pats, ids, key, q);
    }
  }

  /** Each single byte lists exactly the 1-byte patterns it matches. */
  ghost predicate BytesHold(ct1: seq<seq<nat>>, pats: seq<Pattern>, ids: seq<nat>)
  {
    |ct1| == 256
    && forall c: Byte ::
         NoDup(ct1[c]) && forall pid :: pid in ct1[c] <==> pid in ids && pid < |pats| && Wants0(pats[pid], c)
  }

  method BytesStep(ct1: seq<seq<nat>>, pats: seq<Pattern>, ghost ids: seq<nat>, pid: nat) returns (ct: seq<seq<nat>>)
    requires pid < |pats| && BytesHold(ct1, pats, ids)
    ensures BytesHold(ct, pats, ids + [pid])
  {
    ct := FileByte(ct1, pats[pid], pid);
  }

  /** The window length of a table. */
  function Width(k: TableKind): nat
  {
    if k == ShortTable then 2 else if k == FourSevenTable then 4 else 8
  }

  // -------------------------------------------------------------------------
  // The recursive pass over a table
  // -------------------------------------------------------------------------

  ghost predicate DeepEntry(m: nat, e: Entry, c: Entry, pats: seq<Pattern>, crc: nat -> nat)
  {
    c.pat == e.pat && Serves(m, c, pats, crc, e.pids) && (c.deep.Deep? <==> |e.pids| >= RECURSIVE_BOUNDARY)
  }

  ghost predicate DeepBucket(m: nat, b: seq<Entry>, c: seq<Entry>, pats: seq<Pattern>, crc: nat -> nat)
  {
    |c| == |b| && forall j :: 0 <= j < |b| ==> DeepEntry(m, b[j], c[j], pats, crc)
  }

  /** Every entry still stands for the ids it had when the table was flat, and owns recursive
      structures exactly if those were ten or more. */
  ghost predicate Deepened(m: nat, t: Table, u: Table, pats: seq<Pattern>, crc: nat -> nat)
  {
    |u| == |t| && forall b :: 0 <= b < |t| ==> DeepBucket(m, t[b], u[b], pats, crc)
  }

  ghost predicate WideBucket(m: nat, b: seq<Entry>, pats: seq<Pattern>)
  {
    forall j :: 0 <= j < |b| ==> b[j].deep.Flat? && Ids(pats, b[j].pids) && WideIds(m, pats, b[j].pids)
  }

  method DeepenBucket(m: nat, b: seq<Entry>, pats: seq<Pattern>, crc: nat -> nat) returns (c: seq<Entry>)
    requires WideBucket(m, b, pats)
    ensures DeepBucket(m, b, c, pats, crc)
  {
    c := [];
    var n := 0;
    while n < |b|
      invariant 0 <= n <= |b| == |b[..n]| + |b[n..]|
      invariant DeepBucket(m, b[..n], c, pats, crc)
    {
      var e := b[n];
      if |e.pids| >= RECURSIVE_BOUNDARY {
        e := Deepen(m, e, pats, crc);
      }
      assert DeepEntry(m, b[n], e, pats, crc);
      assert b[..n + 1] == b[..n] + [b[n]];
      c := c + [e];
      n := n + 1;
    }
    assert b[..n] == b;
  }

  /** Crowded entries get their recursive structures; the others are left alone. */
  method DeepenTable(m: nat, t: Table, pats: seq<Pattern>, crc: nat -> nat) returns (u: Table)
    requires forall b :: 0 <= b < |t| ==> WideBucket(m, t[b], pats)
    ensures Deepened(m, t, u, pats, crc)
  {
    u := t;
    var i := 0;
    while i < |t|
      invariant 0 <= i <= |t| == |u|
      invariant forall b :: 0 <= b < i ==> DeepBucket(m, t[b], u[b], pats, crc)
      invariant forall b :: i <= b < |t| ==> u[b] == t[b]
    {
      var c := DeepenBucket(m, u[i], pats, crc);
      u := u[i := c];
      i := i + 1;
    }
  }

  /** An entry's own list is what its key finds. */
  lemma EntryPids(t: Table, crc: nat -> nat, b: nat, j: nat)
    requires FlatTable(t) && Placed(t, crc) && b < |t| && j < |t[b]|
    ensures Pids(t, crc, t[b][j].pat) == t[b][j].pids
  {
    FindIs(t[b], t[b][j].pat, j);
  }

  lemma TableIds(k: TableKind, t: Table, crc: nat -> nat, pats: seq<Pattern>, ids: seq<nat>)
    requires TableHolds(k, t, crc, pats, ids)
    ensures forall b :: 0 <= b < |t| ==> WideBucket(Width(k), t[b], pats)
  {
    forall b, j | 0 <= b < |t| && 0 <= j < |t[b]|
      ensures t[b][j].deep.Flat? && Ids(pats, t[b][j].pids) && WideIds(Width(k), pats, t[b][j].pids)
    {
      EntryPids(t, crc, b, j);
      EntryIds(k, t, crc, pats, ids, t[b][j].pat);
    }
  }

  lemma EntryIds(k: TableKind, t: Table, crc: nat -> nat, pats: seq<Pattern>, ids: seq<nat>, key: nat)
    requires TableHolds(k, t, crc, pats, ids)
    ensures Ids(pats, Pids(t, crc, key)) && WideIds(Width(k), pats, Pids(t, crc, key))
  {
    var found := Pids(t, crc, key);
    forall j | 0 <= j < |found| ensures found[j] < |pats| && |pats[found[j]].bytes| >= Width(k) {
      FoundIsFiled(k, t, crc, pats, ids, key, found[j]);
    }
  }

  lemma FoundIsFiled(k: TableKind, t: Table, crc: nat -> nat, pats: seq<Pattern>, ids: seq<nat>, key: nat, pid: nat)
    requires TableHolds(k, t, crc, pats, ids)
    ensures pid in Pids(t, crc, key) <==> pid in ids && pid < |pats| && Files(k, pats[pid], key)
  {
    assert FiledAt(k, t, crc, pats, ids, key, pid);
  }

  ghost function FiledUnder(k: TableKind, pats: seq<Pattern>, key: nat): set<nat>
  {
    set pid | 0 <= pid < |pats| && Files(k, pats[pid], key)
  }

  // -------------------------------------------------------------------------
  // One position of the payload
  // -------------------------------------------------------------------------

  datatype Class = C1 | C2 | C4 | C8

  function ClassOf(n: nat): Class { if n <= 1 then C1 else if n < 4 then C2 else if n < 8 then C4 else C8 }

  function KindOf(n: nat): TableKind { if n < 4 then ShortTable else if n < 8 then FourSevenTable else LongTable }

  /** Ten or more patterns share the key of a short table that the payload's window has. */
  ghost predicate Crowded(pats: seq<Pattern>, d: Payload, i: nat, k: TableKind)
  {
    && !k.LongTable? && i + Width(k) <= |d.bytes|
    && |FiledUnder(k, pats, Fragment(d.bytes[i..i + Width(k)]))| >= RECURSIVE_BOUNDARY
  }

  /** What a search reports at `i`: occurrences, and patterns of a crowded key that start too early. */
  ghost predicate FoundAt(pats: seq<Pattern>, d: Payload, i: nat, h: Hit)
  {
    InMemory(pats, d, i, h) && (h.1 >= 0 || Crowded(pats, d, i, KindOf(|pats[h.0].bytes|)))
  }

  /** What is found with the window at `i`, of patterns in these length classes, each once. */
  ghost predicate Reports(hits: seq<Hit>, pats: seq<Pattern>, d: Payload, i: nat, cs: set<Class>)
  {
    && NoDup(hits)
    && forall h: Hit :: h in hits <==> FoundAt(pats, d, i, h) && ClassOf(|pats[h.0].bytes|) in cs
  }

  lemma ReportsMore(hits: seq<Hit>, more: seq<Hit>, pats: seq<Pattern>, d: Payload, i: nat,
                    cs: set<Class>, ds: set<Class>)
    requires Reports(hits, pats, d, i, cs) && Reports(more, pats, d, i, ds) && cs !! ds
    ensures Reports(hits + more, pats, d, i, cs + ds)
  {
    forall j, k | 0 <= j < |hits| && 0 <= k < |more| ensures hits[j] != more[k] {
      assert hits[j] in hits && more[k] in more;
    }
  }

  /** From the ids of one list to all patterns of a length class. */
  lemma PickedReports(hits: seq<Hit>, pats: seq<Pattern>, d: Payload, i: nat, pids: seq<nat>, stray: bool, c: Class)
    requires Picked(hits, pats, d, i, pids, stray)
    requires forall h: Hit :: InMemory(pats, d, i, h) ==> (h.0 in pids <==> ClassOf(|pats[h.0].bytes|) == c)
    requires forall h: Hit :: InMemory(pats, d, i, h) && h.1 < 0 && ClassOf(|pats[h.0].bytes|) == c ==>
               (stray <==> Crowded(pats, d, i, KindOf(|pats[h.0].bytes|)))
    ensures Reports(hits, pats, d, i, {c})
  {
    forall h: Hit ensures h in hits <==> FoundAt(pats, d, i, h) && ClassOf(|pats[h.0].bytes|) in {c} {
      assert h in hits <==> h.0 in pids && Shows(pats, d, i, stray, h);
    }
  }

  /** From its window on, what fits the memory lies in the payload. */
  lemma HitWindow(pats: seq<Pattern>, d: Payload, i: nat, h: Hit, a: nat, m: nat)
    requires d.Ok() && InMemory(pats, d, i, h) && pats[h.0].Anchor() <= a && a + m <= |pats[h.0].bytes|
    ensures 0 <= h.1 + a && h.1 + a + m <= |d.bytes| && pats[h.0].FitsWindow(a, d.bytes[h.1 + a..h.1 + a + m])
  {
    var p := pats[h.0];
    var w := d.bytes[h.1 + a..h.1 + a + m];
    forall k | 0 <= k < |w| ensures p.Fits(w[k], a + k) {
      OccursByte(p, d.Memory(), LOOK_BACK + h.1, a + k);
    }
  }

  /** No filter rejects what is in memory. */
  lemma HitPasses(pats: seq<Pattern>, d: Payload, i: nat, h: Hit)
    requires d.Ok() && InMemory(pats, d, i, h)
    ensures i + 2 <= |d.bytes| ==> Wants1(pats[h.0], Fragment(d.bytes[i..i + 2]))
    ensures |pats[h.0].bytes| == 1 ==> i < |d.bytes| && Wants0(pats[h.0], d.bytes[i])
    ensures 2 <= |pats[h.0].bytes| < 4 ==> i + 2 <= |d.bytes| && WantsShort(pats[h.0], Fragment(d.bytes[i..i + 2]))
    ensures |pats[h.0].bytes| >= 4 ==>
              i + 4 <= |d.bytes| && Wants4Plus(pats[h.0], Fragment(d.bytes[i + 2..i + 4]))
  {
    var p := pats[h.0];
    if |p.bytes| == 1 {
      HitWindow(pats, d, i, h, 0, 1);
      assert p.Fits(d.bytes[i..i + 1][0], 0 + 0);
      if i + 2 <= |d.bytes| { Fragment2(d.bytes[i..i + 2]); }
    } else {
      HitCovered(pats, d, i, h, 0);
      if |p.bytes| >= 4 {
        HitCovered(pats, d, i, h, 2);
      }
    }
  }

  /** The two bytes `skip` bytes into the window are covered by the pattern. */
  lemma HitCovered(pats: seq<Pattern>, d: Payload, i: nat, h: Hit, skip: nat)
    requires d.Ok() && InMemory(pats, d, i, h) && pats[h.0].Anchor() + skip + 2 <= |pats[h.0].bytes|
    ensures i + skip + 2 <= |d.bytes|
    ensures Covers(pats[h.0], pats[h.0].Anchor() + skip, 2, Fragment(d.bytes[i + skip..i + skip + 2]))
  {
    var a := pats[h.0].Anchor() + skip;
    HitWindow(pats, d, i, h, a, 2);
    CoversLoaded(pats[h.0], a, d.bytes[i + skip..i + skip + 2]);
  }

  /** What is in memory is filed in the table of its length class under the payload's window. */
  lemma HitFiled(pats: seq<Pattern>, d: Payload, i: nat, h: Hit)
    requires d.Ok() && InMemory(pats, d, i, h)
    ensures ClassOf(|pats[h.0].bytes|) == C2
            ==> i + 2 <= |d.bytes| && Files(ShortTable, pats[h.0], Fragment(d.bytes[i..i + 2]))
    ensures ClassOf(|pats[h.0].bytes|) == C4
            ==> i + 4 <= |d.bytes| && Files(FourSevenTable, pats[h.0], Fragment(d.bytes[i..i + 4]))
    ensures ClassOf(|pats[h.0].bytes|) == C8
            ==> i + 8 <= |d.bytes| && Files(LongTable, pats[h.0], Fragment64(Upper(d.bytes[i..i + 8])))
  {
    var p := pats[h.0];
    HitPasses(pats, d, i, h);
    if ClassOf(|p.bytes|) == C4 {
      HitWindow(pats, d, i, h, p.Anchor(), 4);
      CoversLoaded(p, p.Anchor(), d.bytes[i..i + 4]);
    } else if ClassOf(|p.bytes|) == C8 {
      HitWindow(pats, d, i, h, p.Anchor(), 8);
      UpperLoaded(p, d.bytes[i..i + 8]);
    }
  }

  function Every(n: nat): (s: seq<nat>)
    ensures forall k :: k in s <==> 0 <= k < n
  {
    if n == 0 then [] else Every(n - 1) + [n - 1]
  }

  /** Table CT1: the byte itself is the whole pattern. */
  method VerifyCT1(ct1: seq<seq<nat>>, pats: seq<Pattern>, d: Payload, i: nat) returns (hits: seq<Hit>)
    requires d.Ok() && BytesHold(ct1, pats, Every(|pats|)) && i < |d.bytes|
    ensures Reports(hits, pats, d, i, {C1})
  {
    var pids := ct1[d.bytes[i]];
    hits := [];
    var j := 0;
    while j < |pids|
      invariant 0 <= j <= |pids|
      invariant Picked(hits, pats, d, i, pids[..j], false)
    {
      assert pids[..j + 1] == pids[..j] + [pids[j]] && pids[j] !in pids[..j];
      assert pids[j] in pids;
      ByteInMemory(pats, d, i, pids[j]);
      PickMore(hits, pats, d, i, pids[..j], false, (pids[j], i));
      hits := hits + [(pids[j], i)];
      j := j + 1;
    }
    assert pids[..j] == pids;
    forall h: Hit | InMemory(pats, d, i, h)
      ensures h.0 in pids <==> ClassOf(|pats[h.0].bytes|) == C1
    {
      HitPasses(pats, d, i, h);
    }
    PickedReports(hits, pats, d, i, pids, false, C1);
  }

  lemma ByteInMemory(pats: seq<Pattern>, d: Payload, i: nat, pid: nat)
    requires d.Ok() && i < |d.bytes| && pid < |pats| && Wants0(pats[pid], d.bytes[i])
    ensures InMemory(pats, d, i, (pid, i))
  {
    assert d.Memory()[LOOK_BACK + i..LOOK_BACK + i + 1] == [d.bytes[i]];
  }

  /** The list holds exactly the ids filed under a key. */
  ghost predicate Lists(k: TableKind, pats: seq<Pattern>, key: nat, pids: seq<nat>)
  {
    NoDup(pids) && forall pid: nat :: pid in pids <==> pid < |pats| && Files(k, pats[pid], key)
  }

  lemma FoundLists(k: TableKind, t: Table, crc: nat -> nat, pats: seq<Pattern>, key: nat)
    requires TableHolds(k, t, crc, pats, Every(|pats|))
    ensures Lists(k, pats, key, Pids(t, crc, key))
  {
    var ids := Every(|pats|);
    var pids := Pids(t, crc, key);
    FoundNoDup(t, crc, key);
    forall pid: nat ensures pid in pids <==> pid in ids && pid < |pats| && Files(k, pats[pid], key) {
      FoundIsFiled(k, t, crc, pats, ids, key, pid);
    }
    EveryListed(k, pats, key, pids);
  }

  lemma EveryListed(k: TableKind, pats: seq<Pattern>, key: nat, pids: seq<nat>)
    requires NoDup(pids)
    requires forall pid: nat :: pid in pids <==> pid in Every(|pats|) && pid < |pats| && Files(k, pats[pid], key)
    ensures Lists(k, pats, key, pids)
  {
  }

  lemma ListedSize(k: TableKind, pats: seq<Pattern>, key: nat, pids: seq<nat>)
    requires Lists(k, pats, key, pids)
    ensures |pids| == |FiledUnder(k, pats, key)|
  {
    NoDupSize(pids, FiledUnder(k, pats, key));
  }

  lemma FoundNoDup(t: Table, crc: nat -> nat, key: nat)
    requires FlatTable(t)
    ensures NoDup(Pids(t, crc, key))
  {
  }

  lemma {:induction false} NoDupSize<T>(s: seq<T>, all: set<T>)
    requires NoDup(s) && forall x :: x in s <==> x in all
    ensures |s| == |all|
  {
    if s == [] {
      assert all == {};
    } else {
      var front, last := s[..|s| - 1], s[|s| - 1];
      assert s == front + [last] && last !in front;
      NoDupSize(front, all - {last});
    }
  }

  function ClassFor(k: TableKind): Class
  {
    if k == ShortTable then C2 else if k == FourSevenTable then C4 else C8
  }

  /** A table that held every pattern under exactly its keys, with its crowded entries split. */
  ghost predicate Holds(k: TableKind, t: Table, flat: Table, crc: nat -> nat, crc16: nat -> nat, pats: seq<Pattern>)
  {
    TableHolds(k, flat, crc, pats, Every(|pats|)) && Deepened(Width(k), flat, t, pats, crc16)
  }

  lemma DeepFind(m: nat, b: seq<Entry>, c: seq<Entry>, pats: seq<Pattern>, crc: nat -> nat, key: nat)
    requires DeepBucket(m, b, c, pats, crc)
    ensures Find(c, key) == Find(b, key)
    ensures Find(c, key) < |c| ==> DeepEntry(m, b[Find(b, key)], c[Find(c, key)], pats, crc)
  {
    FindIs(c, key, Find(b, key));
  }

  /** Tables CT2 and CT4. */
  method VerifyTail(k: TableKind, t: Table, ghost flat: Table, crc: nat -> nat, crc16: nat -> nat,
                    pats: seq<Pattern>, d: Payload, i: nat)
    returns (hits: seq<Hit>)
    requires !k.LongTable? && Holds(k, t, flat, crc, crc16, pats) && d.Ok() && i + Width(k) <= |d.bytes|
    ensures Reports(hits, pats, d, i, {ClassFor(k)})
  {
    var key := Fragment(d.bytes[i..i + Width(k)]);
    var slot := Slot(crc, key, |t|);
    var n := FindEntry(t[slot], key);
    DeepFind(Width(k), flat[slot], t[slot], pats, crc16, key);
    FoundLists(k, flat, crc, pats, key);
    ghost var pids := Pids(flat, crc, key);
    TailIds(k, pats, d, i, pids);
    hits := [];
    if n < |t[slot]| {
      hits := VerifyShort(Width(k), t[slot][n], pids, pats, crc16, d, i);
    }
    TailReports(k, pats, d, i, pids, hits);
  }

  lemma TailIds(k: TableKind, pats: seq<Pattern>, d: Payload, i: nat, pids: seq<nat>)
    requires !k.LongTable? && i + Width(k) <= |d.bytes| && Lists(k, pats, Fragment(d.bytes[i..i + Width(k)]), pids)
    ensures Ids(pats, pids) && TailsFit(pats, d, i, pids, Width(k))
    ensures forall j :: 0 <= j < |pids| ==> |pats[pids[j]].bytes| <= LOOK_BACK + Width(k)
  {
    forall j | 0 <= j < |pids|
      ensures pids[j] < |pats| && TailFits(pats[pids[j]], d, i, Width(k))
      ensures |pats[pids[j]].bytes| <= LOOK_BACK + Width(k)
    {
      assert pids[j] in pids;
      TailId(k, pats[pids[j]], d.bytes[i..i + Width(k)]);
    }
  }

  lemma TailId(k: TableKind, p: Pattern, w: seq<Byte>)
    requires !k.LongTable? && |w| == Width(k) && Files(k, p, Fragment(w))
    ensures |p.bytes| >= |w| && p.Anchor() + |w| == |p.bytes| && p.FitsWindow(|p.bytes| - |w|, w)
    ensures |p.bytes| <= LOOK_BACK + Width(k)
  {
    CoversLoaded(p, p.Anchor(), w);
  }

  lemma TailReports(k: TableKind, pats: seq<Pattern>, d: Payload, i: nat, pids: seq<nat>, hits: seq<Hit>)
    requires !k.LongTable? && d.Ok() && i + Width(k) <= |d.bytes|
    requires Lists(k, pats, Fragment(d.bytes[i..i + Width(k)]), pids)
    requires Picked(hits, pats, d, i, pids, |pids| >= RECURSIVE_BOUNDARY)
    ensures Reports(hits, pats, d, i, {ClassFor(k)})
  {
    forall h: Hit | InMemory(pats, d, i, h)
      ensures h.0 in pids <==> ClassOf(|pats[h.0].bytes|) == ClassFor(k)
    {
      HitFiled(pats, d, i, h);
      FilesClass(k, pats[h.0], Fragment(d.bytes[i..i + Width(k)]));
    }
    ListedSize(k, pats, Fragment(d.bytes[i..i + Width(k)]), pids);
    PickedReports(hits, pats, d, i, pids, |pids| >= RECURSIVE_BOUNDARY, ClassFor(k));
  }

  lemma FilesClass(k: TableKind, p: Pattern, key: nat)
    ensures Files(k, p, key) ==> ClassOf(|p.bytes|) == ClassFor(k)
  {
  }

  /** Table CT8. */
  method VerifyCT8(ct8: Table, ghost flat: Table, crc64: nat -> nat, crc16: nat -> nat, pats: seq<Pattern>,
                   d: Payload, i: nat)
    returns (hits: seq<Hit>)
    requires Holds(LongTable, ct8, flat, crc64, crc16, pats) && d.Ok() && i + 8 <= |d.bytes|
    ensures Reports(hits, pats, d, i, {C8})
  {
    var key := Fragment64(Upper(d.bytes[i..i + 8]));
    var slot := Slot(crc64, key, |ct8|);
    var n := FindEntry(ct8[slot], key);
    DeepFind(8, flat[slot], ct8[slot], pats, crc16, key);
    hits := [];
    if n < |ct8[slot]| {
      hits := VerifyLong(ct8[slot][n], Pids(flat, crc64, key), pats, crc16, d, i);
    }
    FoundLists(LongTable, flat, crc64, pats, key);
    LongReports(pats, d, i, Pids(flat, crc64, key), hits);
  }

  lemma LongReports(pats: seq<Pattern>, d: Payload, i: nat, pids: seq<nat>, hits: seq<Hit>)
    requires d.Ok() && i + 8 <= |d.bytes| && Lists(LongTable, pats, Fragment64(Upper(d.bytes[i..i + 8])), pids)
    requires Picked(hits, pats, d, i, pids, false)
    ensures Reports(hits, pats, d, i, {C8})
  {
    forall h: Hit | InMemory(pats, d, i, h) ensures h.0 in pids <==> ClassOf(|pats[h.0].bytes|) == C8 {
      HitFiled(pats, d, i, h);
      FilesClass(LongTable, pats[h.0], Fragment64(Upper(d.bytes[i..i + 8])));
    }
    PickedReports(hits, pats, d, i, pids, false, C8);
  }

  // -------------------------------------------------------------------------
  // Registering patterns
  // -------------------------------------------------------------------------

  /** `DFC_InitHashRaw`: the length is passed in 16 bits. When it is 0 the first byte does not matter. */
  function InitHashRaw(pat: seq<Byte>): (h: nat)
    ensures h < INIT_HASH_SIZE
  {
    var patlen := |pat| % 0x1_0000;
    if patlen == 0 then 0 else (patlen * pat[0] + if patlen > 1 then pat[1] else 0) % INIT_HASH_SIZE
  }

  /** What `strcmp` sees of a byte string. */
  function CString(pat: seq<Byte>): seq<Byte>
  {
    if |pat| == 0 || pat[0] == 0 then [] else [pat[0]] + CString(pat[1..])
  }

  lemma {:induction false} CStringWhole(pat: seq<Byte>)
    requires 0 !in pat
    ensures CString(pat) == pat
  {
    if |pat| > 0 {
      assert pat == [pat[0]] + pat[1..];
      CStringWhole(pat[1..]);
    }
  }

  /** It is what comes before the first zero byte. */
  lemma {:induction false} CStringIs(pat: seq<Byte>)
    ensures CString(pat) <= pat && 0 !in CString(pat)
    ensures |CString(pat)| < |pat| ==> pat[|CString(pat)|] == 0
  {
    if |pat| > 0 && pat[0] != 0 {
      CStringIs(pat[1..]);
    }
  }

  /** The registration takes the two byte strings for one: same hash, and equal as C strings. */
  predicate SameKey(pat: seq<Byte>, other: seq<Byte>)
  {
    InitHashRaw(pat) == InitHashRaw(other) && CString(pat) == CString(other)
  }

  /** Byte strings of up to 256 bytes that do not begin with a zero are taken for one if and only if
      they agree before the first zero and have the same length. */
  lemma SameKeyIff(pat: seq<Byte>, other: seq<Byte>)
    requires 0 < |pat| <= 256 && 0 < |other| <= 256 && pat[0] != 0
    ensures SameKey(pat, other) <==> CString(pat) == CString(other) && |pat| == |other|
  {
    CStringIs(pat);
    CStringIs(other);
    if CString(pat) == CString(other) {
      assert pat[0] == CString(pat)[0] == other[0];
      HashSmall(pat);
      HashSmall(other);
      SecondByte(pat, other);
      if |pat| != |other| {
        ProductsDiffer(|pat|, |other|, pat[0]);
      }
    }
  }

  /** The second byte as the hash reads it. */
  function Second(pat: seq<Byte>): Byte { if |pat| > 1 then pat[1] else 0 }

  lemma HashSmall(pat: seq<Byte>)
    requires 0 < |pat| <= 256
    ensures InitHashRaw(pat) == |pat| * pat[0] + Second(pat)
  {
    assert |pat| * pat[0] <= 256 * 255;
  }

  lemma SecondByte(pat: seq<Byte>, other: seq<Byte>)
    requires |pat| > 0 && |other| > 0 && CString(pat) == CString(other) && CString(pat) != []
    ensures Second(pat) == Second(other)
  {
    CStringIs(pat);
    CStringIs(other);
    var c := CString(pat);
    if |c| > 1 {
      assert pat[1] == c[1] == other[1];
    }
  }

  lemma ProductsDiffer(x: nat, y: nat, a: nat)
    requires x != y && a > 0
    ensures x * a != y * a
  {
    assert x * a - y * a == (x - y) * a;
  }

  /** A different byte string that the registration takes for `pat` is there. */
  ghost predicate Shadowed(pats: seq<Pattern>, pat: seq<Byte>)
  {
    exists pid :: 0 <= pid < |pats| && SameKey(pats[pid].bytes, pat) && pats[pid].bytes != pat
  }

  ghost predicate Listed(pats: seq<Pattern>, pat: seq<Byte>)
  {
    exists pid :: 0 <= pid < |pats| && pats[pid].bytes == pat
  }

  /** Without zero bytes nothing is shadowed. */
  lemma NeverShadowed(pats: seq<Pattern>, pat: seq<Byte>)
    requires 0 !in pat
    requires forall pid :: 0 <= pid < |pats| ==> 0 !in pats[pid].bytes
    ensures !Shadowed(pats, pat)
  {
    forall pid | 0 <= pid < |pats| && SameKey(pats[pid].bytes, pat) ensures pats[pid].bytes == pat {
      CStringWhole(pat);
      CStringWhole(pats[pid].bytes);
    }
  }

  /** With zero bytes a pattern can be lost. */
  lemma ShadowedExample()
    ensures Shadowed([Pattern([65, 0, 66], false, [1])], [65, 0, 67])
  {
    var pats := [Pattern([65, 0, 66], false, [1])];
    assert SameKey(pats[0].bytes, [65, 0, 67]);
  }

  /** No pattern is taken for another, and each id is once in its own bucket and nowhere else. */
  ghost predicate Registered(pats: seq<Pattern>, initHash: seq<seq<nat>>)
  {
    && |initHash| == INIT_HASH_SIZE
    && (forall p, q :: 0 <= p < q < |pats| ==> !SameKey(pats[p].bytes, pats[q].bytes))
    && forall b :: 0 <= b < INIT_HASH_SIZE ==> Bucket(pats, initHash[b], b)
  }

  ghost predicate Bucket(pats: seq<Pattern>, bucket: seq<nat>, b: nat)
  {
    NoDup(bucket) && forall pid: nat :: pid in bucket <==> pid < |pats| && InitHashRaw(pats[pid].bytes) == b
  }

  /** All ids in bucket order, as the compile step links them. */
  method LinkPatterns(pats: seq<Pattern>, initHash: seq<seq<nat>>) returns (order: seq<nat>)
    requires Registered(pats, initHash)
    ensures NoDup(order) && forall pid: nat :: pid in order <==> pid < |pats|
  {
    order := [];
    var i := 0;
    while i < INIT_HASH_SIZE
      invariant 0 <= i <= INIT_HASH_SIZE
      invariant Linked(pats, order, i)
    {
      LinkNext(pats, order, initHash[i], i);
      order := order + initHash[i];
      i := i + 1;
    }
  }

  ghost predicate Linked(pats: seq<Pattern>, order: seq<nat>, i: nat)
  {
    NoDup(order) && forall pid: nat :: pid in order <==> pid < |pats| && InitHashRaw(pats[pid].bytes) < i
  }

  lemma LinkNext(pats: seq<Pattern>, order: seq<nat>, bucket: seq<nat>, i: nat)
    requires Linked(pats, order, i) && Bucket(pats, bucket, i)
    ensures Linked(pats, order + bucket, i + 1)
  {
    forall j, k | 0 <= j < |order| && 0 <= k < |bucket| ensures order[j] != bucket[k] {
      assert order[j] in order && bucket[k] in bucket;
    }
  }

  // -------------------------------------------------------------------------
  // When the lists of the tables can be grown
  // -------------------------------------------------------------------------

  /** The largest number of elements that `DFC_REALLOC` takes, a `uint16_t`. */
  const REALLOC_MAX := 0xFFFF

  /** Every list of ids could be grown to its length. */
  ghost predicate IdsFit(t: Table)
  {
    forall b, j :: 0 <= b < |t| && 0 <= j < |t[b]| ==> |t[b][j].pids| <= REALLOC_MAX
  }

  /** No key belongs to too many patterns. */
  ghost predicate KeysFit(k: TableKind, pats: seq<Pattern>)
  {
    forall key :: |FiledUnder(k, pats, key)| <= REALLOC_MAX
  }

  /** The lists of ids fit if and only if no key belongs to too many patterns. */
  lemma IdListsFit(k: TableKind, t: Table, crc: nat -> nat, pats: seq<Pattern>)
    requires TableHolds(k, t, crc, pats, Every(|pats|))
    ensures IdsFit(t) <==> KeysFit(k, pats)
  {
    if IdsFit(t) {
      forall key: nat ensures |FiledUnder(k, pats, key)| <= REALLOC_MAX {
        KeyFits(k, t, crc, pats, key);
      }
    }
    if KeysFit(k, pats) {
      forall b, j | 0 <= b < |t| && 0 <= j < |t[b]| ensures |t[b][j].pids| <= REALLOC_MAX {
        EntryFits(k, t, crc, pats, b, j);
      }
    }
  }

  lemma KeyFits(k: TableKind, t: Table, crc: nat -> nat, pats: seq<Pattern>, key: nat)
    requires TableHolds(k, t, crc, pats, Every(|pats|)) && IdsFit(t)
    ensures |FiledUnder(k, pats, key)| <= REALLOC_MAX
  {
    FoundLists(k, t, crc, pats, key);
    ListedSize(k, pats, key, Pids(t, crc, key));
  }

  lemma EntryFits(k: TableKind, t: Table, crc: nat -> nat, pats: seq<Pattern>, b: nat, j: nat)
    requires TableHolds(k, t, crc, pats, Every(|pats|)) && KeysFit(k, pats) && b < |t| && j < |t[b]|
    ensures |t[b][j].pids| <= REALLOC_MAX
  {
    var key := t[b][j].pat;
    EntryPids(t, crc, b, j);
    FoundLists(k, t, crc, pats, key);
    ListedSize(k, pats, key, Pids(t, crc, key));
  }

  /** Some pattern is filed under the key, in this bucket. */
  ghost predicate UsedKey(k: TableKind, pats: seq<Pattern>, crc: nat -> nat, size: nat, b: nat, key: nat)
    requires size > 0
  {
    Slot(crc, key, size) == b && exists pid :: 0 <= pid < |pats| && Files(k, pats[pid], key)
  }

  /** Different keys used in one bucket. */
  ghost predicate UsedKeys(k: TableKind, pats: seq<Pattern>, crc: nat -> nat, size: nat, b: nat, keys: seq<nat>)
    requires size > 0
  {
    NoDup(keys) && forall key :: key in keys ==> UsedKey(k, pats, crc, size, b, key)
  }

  /** A bucket could be grown to its length if and only if it belongs to no more different keys. */
  lemma BucketFits(k: TableKind, t: Table, crc: nat -> nat, pats: seq<Pattern>, b: nat)
    requires TableHolds(k, t, crc, pats, Every(|pats|)) && b < |t|
    ensures |t[b]| <= REALLOC_MAX
            <==> forall keys :: UsedKeys(k, pats, crc, |t|, b, keys) ==> |keys| <= REALLOC_MAX
  {
    var all := BucketKeys(k, t, crc, pats, b);
    KeysWithin(k, pats, crc, |t|, b, all);
  }

  lemma KeysWithin(k: TableKind, pats: seq<Pattern>, crc: nat -> nat, size: nat, b: nat, all: seq<nat>)
    requires size > 0 && NoDup(all) && forall key: nat :: key in all <==> UsedKey(k, pats, crc, size, b, key)
    ensures UsedKeys(k, pats, crc, size, b, all)
    ensures forall keys :: UsedKeys(k, pats, crc, size, b, keys) ==> |keys| <= |all|
  {
    forall keys | UsedKeys(k, pats, crc, size, b, keys) ensures |keys| <= |all| {
      NoDupWithin(keys, all);
    }
  }

  /** The keys of a bucket are exactly the keys used there. */
  lemma BucketKeys(k: TableKind, t: Table, crc: nat -> nat, pats: seq<Pattern>, b: nat) returns (keys: seq<nat>)
    requires TableHolds(k, t, crc, pats, Every(|pats|)) && b < |t|
    ensures NoDup(keys) && |keys| == |t[b]| && forall key: nat :: key in keys <==> UsedKey(k, pats, crc, |t|, b, key)
  {
    keys := seq(|t[b]|, j requires 0 <= j < |t[b]| => t[b][j].pat);
    forall key: nat ensures key in keys <==> UsedKey(k, pats, crc, |t|, b, key) {
      KeyUsed(k, t, crc, pats, b, key);
      var j := Find(t[b], key);
      if j < |t[b]| { assert keys[j] == key; }
      if key in keys {
        var i :| 0 <= i < |keys| && keys[i] == key;
        assert t[b][i].pat == key;
      }
    }
  }

  lemma KeyUsed(k: TableKind, t: Table, crc: nat -> nat, pats: seq<Pattern>, b: nat, key: nat)
    requires TableHolds(k, t, crc, pats, Every(|pats|)) && b < |t|
    ensures UsedKey(k, pats, crc, |t|, b, key) <==> Find(t[b], key) < |t[b]|
  {
    FoundLists(k, t, crc, pats, key);
    var j := Find(t[b], key);
    if j < |t[b]| {
      EntryPids(t, crc, b, j);
      assert t[b][j].pids[0] in Pids(t, crc, key);
    }
    if UsedKey(k, pats, crc, |t|, b, key) {
      var pid :| 0 <= pid < |pats| && Files(k, pats[pid], key);
      assert pid in Pids(t, crc, key);
    }
  }

  lemma {:induction false} NoDupWithin<T>(s: seq<T>, all: seq<T>)
    requires NoDup(s) && forall x :: x in s ==> x in all
    ensures |s| <= |all|
    decreases |s|
  {
    if s != [] {
      var front, last := s[..|s| - 1], s[|s| - 1];
      assert last in s && last !in front;
      var i :| 0 <= i < |all| && all[i] == last;
      forall x | x in front ensures x in all[..i] + all[i + 1..] {
        assert x in s;
        var j :| 0 <= j < |all| && all[j] == x;
        assert j < i ==> all[..i][j] == x;
        assert j > i ==> all[i + 1..][j - i - 1] == x;
      }
      NoDupWithin(front, all[..i] + all[i + 1..]);
    }
  }

  /** The single-byte table never outgrows its fixed arrays. */
  lemma SingleBytesFit(ct1: seq<seq<nat>>, pats: seq<Pattern>, ids: seq<nat>, c: Byte)
    requires BytesHold(ct1, pats, ids)
    requires forall p, q :: 0 <= p < q < |pats| ==> pats[p].bytes != pats[q].bytes
    ensures |ct1[c]| <= 2 < CT_TYPE1_PID_CNT_MAX
  {
    var s := ct1[c];
    if |s| > 2 {
      assert s[0] in s && s[1] in s && s[2] in s;
      SameTwo(pats[s[0]], pats[s[1]], pats[s[2]], c);
      assert false;
    }
  }

  /** One byte has two cases. */
  lemma SameTwo(p: Pattern, q: Pattern, r: Pattern, c: Byte)
    requires Wants0(p, c) && Wants0(q, c) && Wants0(r, c)
    ensures p.bytes == q.bytes || p.bytes == r.bytes || q.bytes == r.bytes
  {
    assert p.bytes == [p.bytes[0]] && q.bytes == [q.bytes[0]] && r.bytes == [r.bytes[0]];
  }

  // -------------------------------------------------------------------------
  // The matcher object
  // -------------------------------------------------------------------------

  /** All occurrences of non-empty patterns that naive search finds. */
  ghost function Occurrences(pats: seq<Pattern>, buf: seq<Byte>): set<Hit>
  {
    set pid, s | 0 <= pid < |pats| && 0 <= s <= |buf| && |pats[pid].bytes| > 0 && pats[pid].Occurs(buf, s) :: (pid, s)
  }

  /** The payload holds the pattern's letters at `s`, in whatever case. */
  ghost predicate VariantAt(p: Pattern, buf: seq<Byte>, s: nat)
  {
    |p.bytes| > 0 && s + |p.bytes| <= |buf| && CaseVariant(buf[s..s + |p.bytes|], p.bytes)
  }

  /** It holds them in a case that the pattern accepts: any, or exactly its own. */
  ghost predicate HeldAt(p: Pattern, buf: seq<Byte>, s: nat)
  {
    VariantAt(p, buf, s) && (p.nocase || buf[s..s + |p.bytes|] == p.bytes)
  }

  /** Occurrences are the places where a pattern is held. */
  lemma OccursHeld(p: Pattern, buf: seq<Byte>, s: nat)
    ensures |p.bytes| > 0 && p.Occurs(buf, s) <==> HeldAt(p, buf, s)
  {
    if s + |p.bytes| <= |buf| {
      FitsIff(p, buf[s..s + |p.bytes|]);
    }
  }

  /** The matches of crowded keys that start in the memory before the payload. */
  ghost function Strays(pats: seq<Pattern>, d: Payload): set<Hit>
  {
    set pid, s | 0 <= pid < |pats| && -LOOK_BACK <= s < 0 && IsStray(pats, d, pid, s) :: (pid, s)
  }

  ghost predicate IsStray(pats: seq<Pattern>, d: Payload, pid: nat, s: int)
    requires pid < |pats| && LOOK_BACK + s >= 0
  {
    var p := pats[pid];
    && |p.bytes| > 0 && s + p.Anchor() >= 0 && p.Occurs(d.Memory(), LOOK_BACK + s)
    && Crowded(pats, d, s + p.Anchor(), KindOf(|p.bytes|))
  }

  /** Only the external ids of the pattern taken for these bytes have changed. */
  ghost predicate SidAdded(before: seq<Pattern>, pid: nat, pat: seq<Byte>, sid: nat, after: seq<Pattern>)
  {
    && pid < |before| && SameKey(before[pid].bytes, pat)
    && after == before[pid := before[pid].(sids := Inserted(before[pid].sids, sid))]
  }

  class Matcher {
    const crc16: nat -> nat
    const crc32: nat -> nat
    const crc64: nat -> nat
    var patterns: seq<Pattern>
    var initHash: seq<seq<nat>>
    var filters: Filters
    var ct1: seq<seq<nat>>
    var ct2: Table
    var ct4: Table
    var ct8: Table

    ghost predicate Compiled()
      reads this
    {
      && FiltersHold(filters, patterns, Every(|patterns|))
      && BytesHold(ct1, patterns, Every(|patterns|))
      && (exists flat: Table :: Holds(ShortTable, ct2, flat, crc16, crc16, patterns))
      && (exists flat: Table :: Holds(FourSevenTable, ct4, flat, crc32, crc16, patterns))
      && exists flat: Table :: Holds(LongTable, ct8, flat, crc64, crc16, patterns)
    }

    /** An empty matcher, `DFC_New`. */
    constructor (crc16: nat -> nat, crc32: nat -> nat, crc64: nat -> nat)
      ensures this.crc16 == crc16 && this.crc32 == crc32 && this.crc64 == crc64
      ensures patterns == [] && Registered(patterns, initHash)
    {
      this.crc16, this.crc32, this.crc64 := crc16, crc32, crc64;
      patterns := [];
      initHash := seq(INIT_HASH_SIZE, _ => []);
      filters := Filters(EmptyFilter(), seq(256, _ => false), EmptyFilter(), EmptyFilter(), EmptyFilter());
      ct1, ct2, ct4, ct8 := [], [], [], [];
    }

    /** Registering a pattern: a byte string taken for a known one only adds the external id to that
        (which keeps its case flag), any other gets the next internal id. The pattern is there
        afterwards if and only if no different byte string shadowed it. */
    method AddPattern(pat: seq<Byte>, nocase: bool, sid: nat) returns (known: bool)
      requires Registered(patterns, initHash)
      modifies this`patterns, this`initHash
      ensures Registered(patterns, initHash)
      ensures known <==> Shadowed(old(patterns), pat) || Listed(old(patterns), pat)
      ensures !known ==> patterns == old(patterns) + [Pattern(pat, nocase, [sid])]
      ensures known ==> exists pid: nat :: SidAdded(old(patterns), pid, pat, sid, patterns)
      ensures Listed(patterns, pat) <==> !Shadowed(old(patterns), pat)
    {
      var hash := InitHashRaw(pat);
      var bucket := initHash[hash];
      BucketIds(patterns, bucket, hash);
      var t := 0;
      while t < |bucket|
        invariant 0 <= t <= |bucket|
        invariant forall k :: 0 <= k < t ==> CString(patterns[bucket[k]].bytes) != CString(pat)
      {
        var pid := bucket[t];
        if CString(patterns[pid].bytes) == CString(pat) {
          var x := FindPid(patterns[pid].sids, sid);
          OneKnown(patterns, initHash, pid, pat);
          if x == |patterns[pid].sids| {
            SameBytes(patterns, initHash, pid, patterns[pid].(sids := patterns[pid].sids + [sid]));
            patterns := patterns[pid := patterns[pid].(sids := patterns[pid].sids + [sid])];
          }
          assert SidAdded(old(patterns), pid, pat, sid, patterns);
          SameListed(old(patterns), patterns, pat);
          return true;
        }
        t := t + 1;
      }
      NotRegistered(patterns, bucket, hash, pat);
      NewPattern(patterns, initHash, Pattern(pat, nocase, [sid]));
      initHash := initHash[hash := bucket + [|patterns|]];
      patterns := patterns + [Pattern(pat, nocase, [sid])];
      assert patterns[|patterns| - 1].bytes == pat;
      return false;
    }

    /** Compiling: every pattern is filed under exactly its keys in every filter and table, and the
        crowded entries are split. */
    method Compile()
      requires Registered(patterns, initHash)
      modifies this
      ensures Compiled() && patterns == old(patterns)
    {
      var order := LinkPatterns(patterns, initHash);
      initHash := [];
      FilterAll(order);
      TableAll(order);
      ghost var flat2, flat4, flat8 := ct2, ct4, ct8;
      ct2 := SplitTable(ShortTable, ct2, crc16, crc16, patterns, order);
      ct4 := SplitTable(FourSevenTable, ct4, crc32, crc16, patterns, order);
      ct8 := SplitTable(LongTable, ct8, crc64, crc16, patterns, order);
      FiltersEvery(filters, ct1, patterns, order);
      assert Holds(ShortTable, ct2, flat2, crc16, crc16, patterns);
      assert Holds(FourSevenTable, ct4, flat4, crc32, crc16, patterns);
      assert Holds(LongTable, ct8, flat8, crc64, crc16, patterns);
    }

    method FilterAll(order: seq<nat>)
      requires forall pid: nat :: pid in order ==> pid < |patterns|
      modifies this`filters, this`ct1
      ensures FiltersHold(filters, patterns, order) && BytesHold(ct1, patterns, order)
    {
      filters := Filters(EmptyFilter(), seq(256, _ => false), EmptyFilter(), EmptyFilter(), EmptyFilter());
      ct1 := seq(256, _ => []);
      var k := 0;
      while k < |order|
        invariant 0 <= k <= |order|
        invariant FiltersHold(filters, patterns, order[..k]) && BytesHold(ct1, patterns, order[..k])
      {
        assert order[..k + 1] == order[..k] + [order[k]] && order[k] in order;
        filters := FilterStep(filters, patterns, order[..k], order[k]);
        ct1 := BytesStep(ct1, patterns, order[..k], order[k]);
        k := k + 1;
      }
      assert order[..k] == order;
    }

    method TableAll(order: seq<nat>)
      requires forall pid: nat :: pid in order ==> pid < |patterns|
      modifies this`ct2, this`ct4, this`ct8
      ensures TableHolds(ShortTable, ct2, crc16, patterns, order)
      ensures TableHolds(FourSevenTable, ct4, crc32, patterns, order)
      ensures TableHolds(LongTable, ct8, crc64, patterns, order)
    {
      ct2, ct4, ct8 := EmptyTable(CT2_TABLE_SIZE), EmptyTable(CT4_TABLE_SIZE), EmptyTable(CT8_TABLE_SIZE);
      var k := 0;
      while k < |order|
        invariant 0 <= k <= |order|
        invariant TableHolds(ShortTable, ct2, crc16, patterns, order[..k])
        invariant TableHolds(FourSevenTable, ct4, crc32, patterns, order[..k])
        invariant TableHolds(LongTable, ct8, crc64, patterns, order[..k])
      {
        var pid := order[k];
        assert order[..k + 1] == order[..k] + [pid] && pid in order;
        ct2 := TableStep(ShortTable, ct2, crc16, patterns, order[..k], pid);
        ct4 := TableStep(FourSevenTable, ct4, crc32, patterns, order[..k], pid);
        ct8 := TableStep(LongTable, ct8, crc64, patterns, order[..k], pid);
        k := k + 1;
      }
      assert order[..k] == order;
    }

    /** Searching a payload: the match action is invoked once for each occurrence of each pattern at
        each position and once for each stray, and the count returned is the number of both. */
    method Search(d: Payload) returns (matches: nat, log: seq<Hit>)
      requires Compiled() && d.Ok()
      ensures NoDup(log)
      ensures forall h: Hit :: h in log <==> h in Occurrences(patterns, d.bytes) || h in Strays(patterns, d)
      ensures matches == |log| == |Occurrences(patterns, d.bytes)| + |Strays(patterns, d)|
      ensures forall pid: nat, s: nat :: (pid, s) in log <==> pid < |patterns| && HeldAt(patterns[pid], d.bytes, s)
    {
      matches, log := 0, [];
      var buf := d.bytes;
      FiltersLet(filters, patterns);
      if |buf| <= 0 {
        EveryFound(log, patterns, d);
        return;
      }
      var i := 0;
      while i < |buf| - 1
        invariant 0 <= i < |buf|
        invariant Upto(log, patterns, d, i) && matches == |log|
      {
        var hits: seq<Hit> := [];
        Rejected(filters, patterns, d, i);
        if Has(filters.df1, Fragment(buf[i..i + 2])) {
          hits := ProgressiveFiltering(d, i);
        }
        UptoMore(log, hits, patterns, d, i);
        log := log + hits;
        matches := matches + |hits|;
        i := i + 1;
      }
      var hits: seq<Hit> := [];
      if filters.cdf0[buf[i]] {
        hits := VerifyCT1(ct1, patterns, d, i);
      }
      LastByte(filters, patterns, d, hits);
      UptoMore(log, hits, patterns, d, i);
      log := log + hits;
      matches := matches + |hits|;
      EveryFound(log, patterns, d);
    }

    /** The candidates of one position that passed the first filter. */
    method ProgressiveFiltering(d: Payload, i: nat) returns (hits: seq<Hit>)
      requires Compiled() && d.Ok() && i + 2 <= |d.bytes|
      ensures Reports(hits, patterns, d, i, {C1, C2, C4, C8})
    {
      var buf := d.bytes;
      FiltersLet(filters, patterns);
      hits := [];
      if filters.cdf0[buf[i]] {
        hits := VerifyCT1(ct1, patterns, d, i);
      }
      assert Reports(hits, patterns, d, i, {C1}) by { Rejected(filters, patterns, d, i); }

      var more: seq<Hit> := [];
      Fragment2(buf[i..i + 2]);
      if Has(filters.cdf1, Fragment(buf[i..i + 2])) {
        ghost var flat: Table :| Holds(ShortTable, ct2, flat, crc16, crc16, patterns);
        more := VerifyTail(ShortTable, ct2, flat, crc16, crc16, patterns, d, i);
      }
      assert Reports(more, patterns, d, i, {C2}) by { Rejected(filters, patterns, d, i); }
      ReportsMore(hits, more, patterns, d, i, {C1}, {C2});
      hits := hits + more;

      more := Longer(d, i);
      ReportsMore(hits, more, patterns, d, i, {C1, C2}, {C4, C8});
      assert {C1, C2} + {C4, C8} == {C1, C2, C4, C8};
      hits := hits + more;
    }

    /** The part of the progressive filtering for four or more bytes. */
    method Longer(d: Payload, i: nat) returns (hits: seq<Hit>)
      requires Compiled() && d.Ok() && i + 2 <= |d.bytes|
      ensures Reports(hits, patterns, d, i, {C4, C8})
    {
      var buf := d.bytes;
      FiltersLet(filters, patterns);
      var four: seq<Hit>, eight: seq<Hit> := [], [];
      if |buf| - i >= 4 {
        var data := Fragment(buf[i + 2..i + 4]);
        Fragment2(buf[i + 2..i + 4]);
        if Has(filters.df4plus, data) {
          if Has(filters.df41, data) {
            ghost var flat: Table :| Holds(FourSevenTable, ct4, flat, crc32, crc16, patterns);
            four := VerifyTail(FourSevenTable, ct4, flat, crc32, crc16, patterns, d, i);
          }
          if |buf| - i >= 8 {
            ghost var flat: Table :| Holds(LongTable, ct8, flat, crc64, crc16, patterns);
            eight := VerifyCT8(ct8, flat, crc64, crc16, patterns, d, i);
          }
        }
      }
      assert Reports(four, patterns, d, i, {C4}) by { RejectedLonger(filters, patterns, d, i); }
      assert Reports(eight, patterns, d, i, {C8}) by { RejectedLonger(filters, patterns, d, i); }
      ReportsMore(four, eight, patterns, d, i, {C4}, {C8});
      hits := four + eight;
    }
  }

  /** The recursive pass over one table. */
  method SplitTable(k: TableKind, t: Table, ghost crc: nat -> nat, crc16: nat -> nat, pats: seq<Pattern>,
                    ghost order: seq<nat>)
    returns (u: Table)
    requires TableHolds(k, t, crc, pats, order) && forall pid: nat :: pid in order <==> pid < |pats|
    ensures Holds(k, u, t, crc, crc16, pats)
  {
    TableIds(k, t, crc, pats, order);
    u := DeepenTable(Width(k), t, pats, crc16);
    SameMembers(k, t, crc, pats, order, Every(|pats|));
  }

  /** The filters let `x` through wherever the pattern wants it. */
  ghost predicate LetsThrough(fs: Filters, p: Pattern, x: nat)
    requires fs.Ok() && x < DF_SIZE
  {
    && (Wants1(p, x) ==> Has(fs.df1, x))
    && (x < 256 && Wants0(p, x) ==> fs.cdf0[x])
    && (WantsShort(p, x) ==> Has(fs.cdf1, x))
    && (Wants4Plus(p, x) ==> Has(fs.df4plus, x))
    && (Wants47(p, x) ==> Has(fs.df41, x))
  }

  ghost predicate LetThrough(fs: Filters, pats: seq<Pattern>)
  {
    fs.Ok() && forall pid: nat, x: nat :: pid < |pats| && x < DF_SIZE ==> LetsThrough(fs, pats[pid], x)
  }

  lemma FiltersLet(fs: Filters, pats: seq<Pattern>)
    requires FiltersHold(fs, pats, Every(|pats|))
    ensures LetThrough(fs, pats)
  {
    forall pid: nat, x: nat | pid < |pats| && x < DF_SIZE ensures LetsThrough(fs, pats[pid], x) {
      AnyWanted(pats, pid, x);
    }
  }

  lemma AnyWanted(pats: seq<Pattern>, pid: nat, x: nat)
    requires pid < |pats|
    ensures forall k: FilterKind :: Wants(k, pats[pid], x) ==> Any(k, pats, Every(|pats|), x)
  {
  }

  /** Each filter has the bit of whatever it guards. */
  lemma HitMarked(fs: Filters, pats: seq<Pattern>, d: Payload, i: nat, h: Hit)
    requires d.Ok() && LetThrough(fs, pats) && i + 2 <= |d.bytes| && InMemory(pats, d, i, h)
    ensures Fragment(d.bytes[i..i + 2]) < DF_SIZE && (i + 4 <= |d.bytes| ==> Fragment(d.bytes[i + 2..i + 4]) < DF_SIZE)
    ensures Has(fs.df1, Fragment(d.bytes[i..i + 2]))
    ensures |pats[h.0].bytes| == 1 ==> fs.cdf0[d.bytes[i]]
    ensures 2 <= |pats[h.0].bytes| < 4 ==> Has(fs.cdf1, Fragment(d.bytes[i..i + 2]))
    ensures |pats[h.0].bytes| >= 4 ==> i + 4 <= |d.bytes| && Has(fs.df4plus, Fragment(d.bytes[i + 2..i + 4]))
    ensures 4 <= |pats[h.0].bytes| < 8 ==> Has(fs.df41, Fragment(d.bytes[i + 2..i + 4]))
    ensures |pats[h.0].bytes| >= 8 ==> i + 8 <= |d.bytes|
  {
    Fragment2(d.bytes[i..i + 2]);
    if i + 4 <= |d.bytes| { Fragment2(d.bytes[i + 2..i + 4]); }
    HitPasses(pats, d, i, h);
    assert LetsThrough(fs, pats[h.0], Fragment(d.bytes[i..i + 2]));
    if |pats[h.0].bytes| == 1 {
      assert LetsThrough(fs, pats[h.0], d.bytes[i]);
    } else if |pats[h.0].bytes| >= 4 {
      assert LetsThrough(fs, pats[h.0], Fragment(d.bytes[i + 2..i + 4]));
    }
  }

  /** At a position that a filter rejects nothing of the lengths it guards is in memory. */
  lemma Rejected(fs: Filters, pats: seq<Pattern>, d: Payload, i: nat)
    requires d.Ok() && LetThrough(fs, pats) && i + 2 <= |d.bytes|
    ensures Fragment(d.bytes[i..i + 2]) < DF_SIZE
    ensures !fs.cdf0[d.bytes[i]] ==> Reports([], pats, d, i, {C1})
    ensures !Has(fs.cdf1, Fragment(d.bytes[i..i + 2])) ==> Reports([], pats, d, i, {C2})
    ensures !Has(fs.df1, Fragment(d.bytes[i..i + 2])) ==> Reports([], pats, d, i, {C1, C2, C4, C8})
  {
    Fragment2(d.bytes[i..i + 2]);
    forall h: Hit | InMemory(pats, d, i, h)
      ensures Has(fs.df1, Fragment(d.bytes[i..i + 2]))
      ensures |pats[h.0].bytes| == 1 ==> fs.cdf0[d.bytes[i]]
      ensures 2 <= |pats[h.0].bytes| < 4 ==> Has(fs.cdf1, Fragment(d.bytes[i..i + 2]))
    {
      HitMarked(fs, pats, d, i, h);
    }
  }

  lemma RejectedLonger(fs: Filters, pats: seq<Pattern>, d: Payload, i: nat)
    requires d.Ok() && LetThrough(fs, pats) && i + 2 <= |d.bytes|
    ensures i + 4 <= |d.bytes| ==> Fragment(d.bytes[i + 2..i + 4]) < DF_SIZE
    ensures (|| i + 4 > |d.bytes|
             || !Has(fs.df4plus, Fragment(d.bytes[i + 2..i + 4]))
             || !Has(fs.df41, Fragment(d.bytes[i + 2..i + 4]))) ==> Reports([], pats, d, i, {C4})
    ensures i + 8 > |d.bytes| || !Has(fs.df4plus, Fragment(d.bytes[i + 2..i + 4])) ==> Reports([], pats, d, i, {C8})
  {
    if i + 4 <= |d.bytes| { Fragment2(d.bytes[i + 2..i + 4]); }
    forall h: Hit | InMemory(pats, d, i, h)
      ensures |pats[h.0].bytes| >= 4 ==> i + 4 <= |d.bytes| && Has(fs.df4plus, Fragment(d.bytes[i + 2..i + 4]))
      ensures 4 <= |pats[h.0].bytes| < 8 ==> Has(fs.df41, Fragment(d.bytes[i + 2..i + 4]))
      ensures |pats[h.0].bytes| >= 8 ==> i + 8 <= |d.bytes|
    {
      HitMarked(fs, pats, d, i, h);
    }
  }

  method TableStep(k: TableKind, t: Table, crc: nat -> nat, pats: seq<Pattern>, ghost ids: seq<nat>, pid: nat)
    returns (u: Table)
    requires pid < |pats| && TableHolds(k, t, crc, pats, ids)
    ensures TableHolds(k, u, crc, pats, ids + [pid])
  {
    var p := pats[pid];
    var n := |p.bytes|;
    u := t;
    if k.ShortTable? && (n == 2 || n == 3) {
      u := FileWindows(t, crc, p, pid, n - 2, 2);
    } else if k.FourSevenTable? && 4 <= n < 8 {
      u := FileWindows(t, crc, p, pid, n - 4, 4);
    } else if k.LongTable? && n >= 8 {
      u := FileUpper(t, crc, p, pid);
    }
    TableNext(k, t, u, crc, pats, ids, pid);
  }

  lemma SameMembers(k: TableKind, t: Table, crc: nat -> nat, pats: seq<Pattern>, order: seq<nat>, ids: seq<nat>)
    requires |t| > 0 && Filing(k, t, crc, pats, order) && forall pid: nat :: pid in order <==> pid in ids
    ensures Filing(k, t, crc, pats, ids)
  {
    forall key: nat, pid: nat ensures FiledAt(k, t, crc, pats, ids, key, pid) {
      assert FiledAt(k, t, crc, pats, order, key, pid);
    }
  }

  lemma FiltersEvery(fs: Filters, ct1: seq<seq<nat>>, pats: seq<Pattern>, order: seq<nat>)
    requires forall pid: nat :: pid in order <==> pid < |pats|
    requires FiltersHold(fs, pats, order) && BytesHold(ct1, pats, order)
    ensures FiltersHold(fs, pats, Every(|pats|)) && BytesHold(ct1, pats, Every(|pats|))
  {
    forall k: FilterKind, x: nat ensures Any(k, pats, order, x) <==> Any(k, pats, Every(|pats|), x) {
    }
  }

  /** The pattern taken for `pat` is the only one, so `pat` is there or shadowed. */
  lemma OneKnown(pats: seq<Pattern>, initHash: seq<seq<nat>>, pid: nat, pat: seq<Byte>)
    requires Registered(pats, initHash) && pid < |pats| && SameKey(pats[pid].bytes, pat)
    ensures Listed(pats, pat) <==> pats[pid].bytes == pat
    ensures Shadowed(pats, pat) <==> pats[pid].bytes != pat
  {
    forall q | 0 <= q < |pats| && SameKey(pats[q].bytes, pat) ensures q == pid {
      assert SameKey(pats[q].bytes, pats[pid].bytes) && SameKey(pats[pid].bytes, pats[q].bytes);
    }
  }

  lemma SameListed(pats: seq<Pattern>, news: seq<Pattern>, pat: seq<Byte>)
    requires |news| == |pats| && forall k :: 0 <= k < |pats| ==> news[k].bytes == pats[k].bytes
    ensures Listed(news, pat) <==> Listed(pats, pat)
  {
  }

  lemma SameBytes(pats: seq<Pattern>, initHash: seq<seq<nat>>, pid: nat, p: Pattern)
    requires Registered(pats, initHash) && pid < |pats| && p.bytes == pats[pid].bytes
    ensures Registered(pats[pid := p], initHash)
  {
    var news := pats[pid := p];
    assert forall k :: 0 <= k < |pats| ==> news[k].bytes == pats[k].bytes;
  }

  lemma BucketIds(pats: seq<Pattern>, bucket: seq<nat>, hash: nat)
    requires Bucket(pats, bucket, hash)
    ensures forall k :: 0 <= k < |bucket| ==> bucket[k] < |pats|
  {
    forall k | 0 <= k < |bucket| ensures bucket[k] < |pats| {
      assert bucket[k] in bucket;
    }
  }

  lemma NotRegistered(pats: seq<Pattern>, bucket: seq<nat>, hash: nat, pat: seq<Byte>)
    requires Bucket(pats, bucket, hash) && hash == InitHashRaw(pat)
    requires forall k :: 0 <= k < |bucket| ==> bucket[k] < |pats| && CString(pats[bucket[k]].bytes) != CString(pat)
    ensures forall pid :: 0 <= pid < |pats| ==> !SameKey(pats[pid].bytes, pat)
  {
    forall pid | 0 <= pid < |pats| ensures !SameKey(pats[pid].bytes, pat) {
      if pid in bucket {
        var k :| 0 <= k < |bucket| && bucket[k] == pid;
      }
    }
  }

  lemma NewPattern(pats: seq<Pattern>, initHash: seq<seq<nat>>, p: Pattern)
    requires Registered(pats, initHash)
    requires forall pid :: 0 <= pid < |pats| ==> !SameKey(pats[pid].bytes, p.bytes)
    ensures var h := InitHashRaw(p.bytes); Registered(pats + [p], initHash[h := initHash[h] + [|pats|]])
  {
    var h := InitHashRaw(p.bytes);
    var all, hashed := pats + [p], initHash[h := initHash[h] + [|pats|]];
    forall b | 0 <= b < INIT_HASH_SIZE ensures Bucket(all, hashed[b], b) {
      assert Bucket(pats, initHash[b], b) && |pats| !in initHash[b];
    }
  }

  // -------------------------------------------------------------------------
  // The whole payload
  // -------------------------------------------------------------------------

  /** The log holds what is found with its window before position `i`. */
  ghost predicate Upto(log: seq<Hit>, pats: seq<Pattern>, d: Payload, i: nat)
  {
    NoDup(log) && forall h: Hit :: h in log <==> FoundBefore(pats, d, i, h)
  }

  ghost predicate FoundBefore(pats: seq<Pattern>, d: Payload, i: nat, h: Hit)
  {
    && h.0 < |pats| && |pats[h.0].bytes| > 0 && 0 <= h.1 + pats[h.0].Anchor() < i
    && FoundAt(pats, d, h.1 + pats[h.0].Anchor(), h)
  }

  lemma UptoMore(log: seq<Hit>, hits: seq<Hit>, pats: seq<Pattern>, d: Payload, i: nat)
    requires Upto(log, pats, d, i) && Reports(hits, pats, d, i, {C1, C2, C4, C8})
    ensures Upto(log + hits, pats, d, i + 1)
  {
    forall h: Hit ensures h in log + hits <==> FoundBefore(pats, d, i + 1, h) {
      assert FoundBefore(pats, d, i + 1, h) <==> FoundBefore(pats, d, i, h) || FoundAt(pats, d, i, h);
    }
    forall j, k | 0 <= j < |log| && 0 <= k < |hits| ensures log[j] != hits[k] {
      assert log[j] in log && hits[k] in hits;
    }
  }

  /** Only single bytes can start their window at the last byte. */
  lemma LastByte(fs: Filters, pats: seq<Pattern>, d: Payload, hits: seq<Hit>)
    requires d.Ok() && LetThrough(fs, pats) && |d.bytes| > 0
    requires if fs.cdf0[d.bytes[|d.bytes| - 1]] then Reports(hits, pats, d, |d.bytes| - 1, {C1}) else hits == []
    ensures Reports(hits, pats, d, |d.bytes| - 1, {C1, C2, C4, C8})
  {
    var i := |d.bytes| - 1;
    forall h: Hit | InMemory(pats, d, i, h) ensures ClassOf(|pats[h.0].bytes|) == C1 && fs.cdf0[d.bytes[i]] {
      HitPasses(pats, d, i, h);
      assert LetsThrough(fs, pats[h.0], d.bytes[i]);
    }
  }

  /** Inside the payload, fitting the memory and occurring in the payload are the same. */
  lemma InsideOccurs(p: Pattern, d: Payload, s: nat)
    requires d.Ok()
    ensures p.Occurs(d.Memory(), LOOK_BACK + s) <==> p.Occurs(d.bytes, s)
  {
    if s + |p.bytes| <= |d.bytes| {
      SameSlice(d, s, |p.bytes|);
    }
  }

  lemma FoundIs(pats: seq<Pattern>, d: Payload, h: Hit)
    requires d.Ok()
    ensures FoundBefore(pats, d, |d.bytes|, h) <==> h in Occurrences(pats, d.bytes) || h in Strays(pats, d)
  {
    if h.1 >= 0 {
      if h.0 < |pats| { InsideOccurs(pats[h.0], d, h.1); }
    } else {
      assert h in Strays(pats, d) <==>
             h.0 < |pats| && -LOOK_BACK <= h.1 && IsStray(pats, d, h.0, h.1);
    }
  }

  lemma EveryFound(log: seq<Hit>, pats: seq<Pattern>, d: Payload)
    requires d.Ok() && Upto(log, pats, d, |d.bytes|)
    ensures forall h: Hit :: h in log <==> h in Occurrences(pats, d.bytes) || h in Strays(pats, d)
    ensures |log| == |Occurrences(pats, d.bytes)| + |Strays(pats, d)|
    ensures forall pid: nat, s: nat :: (pid, s) in log <==> pid < |pats| && HeldAt(pats[pid], d.bytes, s)
  {
    forall pid: nat, s: nat
      ensures (pid, s) in Occurrences(pats, d.bytes) <==> pid < |pats| && HeldAt(pats[pid], d.bytes, s)
    {
      if pid < |pats| { OccursHeld(pats[pid], d.bytes, s); }
    }
    var inside, strays := Occurrences(pats, d.bytes), Strays(pats, d);
    forall h: Hit ensures h in log <==> h in inside + strays {
      FoundIs(pats, d, h);
    }
    NoDupSize(log, inside + strays);
    assert inside !! strays;
  }

  // -------------------------------------------------------------------------
  // When strays exist
  // -------------------------------------------------------------------------

  /** Pattern `pid` is longer than the window of its short table and shares the key with nine others
      or more. */
  ghost predicate CrowdedKey(pats: seq<Pattern>, pid: nat, k: TableKind, key: nat)
  {
    && pid < |pats| && !k.LongTable? && |pats[pid].bytes| > Width(k)
    && Files(k, pats[pid], key) && |FiledUnder(k, pats, key)| >= RECURSIVE_BOUNDARY
  }

  /** Searching is exact on every payload, whatever lies before it, if and only if no pattern of 3 or
      5 to 7 bytes is filed under a key that ten or more patterns share. */
  lemma ExactIff(pats: seq<Pattern>)
    ensures (forall d: Payload :: d.Ok() ==> Strays(pats, d) == {})
            <==> forall pid, k, key :: !CrowdedKey(pats, pid, k, key)
  {
    forall d: Payload, h: Hit | d.Ok() && h in Strays(pats, d)
      ensures exists pid, k, key :: CrowdedKey(pats, pid, k, key)
    {
      StrayCrowded(pats, d, h);
    }
    forall pid, k, key | CrowdedKey(pats, pid, k, key)
      ensures exists d: Payload :: d.Ok() && Strays(pats, d) != {}
    {
      var d := CrowdedStray(pats, pid, k, key);
    }
  }

  lemma StrayCrowded(pats: seq<Pattern>, d: Payload, h: Hit)
    requires d.Ok() && h in Strays(pats, d)
    ensures exists pid, k, key :: CrowdedKey(pats, pid, k, key)
  {
    var p := pats[h.0];
    var i := h.1 + p.Anchor();
    var k := KindOf(|p.bytes|);
    assert InMemory(pats, d, i, h);
    HitFiled(pats, d, i, h);
    assert CrowdedKey(pats, h.0, k, Fragment(d.bytes[i..i + Width(k)]));
  }

  lemma CrowdedStray(pats: seq<Pattern>, pid: nat, k: TableKind, key: nat) returns (d: Payload)
    requires CrowdedKey(pats, pid, k, key)
    ensures d.Ok() && Strays(pats, d) != {}
  {
    var p, m := pats[pid], Width(k);
    var w: seq<Byte> :| |w| == m && p.FitsWindow(p.Anchor(), w) && Fragment(w) == key;
    d := BarePayload(p, m, w);
    var s := m - |p.bytes|;
    assert d.bytes[0..m] == w;
    assert Crowded(pats, d, 0, k);
    assert IsStray(pats, d, pid, s);
    assert (pid, s) in Strays(pats, d);
  }

  /** A payload that is just the window, after memory that holds the rest of the pattern. */
  lemma BarePayload(p: Pattern, m: nat, w: seq<Byte>) returns (d: Payload)
    requires |w| == m <= |p.bytes| <= LOOK_BACK + m && p.FitsWindow(|p.bytes| - m, w)
    ensures d.Ok() && d.bytes == w && p.Occurs(d.Memory(), LOOK_BACK + m - |p.bytes|)
  {
    var head := p.bytes[..|p.bytes| - m];
    var pad: seq<Byte> := seq(LOOK_BACK - |head|, _ => 0);
    d := Payload(pad + head, w);
    var v := head + w;
    SplitFits(p, v, |head|);
    assert v[..|head|] == head && v[|head|..] == w;
    assert d.Memory()[|pad|..|pad| + |v|] == v;
  }

  /** Ten patterns `?bc`: the payload `bc` after the byte 1 is reported as the first of them. */
  lemma StrayExample()
    ensures var pats := TenPatterns();
            (0, -1) in Strays(pats, Payload([0, 0, 1], [98, 99]))
            && Occurrences(pats, [98, 99]) == {}
  {
    TenStray();
    assert forall pid :: 0 <= pid < 10 ==> |TenPatterns()[pid].bytes| == 3;
  }

  lemma TenStray()
    ensures IsStray(TenPatterns(), Payload([0, 0, 1], [98, 99]), 0, -1)
  {
    var p, d := TenPatterns()[0], Payload([0, 0, 1], [98, 99]);
    assert p.Occurs(d.Memory(), 2) by { assert d.Memory()[2..5] == [1, 98, 99]; }
    assert Crowded(TenPatterns(), d, 0, ShortTable) by {
      TenFiled();
      assert d.bytes[0..2] == [98, 99];
    }
  }

  lemma TenFiled()
    ensures |FiledUnder(ShortTable, TenPatterns(), Fragment([98, 99]))| == 10
  {
    var pats, key := TenPatterns(), Fragment([98, 99]);
    forall pid | 0 <= pid < 10 ensures pid in FiledUnder(ShortTable, pats, key) {
      CoversLoaded(pats[pid], 1, [98, 99]);
    }
    EveryNoDup(10);
    NoDupSize(Every(10), FiledUnder(ShortTable, pats, key));
  }

  /** The case-sensitive patterns of a byte 1 to 10 and the letters `bc`. */
  function TenPatterns(): (pats: seq<Pattern>)
    ensures |pats| == 10 && forall i :: 0 <= i < 10 ==> pats[i] == Pattern([i + 1, 98, 99], false, [i])
  {
    seq(10, i requires 0 <= i < 10 => Pattern([i + 1, 98, 99], false, [i]))
  }

  lemma {:induction false} EveryNoDup(n: nat)
    ensures NoDup(Every(n)) && |Every(n)| == n
  {
    if n > 0 {
      EveryNoDup(n - 1);
      assert n - 1 !in Every(n - 1);
    }
  }
}
