/** The two data structures of the DFC matcher: 16-bit direct filters (bitmaps) and compact
    tables (hash tables from a window fragment to the pattern ids filed under it). */
module DfcTable {
  import opened Bits
  import opened Common

  const DF_SIZE_REAL := 0x2000
  const DF_SIZE := 0x1_0000

  // -------------------------------------------------------------------------
  // Direct filters
  // -------------------------------------------------------------------------

  type Filter = seq<bv8>

  predicate FilterOk(f: Filter) { |f| == DF_SIZE_REAL }

  function EmptyFilter(): (f: Filter)
    ensures FilterOk(f) && forall x :: 0 <= x < DF_SIZE ==> !Has(f, x)
  {
    seq(DF_SIZE_REAL, _ => 0)
  }

  function BMask(x: nat): bv8 { (1 as bv8) << (x % 8) }

  /** `filter[BINDEX(x)] & BMASK(x)`. */
  predicate Has(f: Filter, x: nat)
    requires FilterOk(f) && x < DF_SIZE
  {
    f[x / 8] & BMask(x) != 0
  }

  /** `filter[BINDEX(x)] |= BMASK(x)`. */
  function Mark(f: Filter, x: nat): (g: Filter)
    requires FilterOk(f) && x < DF_SIZE
    ensures FilterOk(g)
  {
    f[x / 8 := f[x / 8] | BMask(x)]
  }

  lemma MaskValues(x: nat)
    ensures BMask(x) == (if x % 8 == 0 then 1 else if x % 8 == 1 then 2 else if x % 8 == 2 then 4
                         else if x % 8 == 3 then 8 else if x % 8 == 4 then 16 else if x % 8 == 5 then 32
                         else if x % 8 == 6 then 64 else 128)
  {
    if x % 8 == 0 {
    } else if x % 8 == 1 {
    } else if x % 8 == 2 {
    } else if x % 8 == 3 {
    } else if x % 8 == 4 {
    } else if x % 8 == 5 {
    } else if x % 8 == 6 {
    }
  }

  lemma MasksDisjoint(x: nat, y: nat)
    ensures BMask(x) & BMask(y) != 0 <==> x % 8 == y % 8
  {
    MaskValues(x);
    MaskValues(y);
  }

  lemma OrAnd(b: bv8, m: bv8, k: bv8)
    ensures (b | m) & k != 0 <==> b & k != 0 || m & k != 0
  {
  }

  /** A direct filter is a set of 16-bit values. */
  lemma MarkHas(f: Filter, x: nat, y: nat)
    requires FilterOk(f) && x < DF_SIZE && y < DF_SIZE
    ensures Has(Mark(f, x), y) <==> x == y || Has(f, y)
  {
    MasksDisjoint(x, y);
    OrAnd(f[x / 8], BMask(x), BMask(y));
  }

  // -------------------------------------------------------------------------
  // Compact tables
  // -------------------------------------------------------------------------

  /** One key of a bucket, its pattern ids, and the recursive 2-byte structures it may own. */
  datatype Entry = Entry(pat: nat, pids: seq<nat>, deep: Deep)

  datatype Deep = Flat | Deep(filter: Filter, table: Table)

  type Table = seq<seq<Entry>>

  function EmptyTable(size: nat): (t: Table)
    ensures |t| == size
    ensures forall b :: 0 <= b < size ==> t[b] == []
  {
    seq(size, _ => [])
  }

  /** The bucket of a key: its CRC under the table's mask. */
  function Slot(crc: nat -> nat, key: nat, size: nat): (r: nat)
    requires size > 0
    ensures r < size
  {
    AndAtMost(crc(key), size - 1);
    And(crc(key), size - 1)
  }

  /** The first entry of a bucket with this key. */
  function Find(b: seq<Entry>, key: nat): (j: nat)
    ensures j <= |b|
    ensures j < |b| ==> b[j].pat == key
    ensures forall k :: 0 <= k < j ==> b[k].pat != key
  {
    if |b| == 0 || b[0].pat == key then 0 else 1 + Find(b[1..], key)
  }

  lemma FindIs(b: seq<Entry>, key: nat, j: nat)
    requires j <= |b| && (j < |b| ==> b[j].pat == key)
    requires forall k :: 0 <= k < j ==> b[k].pat != key
    ensures Find(b, key) == j
  {
  }

  /** The pattern ids filed under a key. */
  function PidsIn(b: seq<Entry>, key: nat): seq<nat>
  {
    var j := Find(b, key);
    if j < |b| then b[j].pids else []
  }

  function Pids(t: Table, crc: nat -> nat, key: nat): seq<nat>
    requires |t| > 0
  {
    PidsIn(t[Slot(crc, key, |t|)], key)
  }

  /** No list is empty or holds an id twice, and no entry owns recursive structures. */
  ghost predicate FlatBucket(b: seq<Entry>)
  {
    forall j :: 0 <= j < |b| ==> b[j].pids != [] && NoDup(b[j].pids) && b[j].deep.Flat?
  }

  ghost predicate FlatTable(t: Table)
  {
    |t| > 0 && forall b :: 0 <= b < |t| ==> FlatBucket(t[b])
  }

  /** Each entry is in its key's bucket, and no key has two entries. */
  ghost predicate Placed(t: Table, crc: nat -> nat)
    requires |t| > 0
  {
    forall b :: 0 <= b < |t| ==> PlacedBucket(t[b]) && InSlot(t[b], crc, b, |t|)
  }

  ghost predicate PlacedBucket(b: seq<Entry>)
  {
    forall i, j :: 0 <= i < j < |b| ==> b[i].pat != b[j].pat
  }

  ghost predicate InSlot(b: seq<Entry>, crc: nat -> nat, slot: nat, size: nat)
    requires size > 0
  {
    forall j :: 0 <= j < |b| ==> Slot(crc, b[j].pat, size) == slot
  }

  function Inserted(s: seq<nat>, x: nat): seq<nat>
  {
    if x in s then s else s + [x]
  }

  method FindEntry(b: seq<Entry>, key: nat) returns (j: nat)
    ensures j == Find(b, key)
  {
    j := 0;
    while j < |b|
      invariant 0 <= j <= |b|
      invariant forall k :: 0 <= k < j ==> b[k].pat != key
    {
      if b[j].pat == key { return; }
      j := j + 1;
    }
  }

  method FindPid(pids: seq<nat>, pid: nat) returns (m: nat)
    ensures m <= |pids| && (m == |pids| <==> pid !in pids)
  {
    m := 0;
    while m < |pids|
      invariant 0 <= m <= |pids| && pid !in pids[..m]
    {
      if pids[m] == pid { return; }
      m := m + 1;
    }
  }

  lemma FindAppend(b: seq<Entry>, e: Entry, k: nat)
    ensures Find(b + [e], k) == if Find(b, k) < |b| then Find(b, k) else if e.pat == k then |b| else |b| + 1
  {
    FindIs(b + [e], k, if Find(b, k) < |b| then Find(b, k) else if e.pat == k then |b| else |b| + 1);
  }

  lemma FindReplace(b: seq<Entry>, n: nat, e: Entry, k: nat)
    requires n < |b| && e.pat == b[n].pat
    ensures Find(b[n := e], k) == Find(b, k)
  {
    FindIs(b[n := e], k, Find(b, k));
  }

  /** What filing an id does to a bucket. */
  ghost predicate Filed(b: seq<Entry>, key: nat, pid: nat, c: seq<Entry>)
  {
    && FlatBucket(c)
    && PidsIn(c, key) == Inserted(PidsIn(b, key), pid)
    && (forall k :: k != key ==> PidsIn(c, k) == PidsIn(b, k))
    && (PlacedBucket(b) ==> PlacedBucket(c))
    && (forall j :: 0 <= j < |c| ==> c[j].pat == key || (j < |b| && c[j].pat == b[j].pat))
  }

  lemma FiledNew(b: seq<Entry>, key: nat, pid: nat)
    requires FlatBucket(b) && Find(b, key) == |b|
    ensures Filed(b, key, pid, b + [Entry(key, [pid], Flat)])
  {
    var e := Entry(key, [pid], Flat);
    var c := b + [e];
    forall k: nat ensures PidsIn(c, k) == if k == key then [pid] else PidsIn(b, k) {
      FindAppend(b, e, k);
    }
  }

  lemma FiledMore(b: seq<Entry>, n: nat, pid: nat)
    requires FlatBucket(b) && n < |b| && Find(b, b[n].pat) == n && pid !in b[n].pids
    ensures Filed(b, b[n].pat, pid, b[n := b[n].(pids := b[n].pids + [pid])])
  {
    var e := b[n].(pids := b[n].pids + [pid]);
    var c := b[n := e];
    forall k: nat ensures PidsIn(c, k) == if k == b[n].pat then e.pids else PidsIn(b, k) {
      PidsReplace(b, n, e, k);
    }
    ReplaceFlat(b, n, e);
  }

  lemma PidsReplace(b: seq<Entry>, n: nat, e: Entry, k: nat)
    requires n < |b| && e.pat == b[n].pat && Find(b, b[n].pat) == n
    ensures PidsIn(b[n := e], k) == if k == b[n].pat then e.pids else PidsIn(b, k)
  {
    FindReplace(b, n, e, k);
  }

  lemma ReplaceFlat(b: seq<Entry>, n: nat, e: Entry)
    requires n < |b| && e.pat == b[n].pat && FlatBucket(b) && e.pids != [] && NoDup(e.pids) && e.deep.Flat?
    ensures FlatBucket(b[n := e]) && (PlacedBucket(b) ==> PlacedBucket(b[n := e]))
    ensures forall j :: 0 <= j < |b| ==> b[n := e][j].pat == b[j].pat
  {
  }

  /** Filing an id in one bucket. */
  method AddToBucket(b: seq<Entry>, key: nat, pid: nat) returns (c: seq<Entry>)
    requires FlatBucket(b)
    ensures Filed(b, key, pid, c)
  {
    var n := FindEntry(b, key);
    if n == |b| {
      c := b + [Entry(key, [pid], Flat)];
      FiledNew(b, key, pid);
    } else {
      var m := FindPid(b[n].pids, pid);
      if m == |b[n].pids| {
        c := b[n := b[n].(pids := b[n].pids + [pid])];
        FiledMore(b, n, pid);
      } else {
        c := b;
      }
    }
  }

  /** Filing an id under a key: every other key keeps its list, and no id is filed twice. */
  method AddPid(t: Table, crc: nat -> nat, key: nat, pid: nat) returns (t': Table)
    requires FlatTable(t)
    ensures FlatTable(t') && |t'| == |t|
    ensures Pids(t', crc, key) == Inserted(Pids(t, crc, key), pid)
    ensures forall k :: k != key ==> Pids(t', crc, k) == Pids(t, crc, k)
    ensures Placed(t, crc) ==> Placed(t', crc)
  {
    var slot := Slot(crc, key, |t|);
    var b := AddToBucket(t[slot], key, pid);
    t' := t[slot := b];
  }
}
