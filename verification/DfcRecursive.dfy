/** Recursive filtering: the 2-byte filter and table that an entry of a table with windows of `m`
    bytes (2, 4 or 8) owns once ten or more patterns share its key. */
module DfcRecursive {
  import opened Common
  import opened DfcPattern
  import opened DfcTable
  import opened DfcCompile

  /** The pattern could end here if `x` holds the two bytes before its window of `m` bytes. */
  ghost predicate Behind(m: nat, p: Pattern, x: nat)
  {
    if |p.bytes| == m + 1 then x < DF_SIZE && p.Fits(x / 256, 0)
    else |p.bytes| >= m + 2 && Covers(p, |p.bytes| - m - 2, 2, x)
  }

  /** A high byte preceded by anything, for patterns one byte longer than the window. */
  method AddRow(f: Filter, t: Table, crc: nat -> nat, high: Byte, pid: nat) returns (g: Filter, u: Table)
    requires FilterOk(f) && FlatTable(t)
    ensures FilterOk(g) && FlatTable(u) && |u| == |t|
    ensures forall x :: 0 <= x < DF_SIZE ==> (Has(g, x) <==> Has(f, x) || x / 256 == high)
    ensures forall key: nat :: Pids(u, crc, key) == if key / 256 == high then Inserted(Pids(t, crc, key), pid)
                                                    else Pids(t, crc, key)
  {
    g, u := f, t;
    var l: nat := 0;
    while l < 256
      invariant l <= 256 && FilterOk(g) && FlatTable(u) && |u| == |t|
      invariant forall x :: 0 <= x < DF_SIZE ==> (Has(g, x) <==> Has(f, x) || (x / 256 == high && x % 256 < l))
      invariant forall key: nat ::
          Pids(u, crc, key) == if key / 256 == high && key % 256 < l then Inserted(Pids(t, crc, key), pid)
                               else Pids(t, crc, key)
    {
      Fragment2([l, high]);
      g, u := MoveWindow(g, u, crc, [l, high], pid);
      l := l + 1;
    }
  }

  /** Moving one id longer than the window to the recursive filter and table. */
  method MovePid(m: nat, f: Filter, t: Table, crc: nat -> nat, p: Pattern, pid: nat)
    returns (g: Filter, u: Table)
    requires FilterOk(f) && FlatTable(t) && |p.bytes| > m
    ensures FilterOk(g) && FlatTable(u) && |u| == |t|
    ensures forall x :: 0 <= x < DF_SIZE ==> (Has(g, x) <==> Has(f, x) || Behind(m, p, x))
    ensures forall key: nat :: Pids(u, crc, key) == if Behind(m, p, key) then Inserted(Pids(t, crc, key), pid)
                                                    else Pids(t, crc, key)
  {
    if |p.bytes| == m + 1 {
      g, u := MoveRow(m, f, t, crc, p, pid);
    } else {
      g, u := MoveLonger(m, f, t, crc, p, pid);
    }
  }

  method MoveRow(m: nat, f: Filter, t: Table, crc: nat -> nat, p: Pattern, pid: nat)
    returns (g: Filter, u: Table)
    requires FilterOk(f) && FlatTable(t) && |p.bytes| == m + 1
    ensures FilterOk(g) && FlatTable(u) && |u| == |t|
    ensures forall x :: 0 <= x < DF_SIZE ==> (Has(g, x) <==> Has(f, x) || Behind(m, p, x))
    ensures forall key: nat :: Pids(u, crc, key) == if Behind(m, p, key) then Inserted(Pids(t, crc, key), pid)
                                                    else Pids(t, crc, key)
  {
    if p.nocase {
      var low, high := ToLower(ToUpper(p.bytes[0])), ToUpper(ToUpper(p.bytes[0]));
      g, u := AddRow(f, t, crc, low, pid);
      g, u := AddRow(g, u, crc, high, pid);
      forall x: nat ensures Behind(m, p, x) <==> x / 256 == low || x / 256 == high {
        RowAnyCase(m, p, x);
      }
    } else {
      g, u := AddRow(f, t, crc, p.bytes[0], pid);
      forall x: nat ensures Behind(m, p, x) <==> x / 256 == p.bytes[0] {
        RowOneCase(m, p, x);
      }
    }
  }

  lemma RowAnyCase(m: nat, p: Pattern, x: nat)
    requires |p.bytes| == m + 1 && p.nocase
    ensures Behind(m, p, x) <==> x / 256 == ToLower(ToUpper(p.bytes[0])) || x / 256 == ToUpper(ToUpper(p.bytes[0]))
  {
  }

  lemma RowOneCase(m: nat, p: Pattern, x: nat)
    requires |p.bytes| == m + 1 && !p.nocase
    ensures Behind(m, p, x) <==> x / 256 == p.bytes[0]
  {
  }

  method MoveLonger(m: nat, f: Filter, t: Table, crc: nat -> nat, p: Pattern, pid: nat)
    returns (g: Filter, u: Table)
    requires FilterOk(f) && FlatTable(t) && |p.bytes| >= m + 2
    ensures FilterOk(g) && FlatTable(u) && |u| == |t|
    ensures forall x :: 0 <= x < DF_SIZE ==> (Has(g, x) <==> Has(f, x) || Behind(m, p, x))
    ensures forall key: nat :: Pids(u, crc, key) == if Behind(m, p, key) then Inserted(Pids(t, crc, key), pid)
                                                    else Pids(t, crc, key)
  {
    var off := |p.bytes| - m - 2;
    g, u := MoveCovered(f, t, crc, p, off, pid);
    forall x: nat ensures Behind(m, p, x) <==> Covers(p, off, 2, x) {
    }
  }

  /** The two bytes at `off`: all case variants, or the one window of a case-sensitive pattern. */
  method MoveCovered(f: Filter, t: Table, crc: nat -> nat, p: Pattern, off: nat, pid: nat)
    returns (g: Filter, u: Table)
    requires FilterOk(f) && FlatTable(t) && off + 2 <= |p.bytes|
    ensures FilterOk(g) && FlatTable(u) && |u| == |t|
    ensures forall x :: 0 <= x < DF_SIZE ==> (Has(g, x) <==> Has(f, x) || Covers(p, off, 2, x))
    ensures forall key: nat :: Pids(u, crc, key) == if Covers(p, off, 2, key) then Inserted(Pids(t, crc, key), pid)
                                                    else Pids(t, crc, key)
  {
    if p.nocase {
      g := MarkWindows(f, p, off, 2, 0);
      u := FileWindows(t, crc, p, pid, off, 2);
    } else {
      g, u := MoveSingle(f, t, crc, p, off, pid);
    }
  }

  method MoveSingle(f: Filter, t: Table, crc: nat -> nat, p: Pattern, off: nat, pid: nat)
    returns (g: Filter, u: Table)
    requires FilterOk(f) && FlatTable(t) && off + 2 <= |p.bytes| && !p.nocase
    ensures FilterOk(g) && FlatTable(u) && |u| == |t|
    ensures forall x :: 0 <= x < DF_SIZE ==> (Has(g, x) <==> Has(f, x) || Covers(p, off, 2, x))
    ensures forall key: nat :: Pids(u, crc, key) == if Covers(p, off, 2, key) then Inserted(Pids(t, crc, key), pid)
                                                    else Pids(t, crc, key)
  {
    var temp := [p.bytes[off], p.bytes[off + 1]];
    g, u := MoveWindow(f, t, crc, temp, pid);
    forall x: nat ensures Covers(p, off, 2, x) <==> x == Fragment(temp) {
      OneWindow(p, off, x);
    }
  }

  /** One window in the recursive filter and table. */
  method MoveWindow(f: Filter, t: Table, crc: nat -> nat, w: seq<Byte>, pid: nat) returns (g: Filter, u: Table)
    requires FilterOk(f) && FlatTable(t) && |w| == 2
    ensures FilterOk(g) && FlatTable(u) && |u| == |t|
    ensures forall x :: 0 <= x < DF_SIZE ==> (Has(g, x) <==> Has(f, x) || x == Fragment(w))
    ensures forall key: nat :: Pids(u, crc, key) == if key == Fragment(w) then Inserted(Pids(t, crc, key), pid)
                                                    else Pids(t, crc, key)
  {
    Fragment2(w);
    g := Mark(f, Fragment(w));
    u := AddPid(t, crc, Fragment(w), pid);
    forall x | 0 <= x < DF_SIZE ensures Has(g, x) <==> Has(f, x) || x == Fragment(w) {
      MarkHas(f, Fragment(w), x);
    }
  }

  /** A case-sensitive pattern covers one value. */
  lemma OneWindow(p: Pattern, off: nat, x: nat)
    requires off + 2 <= |p.bytes| && !p.nocase
    ensures Covers(p, off, 2, x) <==> x == Fragment([p.bytes[off], p.bytes[off + 1]])
  {
    var temp := [p.bytes[off], p.bytes[off + 1]];
    assert p.FitsWindow(off, temp);
    if Covers(p, off, 2, x) {
      var w: seq<Byte> :| |w| == 2 && p.FitsWindow(off, w) && Fragment(w) == x;
      assert p.Fits(w[0], off + 0) && p.Fits(w[1], off + 1);
      assert w == temp;
    }
  }

  // -------------------------------------------------------------------------
  // A whole entry
  // -------------------------------------------------------------------------

  /** Every id names a pattern as long as the window or longer. */
  ghost predicate WideIds(m: nat, pats: seq<Pattern>, pids: seq<nat>)
  {
    forall k :: 0 <= k < |pids| ==> pids[k] < |pats| && |pats[pids[k]].bytes| >= m
  }

  ghost predicate AnyBehind(m: nat, pats: seq<Pattern>, pids: seq<nat>, x: nat)
    requires WideIds(m, pats, pids)
  {
    exists k :: 0 <= k < |pids| && Behind(m, pats[pids[k]], x)
  }

  /** The flat part keeps the patterns that are all window. */
  ghost predicate FlatPart(m: nat, pats: seq<Pattern>, pids: seq<nat>, flat: seq<nat>)
    requires WideIds(m, pats, pids)
  {
    NoDup(flat) && forall pid :: pid in flat <==> pid in pids && |pats[pid].bytes| == m
  }

  /** The recursive table holds each id under the values that can precede its window. */
  ghost predicate DeepPart(m: nat, pats: seq<Pattern>, pids: seq<nat>, crc: nat -> nat, t: Table)
    requires WideIds(m, pats, pids)
  {
    FlatTable(t) && forall key: nat, pid: nat :: pid in Pids(t, crc, key) <==> pid in pids && Behind(m, pats[pid], key)
  }

  ghost predicate DeepFilter(m: nat, pats: seq<Pattern>, pids: seq<nat>, f: Filter)
    requires WideIds(m, pats, pids)
  {
    FilterOk(f) && forall x :: 0 <= x < DF_SIZE ==> (Has(f, x) <==> AnyBehind(m, pats, pids, x))
  }

  /** The ids are split over a flat list and the recursive filter and table. */
  ghost predicate Split(m: nat, pats: seq<Pattern>, pids: seq<nat>, crc: nat -> nat, flat: seq<nat>,
                        filter: Filter, table: Table)
  {
    && WideIds(m, pats, pids) && FlatPart(m, pats, pids, flat)
    && DeepPart(m, pats, pids, crc, table) && DeepFilter(m, pats, pids, filter)
  }

  /** Splitting the ids of a crowded entry over its flat list and its recursive structures. */
  method Deepen(m: nat, e: Entry, pats: seq<Pattern>, crc: nat -> nat) returns (d: Entry)
    requires WideIds(m, pats, e.pids) && NoDup(e.pids)
    ensures d.pat == e.pat && d.deep.Deep?
    ensures Split(m, pats, e.pids, crc, d.pids, d.deep.filter, d.deep.table)
  {
    var flat: seq<nat> := [];
    var filter := EmptyFilter();
    var table := EmptyTable(RECURSIVE_CT_SIZE);
    var j := 0;
    while j < |e.pids|
      invariant 0 <= j <= |e.pids|
      invariant Split(m, pats, e.pids[..j], crc, flat, filter, table)
    {
      assert e.pids[..j + 1] == e.pids[..j] + [e.pids[j]];
      assert e.pids[j] !in e.pids[..j];
      flat, filter, table := SplitNext(m, pats, e.pids[..j], crc, flat, filter, table, e.pids[j]);
      j := j + 1;
    }
    assert e.pids[..j] == e.pids;
    d := Entry(e.pat, flat, Deep(filter, table));
  }

  method SplitNext(m: nat, pats: seq<Pattern>, ghost pids: seq<nat>, crc: nat -> nat, flat: seq<nat>,
                   filter: Filter, table: Table, pid: nat)
    returns (flat': seq<nat>, filter': Filter, table': Table)
    requires Split(m, pats, pids, crc, flat, filter, table) && pid !in pids
    requires pid < |pats| && |pats[pid].bytes| >= m
    ensures Split(m, pats, pids + [pid], crc, flat', filter', table')
  {
    FlatNext(m, pats, pids, flat, pid);
    if |pats[pid].bytes| == m {
      flat', filter', table' := flat + [pid], filter, table;
      KeepDeep(m, pats, pids, crc, table, filter, pid);
    } else {
      flat' := flat;
      filter', table' := MovePid(m, filter, table, crc, pats[pid], pid);
      DeepNext(m, pats, pids, crc, table, table', pid);
      FilterNext(m, pats, pids, filter, filter', pid);
    }
  }

  lemma FlatNext(m: nat, pats: seq<Pattern>, pids: seq<nat>, flat: seq<nat>, pid: nat)
    requires WideIds(m, pats, pids) && FlatPart(m, pats, pids, flat) && pid !in pids
    requires pid < |pats| && |pats[pid].bytes| >= m
    ensures FlatPart(m, pats, pids + [pid], if |pats[pid].bytes| == m then flat + [pid] else flat)
  {
  }

  lemma KeepDeep(m: nat, pats: seq<Pattern>, pids: seq<nat>, crc: nat -> nat, t: Table, f: Filter, pid: nat)
    requires WideIds(m, pats, pids) && DeepPart(m, pats, pids, crc, t) && DeepFilter(m, pats, pids, f)
    requires pid < |pats| && |pats[pid].bytes| == m
    ensures DeepPart(m, pats, pids + [pid], crc, t) && DeepFilter(m, pats, pids + [pid], f)
  {
    forall x: nat ensures AnyBehind(m, pats, pids + [pid], x) <==> AnyBehind(m, pats, pids, x) {
      AnyNext(m, pats, pids, pid, x);
    }
  }

  lemma AnyNext(m: nat, pats: seq<Pattern>, pids: seq<nat>, pid: nat, x: nat)
    requires WideIds(m, pats, pids) && pid < |pats| && |pats[pid].bytes| >= m
    ensures AnyBehind(m, pats, pids + [pid], x) <==> AnyBehind(m, pats, pids, x) || Behind(m, pats[pid], x)
  {
    var all := pids + [pid];
    if AnyBehind(m, pats, pids, x) {
      var k :| 0 <= k < |pids| && Behind(m, pats[pids[k]], x);
      assert all[k] == pids[k];
    }
    assert all[|pids|] == pid;
  }

  lemma DeepNext(m: nat, pats: seq<Pattern>, pids: seq<nat>, crc: nat -> nat, t: Table, u: Table, pid: nat)
    requires WideIds(m, pats, pids) && DeepPart(m, pats, pids, crc, t) && FlatTable(u)
    requires pid < |pats| && |pats[pid].bytes| >= m
    requires forall key: nat :: Pids(u, crc, key) == if Behind(m, pats[pid], key) then Inserted(Pids(t, crc, key), pid)
                                                     else Pids(t, crc, key)
    ensures DeepPart(m, pats, pids + [pid], crc, u)
  {
  }

  lemma FilterNext(m: nat, pats: seq<Pattern>, pids: seq<nat>, f: Filter, g: Filter, pid: nat)
    requires WideIds(m, pats, pids) && DeepFilter(m, pats, pids, f) && FilterOk(g)
    requires pid < |pats| && |pats[pid].bytes| >= m
    requires forall x :: 0 <= x < DF_SIZE ==> (Has(g, x) <==> Has(f, x) || Behind(m, pats[pid], x))
    ensures DeepFilter(m, pats, pids + [pid], g)
  {
    forall x | 0 <= x < DF_SIZE ensures Has(g, x) <==> AnyBehind(m, pats, pids + [pid], x) {
      AnyNext(m, pats, pids, pid, x);
    }
  }
}
