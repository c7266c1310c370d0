/** Filing patterns in the direct filters and compact tables (`DFC_Compile`). */
module DfcCompile {
  import opened Bits
  import opened Common
  import opened DfcPattern
  import opened DfcTable

  const RECURSIVE_BOUNDARY := 10
  const RECURSIVE_CT_SIZE := 0x1000

  /** `x` is the little-endian value of a window of `m` bytes that fits the pattern at `off`. */
  ghost predicate Covers(p: Pattern, off: nat, m: nat, x: nat)
  {
    off + m <= |p.bytes| && exists w: seq<Byte> :: |w| == m && p.FitsWindow(off, w) && Fragment(w) == x
  }

  /** The word loaded from the payload is covered exactly when its bytes fit. */
  lemma CoversLoaded(p: Pattern, off: nat, w: seq<Byte>)
    requires off + |w| <= |p.bytes|
    ensures Covers(p, off, |w|, Fragment(w)) <==> p.FitsWindow(off, w)
  {
    if Covers(p, off, |w|, Fragment(w)) {
      var v: seq<Byte> :| |v| == |w| && p.FitsWindow(off, v) && Fragment(v) == Fragment(w);
      FragmentInjective(v, w);
    }
  }

  // -------------------------------------------------------------------------
  // One pattern in a direct filter
  // -------------------------------------------------------------------------

  /** One of the first `n` window variants has the value `x` in its two bytes at `skip`. */
  ghost predicate Seen2(p: Pattern, off: nat, m: nat, skip: nat, n: nat, x: nat)
    requires off + m <= |p.bytes| && skip + 2 <= m
  {
    exists a: nat :: a < n && Fragment(p.Window(off, m, a)[skip..skip + 2]) == x
  }

  lemma SliceFits(p: Pattern, off: nat, v: seq<Byte>, skip: nat)
    requires off + |v| <= |p.bytes| && skip + 2 <= |v| && p.FitsWindow(off, v)
    ensures p.FitsWindow(off + skip, v[skip..skip + 2])
  {
    var w := v[skip..skip + 2];
    assert w[0] == v[skip] && p.Fits(v[skip], off + skip);
    assert w[1] == v[skip + 1] && p.Fits(v[skip + 1], off + (skip + 1));
  }

  /** A window that fits with its two bytes at `skip` replaced by others that fit. */
  lemma SpliceFits(p: Pattern, off: nat, v: seq<Byte>, skip: nat, w: seq<Byte>) returns (u: seq<Byte>)
    requires off + |v| <= |p.bytes| && skip + 2 <= |v| && |w| == 2
    requires p.FitsWindow(off, v) && p.FitsWindow(off + skip, w)
    ensures |u| == |v| && p.FitsWindow(off, u) && u[skip..skip + 2] == w
  {
    u := v[skip := w[0]][skip + 1 := w[1]];
    assert p.Fits(w[0], off + skip + 0) && p.Fits(w[1], off + skip + 1);
  }

  lemma Seen2Covers(p: Pattern, off: nat, m: nat, skip: nat, x: nat)
    requires off + m <= |p.bytes| && skip + 2 <= m
    ensures Seen2(p, off, m, skip, Pow2(m), x) <==> Covers(p, off + skip, 2, x)
  {
    if Seen2(p, off, m, skip, Pow2(m), x) {
      var a: nat :| a < Pow2(m) && Fragment(p.Window(off, m, a)[skip..skip + 2]) == x;
      p.WindowFits(off, m, a);
      SliceFits(p, off, p.Window(off, m, a), skip);
    }
    if Covers(p, off + skip, 2, x) {
      CoversSeen2(p, off, m, skip, x);
    }
  }

  lemma CoversSeen2(p: Pattern, off: nat, m: nat, skip: nat, x: nat)
    requires off + m <= |p.bytes| && skip + 2 <= m && Covers(p, off + skip, 2, x)
    ensures Seen2(p, off, m, skip, Pow2(m), x)
  {
    var w: seq<Byte> :| |w| == 2 && p.FitsWindow(off + skip, w) && Fragment(w) == x;
    p.WindowFits(off, m, 0);
    var u := SpliceFits(p, off, p.Window(off, m, 0), skip, w);
    var a := p.WindowReaches(off, u);
    assert p.Window(off, m, a)[skip..skip + 2] == w;
  }

  /** Marking two bytes of every case variant of a window. */
  method MarkWindows(f: Filter, p: Pattern, off: nat, m: nat, skip: nat) returns (g: Filter)
    requires FilterOk(f) && off + m <= |p.bytes| && skip + 2 <= m
    ensures FilterOk(g)
    ensures forall x :: 0 <= x < DF_SIZE ==> (Has(g, x) <==> Has(f, x) || Covers(p, off + skip, 2, x))
  {
    g := f;
    var alphaCnt: nat := 0;
    while alphaCnt < Pow2(m)
      invariant alphaCnt <= Pow2(m) && FilterOk(g)
      invariant forall x :: 0 <= x < DF_SIZE ==> (Has(g, x) <==> Has(f, x) || Seen2(p, off, m, skip, alphaCnt, x))
    {
      var temp := p.Window(off, m, alphaCnt)[skip..skip + 2];
      Fragment2(temp);
      ghost var before := g;
      g := Mark(g, Fragment(temp));
      forall x | 0 <= x < DF_SIZE
        ensures Has(g, x) <==> Has(f, x) || Seen2(p, off, m, skip, alphaCnt + 1, x)
      {
        MarkHas(before, Fragment(temp), x);
        Seen2Next(p, off, m, skip, alphaCnt, x);
      }
      alphaCnt := alphaCnt + 1;
    }
    forall x | 0 <= x < DF_SIZE ensures Has(g, x) <==> Has(f, x) || Covers(p, off + skip, 2, x) {
      Seen2Covers(p, off, m, skip, x);
    }
  }

  lemma Seen2Next(p: Pattern, off: nat, m: nat, skip: nat, n: nat, x: nat)
    requires off + m <= |p.bytes| && skip + 2 <= m
    ensures Seen2(p, off, m, skip, n + 1, x)
            <==> Seen2(p, off, m, skip, n, x) || Fragment(p.Window(off, m, n)[skip..skip + 2]) == x
  {
    if Seen2(p, off, m, skip, n + 1, x) {
      var a: nat :| a < n + 1 && Fragment(p.Window(off, m, a)[skip..skip + 2]) == x;
      assert a == n || a < n;
    }
  }

  /** Marking a first byte followed by anything, for 1-byte patterns. */
  method MarkFirst(f: Filter, c: Byte) returns (g: Filter)
    requires FilterOk(f)
    ensures FilterOk(g)
    ensures forall x :: 0 <= x < DF_SIZE ==> (Has(g, x) <==> Has(f, x) || x % 256 == c)
  {
    g := f;
    var j: nat := 0;
    while j < 256
      invariant j <= 256 && FilterOk(g)
      invariant forall x :: 0 <= x < DF_SIZE ==> (Has(g, x) <==> Has(f, x) || (x % 256 == c && x / 256 < j))
    {
      Fragment2([c, j]);
      ghost var before := g;
      g := Mark(g, Fragment([c, j]));
      forall x | 0 <= x < DF_SIZE
        ensures Has(g, x) <==> Has(f, x) || (x % 256 == c && x / 256 < j + 1)
      {
        MarkHas(before, Fragment([c, j]), x);
      }
      j := j + 1;
    }
  }

  // -------------------------------------------------------------------------
  // One pattern in a compact table
  // -------------------------------------------------------------------------

  ghost predicate SeenKey(p: Pattern, off: nat, m: nat, n: nat, key: nat)
    requires off + m <= |p.bytes|
  {
    exists a: nat :: a < n && Fragment(p.Window(off, m, a)) == key
  }

  lemma SeenKeyCovers(p: Pattern, off: nat, m: nat, key: nat)
    requires off + m <= |p.bytes|
    ensures SeenKey(p, off, m, Pow2(m), key) <==> Covers(p, off, m, key)
  {
    if SeenKey(p, off, m, Pow2(m), key) {
      var a: nat :| a < Pow2(m) && Fragment(p.Window(off, m, a)) == key;
      p.WindowFits(off, m, a);
    }
    if Covers(p, off, m, key) {
      var w: seq<Byte> :| |w| == m && p.FitsWindow(off, w) && Fragment(w) == key;
      var a := p.WindowReaches(off, w);
    }
  }

  lemma SeenKeyNext(p: Pattern, off: nat, m: nat, n: nat, key: nat)
    requires off + m <= |p.bytes|
    ensures SeenKey(p, off, m, n + 1, key) <==> SeenKey(p, off, m, n, key) || Fragment(p.Window(off, m, n)) == key
  {
    if SeenKey(p, off, m, n + 1, key) {
      var a: nat :| a < n + 1 && Fragment(p.Window(off, m, a)) == key;
      assert a == n || a < n;
    }
  }

  /** Filing a pattern under every case variant of a window. */
  method FileWindows(t: Table, crc: nat -> nat, p: Pattern, pid: nat, off: nat, m: nat) returns (u: Table)
    requires FlatTable(t) && off + m <= |p.bytes|
    ensures FlatTable(u) && |u| == |t| && (Placed(t, crc) ==> Placed(u, crc))
    ensures forall key :: Pids(u, crc, key)
                          == if Covers(p, off, m, key) then Inserted(Pids(t, crc, key), pid) else Pids(t, crc, key)
  {
    u := t;
    var alphaCnt: nat := 0;
    while alphaCnt < Pow2(m)
      invariant alphaCnt <= Pow2(m) && FlatTable(u) && |u| == |t| && (Placed(t, crc) ==> Placed(u, crc))
      invariant forall key :: Pids(u, crc, key)
                              == if SeenKey(p, off, m, alphaCnt, key) then Inserted(Pids(t, crc, key), pid)
                                 else Pids(t, crc, key)
    {
      var temp := p.Window(off, m, alphaCnt);
      u := AddPid(u, crc, Fragment(temp), pid);
      forall key: nat
        ensures Pids(u, crc, key) == if SeenKey(p, off, m, alphaCnt + 1, key) then Inserted(Pids(t, crc, key), pid)
                                     else Pids(t, crc, key)
      {
        SeenKeyNext(p, off, m, alphaCnt, key);
      }
      alphaCnt := alphaCnt + 1;
    }
    forall key: nat
      ensures Pids(u, crc, key)
              == if Covers(p, off, m, key) then Inserted(Pids(t, crc, key), pid) else Pids(t, crc, key)
    {
      SeenKeyCovers(p, off, m, key);
    }
  }

  /** Filing under the upper-case window: the source repeats the insertion once per case variant,
      and every repetition after the first changes nothing. */
  method FileUpper(t: Table, crc: nat -> nat, p: Pattern, pid: nat) returns (u: Table)
    requires FlatTable(t) && |p.bytes| >= 8
    ensures FlatTable(u) && |u| == |t| && (Placed(t, crc) ==> Placed(u, crc))
    ensures forall key :: Pids(u, crc, key)
                          == if Files8(p, key) then Inserted(Pids(t, crc, key), pid) else Pids(t, crc, key)
  {
    var key8 := Fragment64(Upper(p.bytes[|p.bytes| - 8..]));
    u := AddPid(t, crc, key8, pid);
    var alphaCnt: nat := 1;
    while alphaCnt < 256
      invariant FlatTable(u) && |u| == |t| && (Placed(t, crc) ==> Placed(u, crc))
      invariant forall key :: Pids(u, crc, key)
                              == if key == key8 then Inserted(Pids(t, crc, key), pid) else Pids(t, crc, key)
    {
      u := AddPid(u, crc, key8, pid);
      alphaCnt := alphaCnt + 1;
    }
  }

  function Upper(w: seq<Byte>): (u: seq<Byte>)
    ensures |u| == |w| && forall k :: 0 <= k < |w| ==> u[k] == ToUpper(w[k])
  {
    seq(|w|, k requires 0 <= k < |w| => ToUpper(w[k]))
  }

  /** `fragment_64`: the low word is an `int`, so it is sign-extended when its top byte is 128 or more. */
  function Fragment64(w: seq<Byte>): nat
    requires |w| == 8
  {
    var high := if w[3] >= 128 then 0xFFFF_FFFF else Fragment(w[4..8]);
    high * 0x1_0000_0000 + Fragment(w[0..4])
  }

  /** The sign extension makes different windows share a key. */
  lemma Fragment64NotInjective()
    ensures exists v: seq<Byte>, w: seq<Byte> :: |v| == 8 && |w| == 8 && v != w && Fragment64(v) == Fragment64(w)
  {
    var v: seq<Byte> := [1, 1, 1, 128, 1, 1, 1, 1];
    var w: seq<Byte> := [1, 1, 1, 128, 2, 1, 1, 1];
    assert v[0..4] == w[0..4] && v[4] != w[4];
    assert Fragment64(v) == Fragment64(w);
  }

  /** Exactly when: two windows share a key if and only if their first four bytes agree and the other four
      agree too or are lost to the sign extension. */
  lemma Fragment64SameIff(v: seq<Byte>, w: seq<Byte>)
    requires |v| == |w| == 8
    ensures Fragment64(v) == Fragment64(w) <==> v[0..4] == w[0..4] && (v[3] >= 128 || v[4..8] == w[4..8])
  {
    WordBound(v[0..4]);
    WordBound(w[0..4]);
    if Fragment64(v) == Fragment64(w) {
      FragmentInjective(v[0..4], w[0..4]);
      assert v[3] == v[0..4][3] == w[0..4][3] == w[3];
      if v[3] < 128 { FragmentInjective(v[4..8], w[4..8]); }
    } else if v[0..4] == w[0..4] {
      assert v[3] == v[0..4][3] == w[0..4][3] == w[3];
    }
  }

  lemma {:induction false} FragmentBound(w: seq<Byte>)
    ensures Fragment(w) < Pow2(8 * |w|)
  {
    if |w| > 0 {
      FragmentBound(w[1..]);
      Pow2Values();
      Pow2Add(8, 8 * |w[1..]|);
    }
  }

  lemma WordBound(w: seq<Byte>)
    requires |w| == 4
    ensures Fragment(w) < 0x1_0000_0000
  {
    FragmentBound(w);
    Pow2Values();
  }

  /** The key of a pattern in the table for eight or more bytes. */
  predicate Files8(p: Pattern, key: nat)
  {
    |p.bytes| >= 8 && key == Fragment64(Upper(p.bytes[|p.bytes| - 8..]))
  }

  /** A payload window that fits the end of a pattern has the pattern's key. */
  lemma UpperLoaded(p: Pattern, w: seq<Byte>)
    requires |w| == 8 <= |p.bytes| && p.FitsWindow(|p.bytes| - 8, w)
    ensures Files8(p, Fragment64(Upper(w)))
  {
    var n := |p.bytes| - 8;
    forall k | 0 <= k < 8 ensures ToUpper(w[k]) == ToUpper(p.bytes[n..][k]) {
      assert p.Fits(w[k], n + k) && p.bytes[n..][k] == p.bytes[n + k];
    }
    assert Upper(w) == Upper(p.bytes[n..]);
  }

  // -------------------------------------------------------------------------
  // One pattern in all direct filters and in the table of single bytes
  // -------------------------------------------------------------------------

  datatype Filters = Filters(df1: Filter, cdf0: seq<bool>, cdf1: Filter, df4plus: Filter, df41: Filter) {
    predicate Ok()
    {
      FilterOk(df1) && |cdf0| == 256 && FilterOk(cdf1) && FilterOk(df4plus) && FilterOk(df41)
    }
  }

  /** What each filter must let through for a pattern. */
  ghost predicate Wants1(p: Pattern, x: nat)
  {
    if |p.bytes| == 1 then p.Fits(x % 256, 0) else |p.bytes| > 1 && Covers(p, p.Anchor(), 2, x)
  }

  predicate Wants0(p: Pattern, c: Byte) { |p.bytes| == 1 && p.Fits(c, 0) }

  ghost predicate WantsShort(p: Pattern, x: nat) { 2 <= |p.bytes| <= 3 && Covers(p, p.Anchor(), 2, x) }

  ghost predicate Wants4Plus(p: Pattern, x: nat) { |p.bytes| >= 4 && Covers(p, p.Anchor() + 2, 2, x) }

  ghost predicate Wants47(p: Pattern, x: nat) { 4 <= |p.bytes| < 8 && Covers(p, p.Anchor() + 2, 2, x) }

  /** The other case of a single byte. */
  function OtherCase(c: Byte): Byte { if IsLower(c) then ToUpper(c) else ToLower(c) }

  /** Marking one pattern in the direct filters. */
  method FilterPattern(fs: Filters, p: Pattern) returns (gs: Filters)
    requires fs.Ok()
    ensures gs.Ok()
    ensures forall x :: 0 <= x < DF_SIZE ==> (Has(gs.df1, x) <==> Has(fs.df1, x) || Wants1(p, x))
    ensures forall c: Byte :: gs.cdf0[c] <==> fs.cdf0[c] || Wants0(p, c)
    ensures forall x :: 0 <= x < DF_SIZE ==> (Has(gs.cdf1, x) <==> Has(fs.cdf1, x) || WantsShort(p, x))
    ensures forall x :: 0 <= x < DF_SIZE ==> (Has(gs.df4plus, x) <==> Has(fs.df4plus, x) || Wants4Plus(p, x))
    ensures forall x :: 0 <= x < DF_SIZE ==> (Has(gs.df41, x) <==> Has(fs.df41, x) || Wants47(p, x))
  {
    var n := |p.bytes|;
    var df1, cdf0, cdf1, df4plus, df41 := fs.df1, fs.cdf0, fs.cdf1, fs.df4plus, fs.df41;
    if n == 1 {
      var c := p.bytes[0];
      df1 := MarkFirst(df1, c);
      cdf0 := cdf0[c := true];
      if p.nocase {
        c := OtherCase(c);
        df1 := MarkFirst(df1, c);
        cdf0 := cdf0[c := true];
      }
    } else if n == 2 || n == 3 {
      df1 := MarkWindows(df1, p, n - 2, 2, 0);
      cdf1 := MarkWindows(cdf1, p, n - 2, 2, 0);
    } else if 4 <= n < 8 {
      df1 := MarkWindows(df1, p, n - 4, 2, 0);
      df4plus := MarkWindows(df4plus, p, n - 4, 4, 2);
      df41 := MarkWindows(df41, p, n - 4, 4, 2);
    } else if n >= 8 {
      df1 := MarkWindows(df1, p, n - 8, 2, 0);
      df4plus := MarkWindows(df4plus, p, n - 8, 4, 2);
    }
    gs := Filters(df1, cdf0, cdf1, df4plus, df41);
  }

  /** Filing a 1-byte pattern under its byte, and under the other case if case does not matter. */
  method FileByte(ct1: seq<seq<nat>>, p: Pattern, pid: nat) returns (ct: seq<seq<nat>>)
    requires |ct1| == 256
    ensures |ct| == 256
    ensures forall c: Byte :: ct[c] == if Wants0(p, c) then Inserted(ct1[c], pid) else ct1[c]
  {
    ct := ct1;
    if |p.bytes| == 1 {
      var c := p.bytes[0];
      var k := FindPid(ct[c], pid);
      ct := if k == |ct[c]| then ct[c := ct[c] + [pid]] else ct;
      if p.nocase {
        c := OtherCase(c);
        k := FindPid(ct[c], pid);
        ct := if k == |ct[c]| then ct[c := ct[c] + [pid]] else ct;
      }
    }
  }
}
