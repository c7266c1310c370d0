/** The hugepage allocator: size classes with freelists, splitting of larger buffers, and the
    accounting of reserved and handed-out memory. */
module HugeAlloc {
  import opened Bits
  import opened Common

  const MIN_CLASS_SIZE := 64
  const MIN_CLASS_BIT_SHIFT := 6
  const NUM_CLASSES := 18
  const MAX_CLASS_SIZE := 0x80_0000
  const HUGEPAGE_BITS := 21
  const SIZE_MAX := 0xFFFF_FFFF_FFFF_FFFF

  // -------------------------------------------------------------------------
  // Size classes
  // -------------------------------------------------------------------------

  function ClassMaxSize(c: nat): (r: nat)
    ensures r >= MIN_CLASS_SIZE
  {
    MIN_CLASS_SIZE * Pow2(c)
  }

  lemma LargestClass()
    ensures ClassMaxSize(NUM_CLASSES - 1) == MAX_CLASS_SIZE
  {
    Pow2Values();
    Pow2Add(16, 1);
    assert Pow2(1) == 2;
  }

  /** The index of the most significant bit, counted from 1; 0 for 0. */
  function MsbIndex(x: nat): (r: nat)
    ensures x < Pow2(r)
    ensures x > 0 ==> r > 0 && Pow2(r - 1) <= x
  {
    if x == 0 then 0 else 1 + MsbIndex(x / 2)
  }

  /** `c` is the smallest class whose buffers hold `size` bytes. */
  predicate SmallestFit(size: nat, c: nat)
  {
    size <= ClassMaxSize(c) && (c > 0 ==> ClassMaxSize(c - 1) < size)
  }

  lemma SmallestFitUnique(size: nat, c: nat, d: nat)
    requires SmallestFit(size, c) && SmallestFit(size, d)
    ensures c == d
  {
    if c < d { Pow2Monotone(c, d - 1); }
    if d < c { Pow2Monotone(d, c - 1); }
  }

  lemma Monotone(c: nat, d: nat)
    requires c <= d
    ensures ClassMaxSize(c) <= ClassMaxSize(d)
    ensures c < d ==> ClassMaxSize(c) < ClassMaxSize(d)
  {
    Pow2Monotone(c, d);
  }

  /** The class of a size by bit operations. */
  function GetClass(size: nat): (c: nat)
    requires 1 <= size <= MAX_CLASS_SIZE
    ensures SmallestFit(size, c) && c < NUM_CLASSES
  {
    GetClassFits(size);
    MsbIndex((size - 1) / Pow2(MIN_CLASS_BIT_SHIFT))
  }

  lemma GetClassFits(size: nat)
    requires 1 <= size <= MAX_CLASS_SIZE
    ensures var c := MsbIndex((size - 1) / Pow2(MIN_CLASS_BIT_SHIFT)); SmallestFit(size, c) && c < NUM_CLASSES
  {
    assert Pow2(MIN_CLASS_BIT_SHIFT) == MIN_CLASS_SIZE by {
      assert Pow2(2) == 4 && Pow2(4) == 16;
    }
    var x := (size - 1) / MIN_CLASS_SIZE;
    var c := MsbIndex(x);
    if c >= NUM_CLASSES {
      Monotone(NUM_CLASSES - 1, c - 1);
      LargestClass();
    }
  }

  /** The reference loop finds the same class. */
  method GetClassSlow(size: nat) returns (c: nat)
    requires 1 <= size <= MAX_CLASS_SIZE
    ensures c == GetClass(size) && SmallestFit(size, c)
  {
    c := 0;
    var classLim: nat := MIN_CLASS_SIZE;
    while size > classLim
      invariant classLim == ClassMaxSize(c) && (c > 0 ==> ClassMaxSize(c - 1) < size)
      decreases size - classLim
    {
      c := c + 1;
      classLim := classLim * 2;
    }
    SmallestFitUnique(size, c, GetClass(size));
  }

  /** `(x + (n - 1)) & ~(n - 1)` for `n = 2^k`: clearing the bits under the mask. */
  function RoundUp(x: nat, k: nat): (r: nat)
    ensures x <= r < x + Pow2(k) && r % Pow2(k) == 0
  {
    var y := x + (Pow2(k) - 1);
    RoundUpMask(y, k);
    y - And(y, Pow2(k) - 1)
  }

  lemma RoundUpMask(y: nat, k: nat)
    ensures And(y, Pow2(k) - 1) < Pow2(k) && And(y, Pow2(k) - 1) <= y
    ensures (y - And(y, Pow2(k) - 1)) % Pow2(k) == 0
  {
    AndMask(y, k);
    ModDown(y, Pow2(k));
  }

  lemma ModDown(y: nat, d: nat)
    requires d > 0
    ensures y % d < d && y % d <= y && (y - y % d) % d == 0
  {
    var q, r := y / d, y % d;
    assert y == q * d + r;
    MulNonPositive(-q, d);
    DivModUnique(y - r, d, q, 0);
  }

  /** A size that is exactly a class size belongs to that class. */
  lemma ClassOfClassSize(c: nat)
    requires c < NUM_CLASSES
    ensures 1 <= ClassMaxSize(c) <= MAX_CLASS_SIZE && GetClass(ClassMaxSize(c)) == c
  {
    Monotone(c, NUM_CLASSES - 1);
    LargestClass();
    if c > 0 { Monotone(c - 1, c); }
    SmallestFitUnique(ClassMaxSize(c), c, GetClass(ClassMaxSize(c)));
  }

  // -------------------------------------------------------------------------
  // Buffers and regions
  // -------------------------------------------------------------------------

  datatype Buffer = Buffer(buf: nat, classSize: nat)

  datatype Region = Region(buf: nat, size: nat)

  predicate Disjoint(b: Buffer, c: Buffer)
  {
    b.buf + b.classSize <= c.buf || c.buf + c.classSize <= b.buf
  }

  predicate RegionsDisjoint(r: Region, s: Region)
  {
    r.buf + r.size <= s.buf || s.buf + s.size <= r.buf
  }

  predicate Inside(b: Buffer, r: Region)
  {
    && r.buf <= b.buf && b.buf + b.classSize <= r.buf + r.size
    && b.classSize > 0 && (b.buf - r.buf) % b.classSize == 0
  }

  /** Inside a reserved region, at a multiple of its class size from the region's start. */
  ghost predicate Placed(b: Buffer, regions: seq<Region>)
  {
    exists k :: 0 <= k < |regions| && Inside(b, regions[k])
  }

  ghost predicate Apart(s: set<Buffer>)
  {
    forall b, c :: b in s && c in s && b != c ==> Disjoint(b, c)
  }

  ghost function Bytes(s: set<Buffer>): nat
  {
    if s == {} then 0 else var b :| b in s; b.classSize + Bytes(s - {b})
  }

  lemma {:induction false} BytesRemove(s: set<Buffer>, b: Buffer)
    requires b in s
    ensures Bytes(s) == b.classSize + Bytes(s - {b})
    decreases |s|
  {
    var c :| c in s && Bytes(s) == c.classSize + Bytes(s - {c});
    if c != b {
      BytesRemove(s - {c}, b);
      BytesRemove(s - {b}, c);
      assert s - {c} - {b} == s - {b} - {c};
    }
  }

  lemma BytesAdd(s: set<Buffer>, b: Buffer)
    requires b !in s
    ensures Bytes(s + {b}) == Bytes(s) + b.classSize
  {
    BytesRemove(s + {b}, b);
    assert s + {b} - {b} == s;
  }

  // -------------------------------------------------------------------------
  // Freelists
  // -------------------------------------------------------------------------

  ghost function FreeSet(lists: seq<seq<Buffer>>): set<Buffer>
  {
    set c, i | 0 <= c < |lists| && 0 <= i < |lists[c]| :: lists[c][i]
  }

  /** Every class lists buffers of its own size, none twice. */
  ghost predicate Lists(lists: seq<seq<Buffer>>)
  {
    && |lists| == NUM_CLASSES
    && (forall c :: 0 <= c < NUM_CLASSES ==> NoDup(lists[c]))
    && (forall c, i :: 0 <= c < NUM_CLASSES && 0 <= i < |lists[c]| ==> lists[c][i].classSize == ClassMaxSize(c))
  }

  lemma Member(lists: seq<seq<Buffer>>, c: nat, b: Buffer)
    requires Lists(lists) && c < NUM_CLASSES && b.classSize == ClassMaxSize(c)
    ensures b in FreeSet(lists) <==> b in lists[c]
  {
    if b in FreeSet(lists) {
      var d, i :| 0 <= d < NUM_CLASSES && 0 <= i < |lists[d]| && lists[d][i] == b;
      if c < d { Monotone(c, d); }
      if d < c { Monotone(d, c); }
    }
  }

  function Push(lists: seq<seq<Buffer>>, c: nat, b: Buffer): seq<seq<Buffer>>
    requires c < |lists|
  {
    lists[c := lists[c] + [b]]
  }

  function Pop(lists: seq<seq<Buffer>>, c: nat): seq<seq<Buffer>>
    requires c < |lists| && |lists[c]| > 0
  {
    lists[c := lists[c][..|lists[c]| - 1]]
  }

  lemma PushSet(lists: seq<seq<Buffer>>, c: nat, b: Buffer)
    requires Lists(lists) && c < NUM_CLASSES && b.classSize == ClassMaxSize(c) && b !in FreeSet(lists)
    ensures Lists(Push(lists, c, b)) && FreeSet(Push(lists, c, b)) == FreeSet(lists) + {b}
  {
    Member(lists, c, b);
    var more := Push(lists, c, b);
    forall x | x in FreeSet(lists) + {b} ensures x in FreeSet(more) {
      if x == b {
        assert more[c][|lists[c]|] == b;
      } else {
        var d, i :| 0 <= d < NUM_CLASSES && 0 <= i < |lists[d]| && lists[d][i] == x;
        assert more[d][i] == x;
      }
    }
  }

  lemma PopSet(lists: seq<seq<Buffer>>, c: nat)
    requires Lists(lists) && c < NUM_CLASSES && |lists[c]| > 0
    ensures var b := lists[c][|lists[c]| - 1];
            b in FreeSet(lists) && Lists(Pop(lists, c)) && FreeSet(Pop(lists, c)) == FreeSet(lists) - {b}
  {
    var b, less := lists[c][|lists[c]| - 1], Pop(lists, c);
    assert b !in less[c];
    Member(less, c, b);
    forall x | x in FreeSet(lists) - {b} ensures x in FreeSet(less) {
      var d, i :| 0 <= d < NUM_CLASSES && 0 <= i < |lists[d]| && lists[d][i] == x;
      assert less[d][i] == x;
    }
  }

  // -------------------------------------------------------------------------
  // What every operation keeps
  // -------------------------------------------------------------------------

  ghost predicate BlocksOk(regions: seq<Region>, s: set<Buffer>)
  {
    Apart(s) && forall b :: b in s ==> Placed(b, regions) && HasClass(b)
  }

  ghost predicate HasClass(b: Buffer)
  {
    exists c :: 0 <= c < NUM_CLASSES && b.classSize == ClassMaxSize(c)
  }

  ghost function Reserved(regions: seq<Region>): nat
  {
    if |regions| == 0 then 0 else Reserved(regions[..|regions| - 1]) + regions[|regions| - 1].size
  }

  ghost predicate RegionsOk(regions: seq<Region>)
  {
    && (forall j, k :: 0 <= j < k < |regions| ==> RegionsDisjoint(regions[j], regions[k]))
    && (forall k :: 0 <= k < |regions| ==> regions[k].size % Pow2(HUGEPAGE_BITS) == 0)
  }

  /** All free and live buffers are disjoint and placed, and no byte is lost or counted twice. */
  ghost predicate Sound(regions: seq<Region>, lists: seq<seq<Buffer>>, live: set<Buffer>, carved: nat,
                        shmReserved: nat, userAllocTot: nat)
  {
    Lists(lists) && Pool(regions, FreeSet(lists), live, carved, shmReserved, userAllocTot)
  }

  ghost predicate Pool(regions: seq<Region>, free: set<Buffer>, live: set<Buffer>, carved: nat,
                       shmReserved: nat, userAllocTot: nat)
  {
    && free !! live && RegionsOk(regions) && BlocksOk(regions, free + live)
    && userAllocTot == Bytes(live)
    && Bytes(free) + userAllocTot == MAX_CLASS_SIZE * carved <= shmReserved == Reserved(regions)
  }

  /** Handing out the last free buffer of a class. */
  lemma TakeKeeps(regions: seq<Region>, lists: seq<seq<Buffer>>, live: set<Buffer>, carved: nat,
                  shmReserved: nat, userAllocTot: nat, c: nat)
    requires Sound(regions, lists, live, carved, shmReserved, userAllocTot) && c < NUM_CLASSES && |lists[c]| > 0
    ensures var b := lists[c][|lists[c]| - 1];
            b !in live && Sound(regions, Pop(lists, c), live + {b}, carved, shmReserved, userAllocTot + b.classSize)
  {
    var b := lists[c][|lists[c]| - 1];
    PopSet(lists, c);
    BytesRemove(FreeSet(lists), b);
    BytesAdd(live, b);
    assert FreeSet(lists) - {b} + (live + {b}) == FreeSet(lists) + live;
  }

  /** Taking a live buffer back. */
  lemma FreeKeeps(regions: seq<Region>, lists: seq<seq<Buffer>>, live: set<Buffer>, carved: nat,
                  shmReserved: nat, userAllocTot: nat, b: Buffer, c: nat)
    requires Sound(regions, lists, live, carved, shmReserved, userAllocTot)
    requires b in live && c < NUM_CLASSES && b.classSize == ClassMaxSize(c)
    ensures userAllocTot >= b.classSize
    ensures Sound(regions, Push(lists, c, b), live - {b}, carved, shmReserved, userAllocTot - b.classSize)
  {
    PushSet(lists, c, b);
    FreePool(regions, FreeSet(lists), live, carved, shmReserved, userAllocTot, b);
  }

  lemma FreePool(regions: seq<Region>, free: set<Buffer>, live: set<Buffer>, carved: nat,
                 shmReserved: nat, userAllocTot: nat, b: Buffer)
    requires Pool(regions, free, live, carved, shmReserved, userAllocTot) && b in live
    ensures userAllocTot >= b.classSize
    ensures Pool(regions, free + {b}, live - {b}, carved, shmReserved, userAllocTot - b.classSize)
  {
    BytesAdd(free, b);
    BytesRemove(live, b);
    assert free + {b} + (live - {b}) == free + live;
  }

  // -------------------------------------------------------------------------
  // Splitting and carving
  // -------------------------------------------------------------------------

  /** Half of a placed buffer is placed, at a multiple of its own size. */
  lemma HalfInside(b: Buffer, r: Region, h: nat, x: nat)
    requires Inside(b, r) && h > 0 && b.classSize == 2 * h && (x == b.buf || x == b.buf + h)
    ensures Inside(Buffer(x, h), r)
  {
    var q := (b.buf - r.buf) / b.classSize;
    assert b.buf - r.buf == q * b.classSize == (2 * q) * h;
    if x == b.buf {
      DivModUnique(x - r.buf, h, 2 * q, 0);
    } else {
      assert (2 * q + 1) * h == 2 * q * h + h;
      DivModUnique(x - r.buf, h, 2 * q + 1, 0);
    }
  }

  /** Replacing a buffer by its two halves keeps all buffers disjoint and placed. */
  lemma HalvesOk(regions: seq<Region>, s: set<Buffer>, b: Buffer, c: nat, b0: Buffer, b1: Buffer)
    requires BlocksOk(regions, s) && b in s && 1 <= c < NUM_CLASSES && b.classSize == ClassMaxSize(c)
    requires b0 == Buffer(b.buf, b.classSize / 2) && b1 == Buffer(b.buf + b.classSize / 2, b.classSize / 2)
    ensures b0.classSize == b1.classSize == ClassMaxSize(c - 1) && b.classSize == 2 * ClassMaxSize(c - 1)
    ensures b0 !in s && b1 !in s && b0 != b1
    ensures BlocksOk(regions, s - {b} + {b0} + {b1})
  {
    var h := ClassMaxSize(c - 1);
    assert b.classSize == 2 * h;
    var k :| 0 <= k < |regions| && Inside(b, regions[k]);
    HalfInside(b, regions[k], h, b0.buf);
    HalfInside(b, regions[k], h, b1.buf);
    assert Placed(b0, regions) && Placed(b1, regions);
    forall x | x in s && x != b ensures Disjoint(x, b0) && Disjoint(x, b1) && x.classSize > 0 {
      assert Disjoint(x, b) && Placed(x, regions);
    }
  }

  lemma SplitPool(regions: seq<Region>, free: set<Buffer>, live: set<Buffer>, carved: nat,
                  shmReserved: nat, userAllocTot: nat, b: Buffer, c: nat, b0: Buffer, b1: Buffer)
    requires Pool(regions, free, live, carved, shmReserved, userAllocTot)
    requires b in free && 1 <= c < NUM_CLASSES && b.classSize == ClassMaxSize(c)
    requires b0 == Buffer(b.buf, b.classSize / 2) && b1 == Buffer(b.buf + b.classSize / 2, b.classSize / 2)
    ensures b0.classSize == b1.classSize == ClassMaxSize(c - 1) && b0 !in free && b1 !in free && b0 != b1
    ensures Pool(regions, free - {b} + {b0} + {b1}, live, carved, shmReserved, userAllocTot)
  {
    HalvesOk(regions, free + live, b, c, b0, b1);
    SplitBytes(free, b, b0, b1);
    SplitUnion(free, live, b, b0, b1);
  }

  lemma SplitBytes(free: set<Buffer>, b: Buffer, b0: Buffer, b1: Buffer)
    requires b in free && b0 !in free && b1 !in free && b0 != b1 && b.classSize == b0.classSize + b1.classSize
    ensures Bytes(free - {b} + {b0} + {b1}) == Bytes(free)
  {
    BytesRemove(free, b);
    BytesAdd(free - {b}, b0);
    BytesAdd(free - {b} + {b0}, b1);
  }

  lemma SplitUnion(free: set<Buffer>, live: set<Buffer>, b: Buffer, b0: Buffer, b1: Buffer)
    requires free !! live && b in free && b0 !in live && b1 !in live
    ensures free - {b} + {b0} + {b1} + live == free + live - {b} + {b0} + {b1}
    ensures free - {b} + {b0} + {b1} !! live
  {
  }

  /** Splitting a buffer of class `c` into two of class `c - 1` conserves bytes. */
  lemma SplitKeeps(regions: seq<Region>, lists: seq<seq<Buffer>>, live: set<Buffer>, carved: nat,
                   shmReserved: nat, userAllocTot: nat, c: nat, b: Buffer, b0: Buffer, b1: Buffer)
    requires Sound(regions, lists, live, carved, shmReserved, userAllocTot)
    requires 1 <= c < NUM_CLASSES && |lists[c]| > 0 && b == lists[c][|lists[c]| - 1]
    requires b0 == Buffer(b.buf, b.classSize / 2) && b1 == Buffer(b.buf + b.classSize / 2, b.classSize / 2)
    ensures Sound(regions, Push(Push(Pop(lists, c), c - 1, b0), c - 1, b1), live, carved, shmReserved, userAllocTot)
  {
    PopSet(lists, c);
    SplitPool(regions, FreeSet(lists), live, carved, shmReserved, userAllocTot, b, c, b0, b1);
    SplitLists(lists, c, b, b0, b1);
  }

  lemma SplitLists(lists: seq<seq<Buffer>>, c: nat, b: Buffer, b0: Buffer, b1: Buffer)
    requires Lists(lists) && 1 <= c < NUM_CLASSES && |lists[c]| > 0 && b == lists[c][|lists[c]| - 1]
    requires b0.classSize == b1.classSize == ClassMaxSize(c - 1)
    requires b0 !in FreeSet(lists) && b1 !in FreeSet(lists) && b0 != b1
    ensures Lists(Push(Push(Pop(lists, c), c - 1, b0), c - 1, b1))
    ensures FreeSet(Push(Push(Pop(lists, c), c - 1, b0), c - 1, b1)) == FreeSet(lists) - {b} + {b0} + {b1}
  {
    PopSet(lists, c);
    PushSet(Pop(lists, c), c - 1, b0);
    PushSet(Push(Pop(lists, c), c - 1, b0), c - 1, b1);
  }

  lemma CarvePool(regions: seq<Region>, free: set<Buffer>, live: set<Buffer>, carved: nat,
                  shmReserved: nat, userAllocTot: nat, b: Buffer)
    requires Pool(regions, free, live, carved, shmReserved, userAllocTot)
    requires Placed(b, regions) && HasClass(b) && b.classSize == MAX_CLASS_SIZE
    requires forall x :: x in free + live ==> Disjoint(x, b)
    requires MAX_CLASS_SIZE * (carved + 1) <= shmReserved
    ensures b !in free && Pool(regions, free + {b}, live, carved + 1, shmReserved, userAllocTot)
  {
    assert !Disjoint(b, b);
    assert b !in free + live;
    BytesAdd(free, b);
    assert free + {b} + live == free + live + {b};
  }

  /** Adding a fresh buffer of the largest class. */
  lemma CarveKeeps(regions: seq<Region>, lists: seq<seq<Buffer>>, live: set<Buffer>, carved: nat,
                   shmReserved: nat, userAllocTot: nat, b: Buffer)
    requires Sound(regions, lists, live, carved, shmReserved, userAllocTot)
    requires Placed(b, regions) && b.classSize == MAX_CLASS_SIZE
    requires forall x :: x in FreeSet(lists) + live ==> Disjoint(x, b)
    requires MAX_CLASS_SIZE * (carved + 1) <= shmReserved
    ensures Sound(regions, Push(lists, NUM_CLASSES - 1, b), live, carved + 1, shmReserved, userAllocTot)
    ensures FreeSet(Push(lists, NUM_CLASSES - 1, b)) == FreeSet(lists) + {b}
  {
    LargestClass();
    assert HasClass(b);
    CarvePool(regions, FreeSet(lists), live, carved, shmReserved, userAllocTot, b);
    PushSet(lists, NUM_CLASSES - 1, b);
  }

  /** The buffers that come from other regions, or from this region below its first `i` buffers. */
  ghost predicate Below(s: set<Buffer>, others: seq<Region>, r: Region, i: nat)
  {
    forall b :: b in s ==> Placed(b, others) || (r.buf <= b.buf && b.buf + b.classSize <= r.buf + i * MAX_CLASS_SIZE)
  }

  ghost predicate FreshRegion(regions: seq<Region>, r: Region)
  {
    forall k :: 0 <= k < |regions| ==> RegionsDisjoint(regions[k], r)
  }

  /** The next buffer carved from a fresh region overlaps no other. */
  lemma NextCarved(s: set<Buffer>, others: seq<Region>, r: Region, i: nat, num: nat)
    requires Below(s, others, r, i) && FreshRegion(others, r) && i < num && num * MAX_CLASS_SIZE <= r.size
    ensures var b := Buffer(r.buf + i * MAX_CLASS_SIZE, MAX_CLASS_SIZE);
            Inside(b, r) && (forall x :: x in s ==> Disjoint(x, b)) && Below(s + {b}, others, r, i + 1)
  {
    var b := Buffer(r.buf + i * MAX_CLASS_SIZE, MAX_CLASS_SIZE);
    DivModUnique(i * MAX_CLASS_SIZE, MAX_CLASS_SIZE, i, 0);
    forall x | x in s ensures Disjoint(x, b) {
      if Placed(x, others) {
        var k :| 0 <= k < |others| && Inside(x, others[k]);
        assert RegionsDisjoint(others[k], r);
      }
    }
  }

  /** Recording a fresh region. */
  lemma RegionKeeps(regions: seq<Region>, lists: seq<seq<Buffer>>, live: set<Buffer>, carved: nat,
                    shmReserved: nat, userAllocTot: nat, r: Region)
    requires Sound(regions, lists, live, carved, shmReserved, userAllocTot) && FreshRegion(regions, r)
    requires r.size % Pow2(HUGEPAGE_BITS) == 0
    ensures Sound(regions + [r], lists, live, carved, shmReserved + r.size, userAllocTot)
    ensures Below(FreeSet(lists) + live, regions, r, 0)
  {
    OneMoreRegion(regions, r);
    forall b | b in FreeSet(lists) + live ensures Placed(b, regions + [r]) {
      StillPlaced(b, regions, r);
    }
  }

  lemma OneMoreRegion(regions: seq<Region>, r: Region)
    requires RegionsOk(regions) && FreshRegion(regions, r) && r.size % Pow2(HUGEPAGE_BITS) == 0
    ensures RegionsOk(regions + [r]) && Reserved(regions + [r]) == Reserved(regions) + r.size
  {
    assert (regions + [r])[..|regions|] == regions;
  }

  lemma StillPlaced(b: Buffer, regions: seq<Region>, r: Region)
    requires Placed(b, regions)
    ensures Placed(b, regions + [r])
  {
    var k :| 0 <= k < |regions| && Inside(b, regions[k]);
    assert (regions + [r])[k] == regions[k];
  }

  // -------------------------------------------------------------------------
  // The allocator
  // -------------------------------------------------------------------------

  /** What the operating system answers to a request for a shared-memory region. */
  datatype Shm = Fresh(buf: nat) | OutOfMemory | Catastrophic

  datatype Outcome = Ok(buffer: Buffer) | Null | Throws

  /** Some class from `c` on has a free buffer. */
  predicate HasRoom(lists: seq<seq<Buffer>>, c: nat)
  {
    exists d :: c <= d < |lists| && |lists[d]| > 0
  }

  /** The first class from `c` on with a free buffer. */
  method FirstClass(lists: seq<seq<Buffer>>, c: nat) returns (next: nat)
    requires c <= |lists|
    ensures c <= next <= |lists| && (forall d :: c <= d < next ==> |lists[d]| == 0)
    ensures next < |lists| ==> |lists[next]| > 0
    ensures next == |lists| <==> !HasRoom(lists, c)
  {
    next := c;
    while next < |lists|
      invariant c <= next <= |lists| && forall d :: c <= d < next ==> |lists[d]| == 0
    {
      if |lists[next]| > 0 { return; }
      next := next + 1;
    }
  }

  /** Carving the next buffer keeps the invariant and the order of the carved buffers. */
  lemma CarveStep(regions: seq<Region>, lists: seq<seq<Buffer>>, live: set<Buffer>, carved: nat, shmReserved: nat,
                  userAllocTot: nat, others: seq<Region>, r: Region, i: nat, num: nat, b: Buffer)
    requires Sound(regions, lists, live, carved, shmReserved, userAllocTot)
    requires regions == others + [r] && FreshRegion(others, r)
    requires b == Buffer(r.buf + i * MAX_CLASS_SIZE, MAX_CLASS_SIZE)
    requires Below(FreeSet(lists) + live, others, r, i) && i < num && num * MAX_CLASS_SIZE <= r.size
    requires MAX_CLASS_SIZE * (carved + 1) <= shmReserved
    ensures Sound(regions, Push(lists, NUM_CLASSES - 1, b), live, carved + 1, shmReserved, userAllocTot)
    ensures Below(FreeSet(Push(lists, NUM_CLASSES - 1, b)) + live, others, r, i + 1)
  {
    NextCarved(FreeSet(lists) + live, others, r, i, num);
    assert Placed(b, regions) by { assert regions[|others|] == r; }
    CarveKeeps(regions, lists, live, carved, shmReserved, userAllocTot, b);
    assert FreeSet(lists) + {b} + live == FreeSet(lists) + live + {b};
  }

  /** A live buffer belongs to the class that its size asks for. */
  lemma LiveClass(regions: seq<Region>, lists: seq<seq<Buffer>>, live: set<Buffer>, carved: nat,
                  shmReserved: nat, userAllocTot: nat, b: Buffer)
    requires Sound(regions, lists, live, carved, shmReserved, userAllocTot) && b in live
    ensures HasClass(b) && 1 <= b.classSize <= MAX_CLASS_SIZE
    ensures b.classSize == ClassMaxSize(GetClass(b.classSize))
  {
    var k :| 0 <= k < NUM_CLASSES && b.classSize == ClassMaxSize(k);
    ClassOfClassSize(k);
  }

  lemma DoubledSize(size: nat)
    requires size >= MAX_CLASS_SIZE
    ensures size * 2 / 2 == size && size * 2 / MAX_CLASS_SIZE >= 1
  {
  }

  class Allocator {
    var shmList: seq<Region>
    var freelist: seq<seq<Buffer>>
    var prevAllocationSize: nat
    var shmReserved: nat
    var userAllocTot: nat
    ghost var live: set<Buffer>
    ghost var carved: nat

    ghost predicate Valid()
      reads this
    {
      prevAllocationSize >= MAX_CLASS_SIZE && Sound(shmList, freelist, live, carved, shmReserved, userAllocTot)
    }

    constructor (initialSize: nat)
      ensures Valid() && live == {} && carved == 0 && shmList == [] && shmReserved == userAllocTot == 0
      ensures prevAllocationSize == if initialSize < MAX_CLASS_SIZE then MAX_CLASS_SIZE else initialSize
    {
      shmList, freelist, shmReserved, userAllocTot := [], seq(NUM_CLASSES, _ => []), 0, 0;
      prevAllocationSize := if initialSize < MAX_CLASS_SIZE then MAX_CLASS_SIZE else initialSize;
      live, carved := {}, 0;
      new;
      assert FreeSet(freelist) == {};
    }

    /** A region outside the freelists. */
    method AllocRaw(size: nat, os: Shm) returns (o: Outcome)
      requires Valid() && (os.Fresh? ==> FreshRegion(shmList, Region(os.buf, RoundUp(size, HUGEPAGE_BITS))))
      modifies this`shmList, this`shmReserved
      ensures Valid()
      ensures os.Fresh? <==> o.Ok?
      ensures os.OutOfMemory? <==> o.Null?
      ensures o.Ok? ==> o.buffer == Buffer(os.buf, SIZE_MAX)
      ensures o.Ok? ==> shmList == old(shmList) + [Region(os.buf, RoundUp(size, HUGEPAGE_BITS))]
      ensures o.Ok? ==> Below(FreeSet(freelist) + live, old(shmList), shmList[|shmList| - 1], 0)
      ensures shmReserved == old(shmReserved) + if o.Ok? then RoundUp(size, HUGEPAGE_BITS) else 0
      ensures !o.Ok? ==> shmList == old(shmList)
    {
      if os.OutOfMemory? { return Null; }
      if os.Catastrophic? { return Throws; }
      var r := Region(os.buf, RoundUp(size, HUGEPAGE_BITS));
      RegionKeeps(shmList, freelist, live, carved, shmReserved, userAllocTot, r);
      shmList := shmList + [r];
      shmReserved := shmReserved + r.size;
      return Ok(Buffer(os.buf, SIZE_MAX));
    }

    /** Reserving hugepages fills the largest class and touches nothing else. */
    method ReserveHugepages(size: nat, os: Shm) returns (o: Outcome)
      requires Valid() && size >= MAX_CLASS_SIZE
      requires os.Fresh? ==> FreshRegion(shmList, Region(os.buf, RoundUp(size, HUGEPAGE_BITS)))
      modifies this`shmList, this`shmReserved, this`freelist, this`carved
      ensures Valid()
      ensures os.Fresh? <==> o.Ok?
      ensures os.OutOfMemory? <==> o.Null?
      ensures !o.Ok? ==> unchanged(this)
      ensures o.Ok? ==> shmReserved == old(shmReserved) + RoundUp(size, HUGEPAGE_BITS)
      ensures o.Ok? ==> |freelist[NUM_CLASSES - 1]| == |old(freelist)[NUM_CLASSES - 1]| + size / MAX_CLASS_SIZE
      ensures forall c :: 0 <= c < NUM_CLASSES - 1 ==> freelist[c] == old(freelist)[c]
    {
      o := AllocRaw(size, os);
      if o.Ok? {
        CarveAll(o.buffer.buf, size / MAX_CLASS_SIZE, old(shmList), shmList[|shmList| - 1]);
      }
    }

    method CarveAll(buf: nat, num: nat, ghost others: seq<Region>, ghost r: Region)
      requires Sound(shmList, freelist, live, carved, shmReserved, userAllocTot)
      requires buf == r.buf && shmList == others + [r] && FreshRegion(others, r)
      requires Below(FreeSet(freelist) + live, others, r, 0) && num * MAX_CLASS_SIZE <= r.size
      requires MAX_CLASS_SIZE * (carved + num) <= shmReserved
      modifies this`freelist, this`carved
      ensures Sound(shmList, freelist, live, carved, shmReserved, userAllocTot)
      ensures |freelist[NUM_CLASSES - 1]| == |old(freelist)[NUM_CLASSES - 1]| + num
      ensures forall c :: 0 <= c < NUM_CLASSES - 1 ==> freelist[c] == old(freelist)[c]
    {
      var i := 0;
      while i < num
        invariant 0 <= i <= num && carved == old(carved) + i
        invariant Sound(shmList, freelist, live, carved, shmReserved, userAllocTot)
        invariant Below(FreeSet(freelist) + live, others, r, i)
        invariant |freelist[NUM_CLASSES - 1]| == |old(freelist)[NUM_CLASSES - 1]| + i
        invariant forall c :: 0 <= c < NUM_CLASSES - 1 ==> freelist[c] == old(freelist)[c]
      {
        CarveNext(buf, i, others, r, num);
        i := i + 1;
      }
    }

    /** One more buffer of the largest class from a fresh region. */
    method CarveNext(buf: nat, i: nat, ghost others: seq<Region>, ghost r: Region, ghost num: nat)
      requires Sound(shmList, freelist, live, carved, shmReserved, userAllocTot)
      requires buf == r.buf && shmList == others + [r] && FreshRegion(others, r)
      requires Below(FreeSet(freelist) + live, others, r, i) && i < num && num * MAX_CLASS_SIZE <= r.size
      requires MAX_CLASS_SIZE * (carved + 1) <= shmReserved
      modifies this`freelist, this`carved
      ensures Sound(shmList, freelist, live, carved, shmReserved, userAllocTot)
      ensures Below(FreeSet(freelist) + live, others, r, i + 1) && carved == old(carved) + 1
      ensures freelist == Push(old(freelist), NUM_CLASSES - 1, Buffer(buf + i * MAX_CLASS_SIZE, MAX_CLASS_SIZE))
    {
      var b := Buffer(buf + i * MAX_CLASS_SIZE, MAX_CLASS_SIZE);
      CarveStep(shmList, freelist, live, carved, shmReserved, userAllocTot, others, r, i, num, b);
      freelist := Push(freelist, NUM_CLASSES - 1, b);
      carved := carved + 1;
    }

    /** One buffer of a class becomes two of the class below, which must be empty. */
    method Split(c: nat)
      requires Valid() && 1 <= c < NUM_CLASSES && |freelist[c]| > 0 && |freelist[c - 1]| == 0
      modifies this`freelist
      ensures Valid()
      ensures |freelist[c]| == |old(freelist)[c]| - 1 && |freelist[c - 1]| == 2
      ensures forall d :: 0 <= d < NUM_CLASSES && d != c && d != c - 1 ==> freelist[d] == old(freelist)[d]
    {
      var buffer := freelist[c][|freelist[c]| - 1];
      var b0 := Buffer(buffer.buf, buffer.classSize / 2);
      var b1 := Buffer(buffer.buf + buffer.classSize / 2, buffer.classSize / 2);
      SplitKeeps(shmList, freelist, live, carved, shmReserved, userAllocTot, c, buffer, b0, b1);
      freelist := Pop(freelist, c);
      freelist := Push(freelist, c - 1, b0);
      freelist := Push(freelist, c - 1, b1);
    }

    /** Taking the last buffer of a class; overwriting its class size changes nothing. */
    method AllocFromClass(c: nat) returns (buffer: Buffer)
      requires Valid() && c < NUM_CLASSES && |freelist[c]| > 0
      modifies this`freelist, this`userAllocTot, this`live
      ensures Valid()
      ensures buffer == old(freelist)[c][|old(freelist)[c]| - 1] && freelist == Pop(old(freelist), c)
      ensures buffer.classSize == ClassMaxSize(c)
      ensures buffer !in old(live) && live == old(live) + {buffer}
      ensures userAllocTot == old(userAllocTot) + buffer.classSize
    {
      TakeKeeps(shmList, freelist, live, carved, shmReserved, userAllocTot, c);
      buffer := freelist[c][|freelist[c]| - 1];
      buffer := buffer.(classSize := ClassMaxSize(c));
      freelist := Pop(freelist, c);
      userAllocTot := userAllocTot + buffer.classSize;
      live := live + {buffer};
    }

    /** Allocation: a new live buffer of the smallest class that fits, or a failure that leaves the
        allocator as it was. A throwing reservation leaves the doubled reservation size behind. */
    method Alloc(size: nat, os: Shm) returns (o: Outcome)
      requires Valid() && 1 <= size <= MAX_CLASS_SIZE
      requires os.Fresh? ==> FreshRegion(shmList, Region(os.buf, RoundUp(2 * prevAllocationSize, HUGEPAGE_BITS)))
      modifies this
      ensures Valid()
      ensures o.Ok? <==> HasRoom(old(freelist), GetClass(size)) || os.Fresh?
      ensures o.Null? <==> !HasRoom(old(freelist), GetClass(size)) && os.OutOfMemory?
      ensures o.Ok? ==> o.buffer !in old(live) && live == old(live) + {o.buffer}
      ensures o.Ok? ==> SmallestFit(size, GetClass(size)) && o.buffer.classSize == ClassMaxSize(GetClass(size))
      ensures o.Ok? ==> userAllocTot == old(userAllocTot) + o.buffer.classSize
      ensures HasRoom(old(freelist), GetClass(size)) ==> unchanged(`shmList) && unchanged(`shmReserved)
      ensures HasRoom(old(freelist), GetClass(size)) ==> unchanged(`prevAllocationSize) && carved == old(carved)
      ensures o.Null? ==> unchanged(this)
      ensures o.Throws? ==> prevAllocationSize == 2 * old(prevAllocationSize) && live == old(live)
      ensures o.Throws? ==> unchanged(`shmList) && unchanged(`freelist)
      ensures o.Throws? ==> unchanged(`shmReserved) && unchanged(`userAllocTot)
    {
      var sizeClass := GetClass(size);
      var nextClass := FirstClass(freelist, sizeClass);
      if nextClass == NUM_CLASSES {
        var reserved := Grow(os);
        if !reserved.Ok? { return reserved; }
        nextClass := NUM_CLASSES - 1;
      }
      SplitDown(nextClass, sizeClass);
      var b := AllocFromClass(sizeClass);
      return Ok(b);
    }

    /** Reserving twice as much as before. Running out of memory restores the reservation size; an
        exception does not. */
    method Grow(os: Shm) returns (o: Outcome)
      requires Valid()
      requires os.Fresh? ==> FreshRegion(shmList, Region(os.buf, RoundUp(2 * prevAllocationSize, HUGEPAGE_BITS)))
      modifies this`shmList, this`shmReserved, this`freelist, this`prevAllocationSize, this`carved
      ensures Valid()
      ensures os.Fresh? <==> o.Ok?
      ensures os.OutOfMemory? <==> o.Null?
      ensures prevAllocationSize == if o.Null? then old(prevAllocationSize) else 2 * old(prevAllocationSize)
      ensures !o.Ok? ==> unchanged(`shmList) && unchanged(`shmReserved) && unchanged(`freelist) && unchanged(`carved)
      ensures o.Ok? ==> |freelist[NUM_CLASSES - 1]| > |old(freelist)[NUM_CLASSES - 1]|
      ensures forall c :: 0 <= c < NUM_CLASSES - 1 ==> freelist[c] == old(freelist)[c]
    {
      DoubledSize(prevAllocationSize);
      prevAllocationSize := prevAllocationSize * 2;
      o := ReserveHugepages(prevAllocationSize, os);
      if o.Null? {
        prevAllocationSize := prevAllocationSize / 2;
      }
    }

    /** Splitting from a class with free buffers down to the wanted class: each split finds the class
        below it empty. */
    method SplitDown(from: nat, sizeClass: nat)
      requires Valid() && sizeClass <= from < NUM_CLASSES && |freelist[from]| > 0
      requires forall c :: sizeClass <= c < from ==> |freelist[c]| == 0
      modifies this`freelist
      ensures Valid() && |freelist[sizeClass]| > 0
    {
      var nextClass := from;
      while nextClass != sizeClass
        invariant Valid() && sizeClass <= nextClass < NUM_CLASSES && |freelist[nextClass]| > 0
        invariant forall c :: sizeClass <= c < nextClass ==> |freelist[c]| == 0
        decreases nextClass
      {
        Split(nextClass);
        nextClass := nextClass - 1;
      }
    }

    /** Freeing a live buffer returns it to its class. */
    method FreeBuf(buffer: Buffer)
      requires Valid() && buffer in live
      modifies this`freelist, this`userAllocTot, this`live
      ensures Valid() && live == old(live) - {buffer}
      ensures userAllocTot == old(userAllocTot) - buffer.classSize
      ensures HasClass(buffer) && 1 <= buffer.classSize <= MAX_CLASS_SIZE
      ensures freelist == Push(old(freelist), GetClass(buffer.classSize), buffer)
    {
      LiveClass(shmList, freelist, live, carved, shmReserved, userAllocTot, buffer);
      var sizeClass := GetClass(buffer.classSize);
      FreeKeeps(shmList, freelist, live, carved, shmReserved, userAllocTot, buffer, sizeClass);
      freelist := Push(freelist, sizeClass, buffer);
      userAllocTot := userAllocTot - buffer.classSize;
      live := live - {buffer};
    }

    /** The statistics getters' own assertions hold. */
    lemma StatsAreMultiples()
      requires Valid()
      ensures userAllocTot % MIN_CLASS_SIZE == 0 && shmReserved % Pow2(HUGEPAGE_BITS) == 0
    {
      BytesMultiple(live);
      ReservedMultiple(shmList, Pow2(HUGEPAGE_BITS));
    }
  }

  lemma MultipleAdd(x: nat, y: nat, n: nat)
    requires n > 0 && x % n == 0 && y % n == 0
    ensures (x + y) % n == 0
  {
    var p, q := x / n, y / n;
    assert x == p * n && y == q * n;
    assert (p + q) * n == p * n + q * n;
    DivModUnique(x + y, n, p + q, 0);
  }

  lemma ClassMultiple(b: Buffer)
    requires HasClass(b)
    ensures b.classSize % MIN_CLASS_SIZE == 0
  {
    var c :| 0 <= c < NUM_CLASSES && b.classSize == ClassMaxSize(c);
    DivModUnique(b.classSize, MIN_CLASS_SIZE, Pow2(c), 0);
  }

  lemma {:induction false} ReservedMultiple(regions: seq<Region>, n: nat)
    requires n > 0 && forall k :: 0 <= k < |regions| ==> regions[k].size % n == 0
    ensures Reserved(regions) % n == 0
  {
    if |regions| > 0 {
      var front, size := regions[..|regions| - 1], regions[|regions| - 1].size;
      ReservedMultiple(front, n);
      MultipleAdd(Reserved(front), size, n);
    }
  }

  lemma {:induction false} BytesMultiple(s: set<Buffer>)
    requires forall b :: b in s ==> HasClass(b)
    ensures Bytes(s) % MIN_CLASS_SIZE == 0
    decreases |s|
  {
    if s != {} {
      var b :| b in s;
      BytesRemove(s, b);
      BytesMultiple(s - {b});
      ClassMultiple(b);
      MultipleAdd(b.classSize, Bytes(s - {b}), MIN_CLASS_SIZE);
    }
  }
}
