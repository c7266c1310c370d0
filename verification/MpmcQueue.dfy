/** The bounded multi-producer multi-consumer queue as a state machine.

    Every atomic load, store and compare-and-swap is one step of one thread, and so is
    the move of the payload into or out of a cell; steps of any number of threads
    interleave arbitrarily. `compare_exchange_weak` may fail spuriously. Positions are
    unbounded naturals and steps are sequentially consistent. */
module MpmcQueue {
  import opened Bits
  import opened Common

  type Tid = nat

  datatype Cell<T> = Cell(seqno: nat, data: T)

  /** Where a thread stands inside `enqueue`, `dequeue` or `approx_size`. */
  datatype Pc<T> =
    | Idle
    | EnqLoad(item: T)                // about to load enqueue_pos_
    | EnqSeq(item: T, pos: nat)       // about to load the cell's sequence
    | EnqCas(item: T, pos: nat)       // saw dif == 0, about to compare-and-swap
    | EnqWrite(item: T, pos: nat)     // owns ticket pos, about to move the item in
    | EnqPublish(item: T, pos: nat)   // about to store sequence pos + 1
    | EnqDone(item: T, pos: nat)      // returns true
    | EnqFailed(item: T)              // returns false
    | DeqLoad
    | DeqSeq(pos: nat)
    | DeqCas(pos: nat)
    | DeqRead(pos: nat)               // owns ticket pos, about to move the item out
    | DeqRelease(pos: nat, item: T)   // about to store sequence pos + capacity
    | DeqDone(pos: nat, item: T)      // returns true
    | DeqFailed                       // returns false
    | SizeFirst
    | SizeLast(first: nat)
    | SizeDone(size: nat, first: nat, last: nat)

  /** `log` is an auxiliary history: `log[p]` is the item of the thread that won enqueue
      ticket `p`. No step reads it. */
  datatype State<T> = State(
    cells: seq<Cell<T>>,
    enqPos: nat,
    deqPos: nat,
    threads: map<Tid, Pc<T>>,
    log: seq<T>)
  {
    function Cap(): nat { |cells| }

    function At(pos: nat): nat
      requires |cells| > 0
    {
      pos % |cells|
    }
  }

  /** What the scheduler picks for a thread: start a call, run its next atomic step, let
      the compare-and-swap fail spuriously, or leave a finished call. `MoveOut(husk)` is
      the move out of a cell, which leaves some unspecified value `husk` behind. */
  datatype Choice<T> =
    | CallEnqueue(item: T)
    | CallDequeue
    | CallApproxSize
    | Run
    | CasFail
    | MoveOut(husk: T)
    | Leave

  // ---------------------------------------------------------------- construction

  /** The constructor: throws unless the size is a power of two of at least 2. */
  function Create<T>(bufferSize: nat, blank: T, tids: set<Tid>): (r: Option<State<T>>)
  {
    if bufferSize >= 2 && And(bufferSize, bufferSize - 1) == 0 then
      Some(Fresh(bufferSize, blank, tids))
    else
      None
  }

  function Fresh<T>(bufferSize: nat, blank: T, tids: set<Tid>): State<T>
  {
    State(seq(bufferSize, (i: nat) => Cell(i, blank)), 0, 0, map t | t in tids :: Idle, [])
  }

  /** The constructor accepts exactly the powers of two from 2 on, and for those the mask
      `pos & buffer_mask_` picks the cell `pos` modulo the capacity. */
  lemma CreateAccepts<T>(bufferSize: nat, blank: T, tids: set<Tid>, pos: nat)
    ensures Create(bufferSize, blank, tids).Some? <==> bufferSize >= 2 && IsPow2(bufferSize)
    ensures Create(bufferSize, blank, tids).Some?
            ==> And(pos, bufferSize - 1) == Create(bufferSize, blank, tids).value.At(pos)
  {
    if bufferSize >= 2 {
      PowerOfTwoIff(bufferSize);
      if k: nat :| bufferSize == Pow2(k) {
        AndMask(pos, k);
      }
    }
  }

  // ---------------------------------------------------------------- steps

  function SetPc<T>(s: State<T>, t: Tid, pc: Pc<T>): State<T>
  {
    s.(threads := s.threads[t := pc])
  }

  function SetCell<T>(s: State<T>, i: nat, c: Cell<T>): State<T>
    requires i < |s.cells|
  {
    s.(cells := s.cells[i := c])
  }

  function StepEnqueue<T>(s: State<T>, t: Tid, pc: Pc<T>, c: Choice<T>): Option<State<T>>
    requires |s.cells| > 0
  {
    match (pc, c)
    case (EnqLoad(item), Run) => Some(SetPc(s, t, EnqSeq(item, s.enqPos)))
    case (EnqSeq(item, pos), Run) =>
      var n := s.cells[s.At(pos)].seqno;
      if n == pos then Some(SetPc(s, t, EnqCas(item, pos)))
      else if n < pos then Some(SetPc(s, t, EnqFailed(item)))
      else Some(SetPc(s, t, EnqLoad(item)))
    case (EnqCas(item, pos), Run) =>
      if s.enqPos == pos then
        Some(SetPc(s, t, EnqWrite(item, pos)).(enqPos := pos + 1, log := s.log + [item]))
      else
        Some(SetPc(s, t, EnqSeq(item, s.enqPos)))
    case (EnqCas(item, pos), CasFail) => Some(SetPc(s, t, EnqSeq(item, s.enqPos)))
    case (EnqWrite(item, pos), Run) =>
      var i := s.At(pos);
      Some(SetPc(SetCell(s, i, s.cells[i].(data := item)), t, EnqPublish(item, pos)))
    case (EnqPublish(item, pos), Run) =>
      var i := s.At(pos);
      Some(SetPc(SetCell(s, i, s.cells[i].(seqno := pos + 1)), t, EnqDone(item, pos)))
    case _ => None
  }

  function StepDequeue<T>(s: State<T>, t: Tid, pc: Pc<T>, c: Choice<T>): Option<State<T>>
    requires |s.cells| > 0
  {
    match (pc, c)
    case (DeqLoad, Run) => Some(SetPc(s, t, DeqSeq(s.deqPos)))
    case (DeqSeq(pos), Run) =>
      var n := s.cells[s.At(pos)].seqno;
      if n == pos + 1 then Some(SetPc(s, t, DeqCas(pos)))
      else if n < pos + 1 then Some(SetPc(s, t, DeqFailed))
      else Some(SetPc(s, t, DeqLoad))
    case (DeqCas(pos), Run) =>
      if s.deqPos == pos then
        Some(SetPc(s, t, DeqRead(pos)).(deqPos := pos + 1))
      else
        Some(SetPc(s, t, DeqSeq(s.deqPos)))
    case (DeqCas(pos), CasFail) => Some(SetPc(s, t, DeqSeq(s.deqPos)))
    case (DeqRead(pos), MoveOut(husk)) =>
      var i := s.At(pos);
      Some(SetPc(SetCell(s, i, s.cells[i].(data := husk)), t, DeqRelease(pos, s.cells[i].data)))
    case (DeqRelease(pos, item), Run) =>
      var i := s.At(pos);
      Some(SetPc(SetCell(s, i, s.cells[i].(seqno := pos + s.Cap())), t, DeqDone(pos, item)))
    case _ => None
  }

  function StepSize<T>(s: State<T>, t: Tid, pc: Pc<T>, c: Choice<T>): Option<State<T>>
  {
    match (pc, c)
    case (SizeFirst, Run) => Some(SetPc(s, t, SizeLast(s.deqPos)))
    case (SizeLast(first), Run) =>
      var last := s.enqPos;
      var size := if last <= first then 0
                  else if last - first < s.Cap() then last - first else s.Cap();
      Some(SetPc(s, t, SizeDone(size, first, last)))
    case _ => None
  }

  predicate Finished<T>(pc: Pc<T>)
  {
    pc.EnqDone? || pc.EnqFailed? || pc.DeqDone? || pc.DeqFailed? || pc.SizeDone?
  }

  /** One step of thread `t`, or `None` when the choice does not apply there. */
  function Step<T>(s: State<T>, t: Tid, c: Choice<T>): Option<State<T>>
  {
    if |s.cells| == 0 || t !in s.threads then None
    else
      var pc := s.threads[t];
      match c
      case CallEnqueue(item) => if pc.Idle? then Some(SetPc(s, t, EnqLoad(item))) else None
      case CallDequeue => if pc.Idle? then Some(SetPc(s, t, DeqLoad)) else None
      case CallApproxSize => if pc.Idle? then Some(SetPc(s, t, SizeFirst)) else None
      case Leave => if Finished(pc) then Some(SetPc(s, t, Idle)) else None
      case _ =>
        var e := StepEnqueue(s, t, pc, c);
        if e.Some? then e
        else
          var d := StepDequeue(s, t, pc, c);
          if d.Some? then d else StepSize(s, t, pc, c)
  }

  type Schedule<T> = seq<(Tid, Choice<T>)>

  /** The state after a whole schedule, or `None` if some choice did not apply. */
  function Exec<T>(s: State<T>, sched: Schedule<T>): Option<State<T>>
    decreases |sched|
  {
    if sched == [] then Some(s)
    else
      var m := Step(s, sched[0].0, sched[0].1);
      if m.None? then None else Exec(m.value, sched[1..])
  }

  // ---------------------------------------------------------------- invariant

  /** The program points between winning an enqueue ticket and publishing it. */
  predicate EnqOwner<T>(pc: Pc<T>) { pc.EnqWrite? || pc.EnqPublish? }

  /** The program points between winning a dequeue ticket and releasing it. */
  predicate DeqOwner<T>(pc: Pc<T>) { pc.DeqRead? || pc.DeqRelease? }

  ghost predicate EnqHolds<T>(s: State<T>, t: Tid, pos: nat)
  {
    t in s.threads && EnqOwner(s.threads[t]) && s.threads[t].pos == pos
  }

  ghost predicate DeqHolds<T>(s: State<T>, t: Tid, pos: nat)
  {
    t in s.threads && DeqOwner(s.threads[t]) && s.threads[t].pos == pos
  }

  /** Two program points that would share an enqueue ticket or a dequeue ticket. */
  predicate Clash<T>(a: Pc<T>, b: Pc<T>)
  {
    || (EnqOwner(a) && EnqOwner(b) && a.pos == b.pos)
    || ((DeqOwner(a) || a.DeqDone?) && (DeqOwner(b) || b.DeqDone?) && a.pos == b.pos)
  }

  ghost predicate EnqHeld<T>(s: State<T>, pos: nat)
  {
    exists t :: EnqHolds(s, t, pos)
  }

  ghost predicate DeqHeld<T>(s: State<T>, pos: nat)
  {
    exists t :: DeqHolds(s, t, pos)
  }

  ghost predicate Shape<T>(s: State<T>)
  {
    && |s.cells| >= 2
    && s.deqPos <= s.enqPos <= s.deqPos + |s.cells|
    && |s.log| == s.enqPos
  }

  /** Cell `i` waits for enqueue ticket `seqno`, not yet issued or still being written. */
  ghost predicate Free<T>(s: State<T>, i: nat)
    requires Shape(s) && i < |s.cells|
  {
    var n := s.cells[i].seqno;
    && n % |s.cells| == i
    && s.deqPos <= n < s.deqPos + |s.cells|
    && s.enqPos <= n + |s.cells|
    && (n < s.enqPos ==> EnqHeld(s, n))
  }

  /** Cell `i` holds the item of ticket `seqno - 1`, not yet issued to a consumer or still
      being read. */
  ghost predicate Published<T>(s: State<T>, i: nat)
    requires Shape(s) && i < |s.cells|
  {
    var n := s.cells[i].seqno;
    && n >= 1
    && (n - 1) % |s.cells| == i
    && n - 1 < s.enqPos <= n - 1 + |s.cells|
    && (s.deqPos <= n - 1 ==> s.cells[i].data == s.log[n - 1])
    && (n - 1 < s.deqPos ==> DeqHeld(s, n - 1))
  }

  ghost predicate CellsOk<T>(s: State<T>)
    requires Shape(s)
  {
    forall i :: 0 <= i < |s.cells| ==> Free(s, i) || Published(s, i)
  }

  ghost predicate ThreadOk<T>(s: State<T>, t: Tid)
    requires Shape(s) && t in s.threads
  {
    match s.threads[t]
    case EnqSeq(_, pos) => pos <= s.enqPos
    case EnqCas(_, pos) =>
      pos < s.enqPos || (pos == s.enqPos && s.cells[s.At(pos)].seqno == pos)
    case EnqWrite(item, pos) =>
      pos < s.enqPos && s.cells[s.At(pos)].seqno == pos && s.log[pos] == item
    case EnqPublish(item, pos) =>
      && pos < s.enqPos && s.cells[s.At(pos)].seqno == pos && s.log[pos] == item
      && s.cells[s.At(pos)].data == item
    case EnqDone(item, pos) => pos < s.enqPos && s.log[pos] == item
    case DeqSeq(pos) => pos <= s.deqPos
    case DeqCas(pos) =>
      pos < s.deqPos || (pos == s.deqPos && s.cells[s.At(pos)].seqno == pos + 1)
    case DeqRead(pos) =>
      && pos < s.deqPos && s.cells[s.At(pos)].seqno == pos + 1
      && s.cells[s.At(pos)].data == s.log[pos]
    case DeqRelease(pos, item) =>
      pos < s.deqPos && s.cells[s.At(pos)].seqno == pos + 1 && s.log[pos] == item
    case DeqDone(pos, item) => pos < s.deqPos && s.log[pos] == item
    case SizeLast(first) => first <= s.deqPos
    case SizeDone(_, first, last) => first <= s.deqPos && last <= s.enqPos
    case _ => true
  }

  ghost predicate ThreadsOk<T>(s: State<T>)
    requires Shape(s)
  {
    forall t :: t in s.threads ==> ThreadOk(s, t)
  }

  ghost predicate Unique<T>(s: State<T>)
  {
    forall t, u :: t in s.threads && u in s.threads && t != u ==> !Clash(s.threads[t], s.threads[u])
  }

  ghost predicate Inv<T>(s: State<T>)
  {
    Shape(s) && CellsOk(s) && ThreadsOk(s) && Unique(s)
  }

  // ---------------------------------------------------------------- preservation

  lemma FreshOk<T>(bufferSize: nat, blank: T, tids: set<Tid>)
    requires bufferSize >= 2
    ensures Inv(Fresh(bufferSize, blank, tids))
  {
    var s := Fresh(bufferSize, blank, tids);
    forall i | 0 <= i < |s.cells| ensures Free(s, i) {
      DivModUnique(i, bufferSize, 0, i);
    }
  }

  /** A cell whose contents and whose owner, if it needs one, are unchanged. */
  lemma FrameCell<T>(s: State<T>, s': State<T>, i: nat)
    requires Shape(s) && Shape(s') && i < |s.cells| == |s'.cells| && s'.cells[i] == s.cells[i]
    requires s'.enqPos == s.enqPos && s'.deqPos == s.deqPos && s'.log == s.log
    requires Free(s, i) || Published(s, i)
    requires Free(s, i) && EnqHeld(s, s.cells[i].seqno) ==> EnqHeld(s', s.cells[i].seqno)
    requires Published(s, i) && DeqHeld(s, s.cells[i].seqno - 1) ==> DeqHeld(s', s.cells[i].seqno - 1)
    ensures Free(s', i) || Published(s', i)
  {
  }

  /** Ownership survives a step of `t` unless `t` itself gives the ticket up. */
  lemma StillHeld<T>(s: State<T>, s': State<T>, t: Tid, p: nat)
    requires t in s.threads && t in s'.threads
    requires forall u :: u in s.threads && u != t ==> u in s'.threads && s'.threads[u] == s.threads[u]
    ensures EnqHeld(s, p) && (EnqHolds(s, t, p) ==> EnqHolds(s', t, p)) ==> EnqHeld(s', p)
    ensures DeqHeld(s, p) && (DeqHolds(s, t, p) ==> DeqHolds(s', t, p)) ==> DeqHeld(s', p)
  {
    if EnqHeld(s, p) && (EnqHolds(s, t, p) ==> EnqHolds(s', t, p)) {
      var u :| EnqHolds(s, u, p);
      assert EnqHolds(s', u, p);
    }
    if DeqHeld(s, p) && (DeqHolds(s, t, p) ==> DeqHolds(s', t, p)) {
      var u :| DeqHolds(s, u, p);
      assert DeqHolds(s', u, p);
    }
  }

  lemma SetPcUnique<T>(s: State<T>, s': State<T>, t: Tid, pc: Pc<T>)
    requires Unique(s) && t in s.threads && s'.threads == s.threads[t := pc]
    requires forall u :: u in s.threads && u != t ==> !Clash(s.threads[u], pc)
    ensures Unique(s')
  {
  }

  /** Steps that change nothing but the program counter of a thread that owns no ticket
      before or after. */
  lemma PcOnly<T>(s: State<T>, t: Tid, pc: Pc<T>)
    requires Inv(s) && t in s.threads
    requires !EnqOwner(s.threads[t]) && !DeqOwner(s.threads[t])
    requires !EnqOwner(pc) && !DeqOwner(pc) && !pc.DeqDone?
    requires ThreadOk(SetPc(s, t, pc), t)
    ensures Inv(SetPc(s, t, pc))
  {
    var s' := SetPc(s, t, pc);
    forall i | 0 <= i < |s'.cells| ensures Free(s', i) || Published(s', i) {
      StillHeld(s, s', t, s.cells[i].seqno);
      if Published(s, i) { StillHeld(s, s', t, s.cells[i].seqno - 1); }
      FrameCell(s, s', i);
    }
    forall u | u in s'.threads ensures ThreadOk(s', u) {
      if u != t { assert ThreadOk(s, u); }
    }
    SetPcUnique(s, s', t, pc);
  }

  /** While `t` owns the cell of ticket `pos`, no other thread owns that cell. */
  lemma OtherOwner<T>(s: State<T>, t: Tid, u: Tid, pos: nat, q: nat)
    requires Inv(s) && t != u
    requires EnqHolds(s, t, pos) || DeqHolds(s, t, pos)
    requires EnqHolds(s, u, q) || DeqHolds(s, u, q)
    ensures s.At(q) != s.At(pos)
  {
    assert ThreadOk(s, t) && ThreadOk(s, u);
    assert !Clash(s.threads[t], s.threads[u]);
    if s.At(q) == s.At(pos) {
      if q < pos { ModDistinct(q, pos, |s.cells|); }
      if pos < q { ModDistinct(pos, q, |s.cells|); }
    }
  }

  /** A thread's condition survives a step of another thread on a cell which that other
      thread owns. */
  lemma OtherThread<T>(s: State<T>, s': State<T>, t: Tid, u: Tid, pos: nat, c: Cell<T>)
    requires Inv(s) && Shape(s') && u in s.threads && u in s'.threads && t != u
    requires s'.threads[u] == s.threads[u]
    requires EnqHolds(s, t, pos) || DeqHolds(s, t, pos)
    requires s'.cells == s.cells[s.At(pos) := c]
    requires s'.enqPos == s.enqPos && s'.deqPos == s.deqPos && s'.log == s.log
    ensures ThreadOk(s', u)
  {
    assert ThreadOk(s, u) && ThreadOk(s, t);
    var pc := s.threads[u];
    if EnqOwner(pc) || DeqOwner(pc) {
      OtherOwner(s, t, u, pos, pc.pos);
    } else if pc.EnqCas? && s.At(pc.pos) == s.At(pos) {
      if pos < pc.pos { ModDistinct(pos, pc.pos, |s.cells|); }
    } else if pc.DeqCas? && s.At(pc.pos) == s.At(pos) {
      if pc.pos < pos { ModDistinct(pc.pos, pos, |s.cells|); }
    }
  }

  /** The owner of an enqueue ticket faces a free cell, of a dequeue ticket a published one. */
  lemma OwnedCell<T>(s: State<T>, t: Tid, pos: nat)
    requires Inv(s)
    ensures EnqHolds(s, t, pos) ==> s.cells[s.At(pos)].seqno == pos && Free(s, s.At(pos))
    ensures DeqHolds(s, t, pos) ==> s.cells[s.At(pos)].seqno == pos + 1 && Published(s, s.At(pos))
  {
    if EnqHolds(s, t, pos) {
      assert ThreadOk(s, t);
      if Published(s, s.At(pos)) { ModDistinct(pos - 1, pos, |s.cells|); }
    }
    if DeqHolds(s, t, pos) {
      assert ThreadOk(s, t);
      if Free(s, s.At(pos)) { ModDistinct(pos, pos + 1, |s.cells|); }
    }
  }

  // Winning the enqueue compare-and-swap.

  lemma WinEnqueueCells<T>(s: State<T>, s': State<T>, t: Tid, item: T, pos: nat)
    requires Inv(s) && t in s.threads && s.threads[t] == EnqCas(item, pos) && s.enqPos == pos
    requires s' == SetPc(s, t, EnqWrite(item, pos)).(enqPos := pos + 1, log := s.log + [item])
    ensures Shape(s') && CellsOk(s')
  {
    var k := s.At(pos);
    assert ThreadOk(s, t);
    if Published(s, k) { ModDistinct(pos - 1, pos, |s.cells|); }
    assert Free(s, k);
    assert EnqHolds(s', t, pos);
    forall i | 0 <= i < |s'.cells| ensures Free(s', i) || Published(s', i) {
      var n := s.cells[i].seqno;
      if i != k && Free(s, i) {
        assert pos != n + |s.cells| by { ModAddMul(n, 1, |s.cells|); }
        StillHeld(s, s', t, n);
      } else if i != k {
        assert pos != n - 1 + |s.cells| by { ModAddMul(n - 1, 1, |s.cells|); }
        StillHeld(s, s', t, n - 1);
      }
    }
  }

  lemma WinEnqueue<T>(s: State<T>, s': State<T>, t: Tid, item: T, pos: nat)
    requires Inv(s) && t in s.threads && s.threads[t] == EnqCas(item, pos) && s.enqPos == pos
    requires s' == SetPc(s, t, EnqWrite(item, pos)).(enqPos := pos + 1, log := s.log + [item])
    ensures Inv(s')
  {
    WinEnqueueCells(s, s', t, item, pos);
    forall u | u in s'.threads ensures ThreadOk(s', u) {
      assert ThreadOk(s, u);
    }
    forall u | u in s.threads && u != t ensures !Clash(s.threads[u], EnqWrite(item, pos)) {
      assert ThreadOk(s, u);
    }
    SetPcUnique(s, s', t, EnqWrite(item, pos));
  }

  // Winning the dequeue compare-and-swap.

  lemma WinDequeueCells<T>(s: State<T>, s': State<T>, t: Tid, pos: nat)
    requires Inv(s) && t in s.threads && s.threads[t] == DeqCas(pos) && s.deqPos == pos
    requires s' == SetPc(s, t, DeqRead(pos)).(deqPos := pos + 1)
    ensures Shape(s') && CellsOk(s')
    ensures pos < s.enqPos && s.cells[s.At(pos)].data == s.log[pos]
  {
    var k := s.At(pos);
    assert ThreadOk(s, t);
    if Free(s, k) { ModDistinct(pos, pos + 1, |s.cells|); }
    assert Published(s, k);
    assert DeqHolds(s', t, pos);
    forall i | 0 <= i < |s'.cells| ensures Free(s', i) || Published(s', i) {
      var n := s.cells[i].seqno;
      if i != k && Free(s, i) {
        StillHeld(s, s', t, n);
      } else if i != k {
        StillHeld(s, s', t, n - 1);
      }
    }
  }

  lemma WinDequeue<T>(s: State<T>, s': State<T>, t: Tid, pos: nat)
    requires Inv(s) && t in s.threads && s.threads[t] == DeqCas(pos) && s.deqPos == pos
    requires s' == SetPc(s, t, DeqRead(pos)).(deqPos := pos + 1)
    ensures Inv(s')
    ensures pos < s.enqPos && s.cells[s.At(pos)].data == s.log[pos]
  {
    WinDequeueCells(s, s', t, pos);
    forall u | u in s'.threads ensures ThreadOk(s', u) {
      assert ThreadOk(s, u);
    }
    forall u | u in s.threads && u != t ensures !Clash(s.threads[u], DeqRead(pos)) {
      assert ThreadOk(s, u);
    }
    SetPcUnique(s, s', t, DeqRead(pos));
  }

  /** A ticket owner changes its own cell and its own program counter. */
  lemma OwnerStep<T>(s: State<T>, s': State<T>, t: Tid, pos: nat, c: Cell<T>, pc: Pc<T>)
    requires Inv(s) && (EnqHolds(s, t, pos) || DeqHolds(s, t, pos))
    requires s' == SetPc(SetCell(s, s.At(pos), c), t, pc)
    requires ThreadOk(s', t) && (Free(s', s.At(pos)) || Published(s', s.At(pos)))
    requires forall b :: Clash(b, pc) ==> Clash(b, s.threads[t])
    ensures Inv(s')
  {
    var k := s.At(pos);
    forall i | 0 <= i < |s'.cells| ensures Free(s', i) || Published(s', i) {
      if i != k {
        StillHeld(s, s', t, s.cells[i].seqno);
        if Published(s, i) { StillHeld(s, s', t, s.cells[i].seqno - 1); }
        FrameCell(s, s', i);
      }
    }
    forall u | u in s'.threads ensures ThreadOk(s', u) {
      if u != t { OtherThread(s, s', t, u, pos, c); }
    }
    SetPcUnique(s, s', t, pc);
  }

  /** The move into the cell by the owner of an enqueue ticket. */
  lemma WriteCell<T>(s: State<T>, t: Tid, item: T, pos: nat)
    requires Inv(s) && t in s.threads && s.threads[t] == EnqWrite(item, pos)
    ensures Inv(SetPc(SetCell(s, s.At(pos), s.cells[s.At(pos)].(data := item)), t, EnqPublish(item, pos)))
  {
    var c := s.cells[s.At(pos)].(data := item);
    var s' := SetPc(SetCell(s, s.At(pos), c), t, EnqPublish(item, pos));
    assert ThreadOk(s, t);
    assert EnqHolds(s, t, pos) && EnqHolds(s', t, pos);
    OwnedCell(s, t, pos);
    OwnerStep(s, s', t, pos, c, EnqPublish(item, pos));
  }

  /** Storing the sequence `pos + 1` hands the cell to the consumer of ticket `pos`. */
  lemma PublishCell<T>(s: State<T>, t: Tid, item: T, pos: nat)
    requires Inv(s) && t in s.threads && s.threads[t] == EnqPublish(item, pos)
    ensures Inv(SetPc(SetCell(s, s.At(pos), s.cells[s.At(pos)].(seqno := pos + 1)), t, EnqDone(item, pos)))
  {
    var c := s.cells[s.At(pos)].(seqno := pos + 1);
    var s' := SetPc(SetCell(s, s.At(pos), c), t, EnqDone(item, pos));
    assert ThreadOk(s, t);
    assert EnqHolds(s, t, pos);
    OwnedCell(s, t, pos);
    assert Published(s', s.At(pos));
    OwnerStep(s, s', t, pos, c, EnqDone(item, pos));
  }

  /** The move out of the cell by the owner of a dequeue ticket. */
  lemma ReadCell<T>(s: State<T>, t: Tid, pos: nat, husk: T)
    requires Inv(s) && t in s.threads && s.threads[t] == DeqRead(pos)
    ensures Inv(SetPc(SetCell(s, s.At(pos), s.cells[s.At(pos)].(data := husk)), t,
                      DeqRelease(pos, s.cells[s.At(pos)].data)))
  {
    var item := s.cells[s.At(pos)].data;
    var c := s.cells[s.At(pos)].(data := husk);
    var s' := SetPc(SetCell(s, s.At(pos), c), t, DeqRelease(pos, item));
    assert ThreadOk(s, t);
    assert DeqHolds(s, t, pos) && DeqHolds(s', t, pos);
    OwnedCell(s, t, pos);
    OwnerStep(s, s', t, pos, c, DeqRelease(pos, item));
  }

  /** Storing the sequence `pos + capacity` hands the cell to the producer one lap on. */
  lemma ReleaseCell<T>(s: State<T>, t: Tid, pos: nat, item: T)
    requires Inv(s) && t in s.threads && s.threads[t] == DeqRelease(pos, item)
    ensures Inv(SetPc(SetCell(s, s.At(pos), s.cells[s.At(pos)].(seqno := pos + s.Cap())), t, DeqDone(pos, item)))
  {
    var c := s.cells[s.At(pos)].(seqno := pos + s.Cap());
    var s' := SetPc(SetCell(s, s.At(pos), c), t, DeqDone(pos, item));
    assert ThreadOk(s, t);
    assert DeqHolds(s, t, pos);
    OwnedCell(s, t, pos);
    ModAddMul(pos, 1, |s.cells|);
    assert Free(s', s.At(pos));
    OwnerStep(s, s', t, pos, c, DeqDone(pos, item));
  }

  lemma EnqueueStepKeepsInv<T>(s: State<T>, t: Tid, c: Choice<T>)
    requires Inv(s) && t in s.threads && StepEnqueue(s, t, s.threads[t], c).Some?
    ensures Inv(StepEnqueue(s, t, s.threads[t], c).value)
  {
    assert ThreadOk(s, t);
    match s.threads[t] {
      case EnqLoad(item) => PcOnly(s, t, EnqSeq(item, s.enqPos));
      case EnqSeq(item, pos) =>
        var n := s.cells[s.At(pos)].seqno;
        PcOnly(s, t, if n == pos then EnqCas(item, pos) else if n < pos then EnqFailed(item) else EnqLoad(item));
      case EnqCas(item, pos) =>
        if c.Run? && s.enqPos == pos { WinEnqueue(s, StepEnqueue(s, t, s.threads[t], c).value, t, item, pos); }
        else { PcOnly(s, t, EnqSeq(item, s.enqPos)); }
      case EnqWrite(item, pos) => WriteCell(s, t, item, pos);
      case EnqPublish(item, pos) => PublishCell(s, t, item, pos);
    }
  }

  lemma DequeueStepKeepsInv<T>(s: State<T>, t: Tid, c: Choice<T>)
    requires Inv(s) && t in s.threads && StepDequeue(s, t, s.threads[t], c).Some?
    ensures Inv(StepDequeue(s, t, s.threads[t], c).value)
  {
    assert ThreadOk(s, t);
    match s.threads[t] {
      case DeqLoad => PcOnly(s, t, DeqSeq(s.deqPos));
      case DeqSeq(pos) =>
        var n := s.cells[s.At(pos)].seqno;
        PcOnly(s, t, if n == pos + 1 then DeqCas(pos) else if n < pos + 1 then DeqFailed else DeqLoad);
      case DeqCas(pos) =>
        if c.Run? && s.deqPos == pos { WinDequeue(s, StepDequeue(s, t, s.threads[t], c).value, t, pos); }
        else { PcOnly(s, t, DeqSeq(s.deqPos)); }
      case DeqRead(pos) => ReadCell(s, t, pos, c.husk);
      case DeqRelease(pos, item) => ReleaseCell(s, t, pos, item);
    }
  }

  /** Every step of every thread keeps the invariant. */
  lemma StepKeepsInv<T>(s: State<T>, t: Tid, c: Choice<T>)
    requires Inv(s) && Step(s, t, c).Some?
    ensures Inv(Step(s, t, c).value)
  {
    var pc := s.threads[t];
    assert ThreadOk(s, t);
    if c.CallEnqueue? {
      PcOnly(s, t, EnqLoad(c.item));
    } else if c.CallDequeue? {
      PcOnly(s, t, DeqLoad);
    } else if c.CallApproxSize? {
      PcOnly(s, t, SizeFirst);
    } else if c.Leave? {
      PcOnly(s, t, Idle);
    } else if StepEnqueue(s, t, pc, c).Some? {
      EnqueueStepKeepsInv(s, t, c);
    } else if StepDequeue(s, t, pc, c).Some? {
      DequeueStepKeepsInv(s, t, c);
    } else {
      PcOnly(s, t, StepSize(s, t, pc, c).value.threads[t]);
    }
  }

  lemma {:induction false} ExecKeepsInv<T>(s: State<T>, sched: Schedule<T>)
    requires Inv(s) && Exec(s, sched).Some?
    ensures Inv(Exec(s, sched).value)
    decreases |sched|
  {
    if sched != [] {
      StepKeepsInv(s, sched[0].0, sched[0].1);
      ExecKeepsInv(Step(s, sched[0].0, sched[0].1).value, sched[1..]);
    }
  }

  /** Every state that any schedule of any threads reaches from a constructed queue. */
  ghost predicate Reachable<T(!new)>(s: State<T>)
  {
    exists n, blank, tids, sched ::
      Create(n, blank, tids).Some? && Exec(Create(n, blank, tids).value, sched) == Some(s)
  }

  /** The invariant holds throughout every interleaving: the positions stay within one
      capacity of each other, and no two threads ever own the data of one cell. */
  lemma ReachableInv<T(!new)>(s: State<T>)
    requires Reachable(s)
    ensures Inv(s)
    ensures 0 <= s.enqPos - s.deqPos <= s.Cap()
    ensures forall t, u, p, q ::
              t != u && (EnqHolds(s, t, p) || DeqHolds(s, t, p)) && (EnqHolds(s, u, q) || DeqHolds(s, u, q))
              ==> s.At(p) != s.At(q)
  {
    var n, blank, tids, sched :|
      Create<T>(n, blank, tids).Some? && Exec(Create(n, blank, tids).value, sched) == Some(s);
    FreshOk(n, blank, tids);
    ExecKeepsInv(Fresh(n, blank, tids), sched);
    forall t, u, p: nat, q: nat | t != u && (EnqHolds(s, t, p) || DeqHolds(s, t, p))
                        && (EnqHolds(s, u, q) || DeqHolds(s, u, q))
      ensures s.At(p) != s.At(q)
    {
      OtherOwner(s, u, t, q, p);
    }
  }

  // ---------------------------------------------------------------- refinement of a FIFO

  /** A call takes effect at its successful compare-and-swap. */
  datatype Event<T> = Enqueued(ticket: nat, item: T) | Dequeued(ticket: nat, item: T)

  function EventOf<T>(s: State<T>, t: Tid, c: Choice<T>): seq<Event<T>>
  {
    if |s.cells| == 0 || t !in s.threads || !c.Run? then []
    else
      match s.threads[t]
      case EnqCas(item, pos) => if s.enqPos == pos then [Enqueued(pos, item)] else []
      case DeqCas(pos) => if s.deqPos == pos then [Dequeued(pos, s.cells[s.At(pos)].data)] else []
      case _ => []
  }

  function Trace<T>(s: State<T>, sched: Schedule<T>): seq<Event<T>>
    decreases |sched|
  {
    if sched == [] then []
    else
      var m := Step(s, sched[0].0, sched[0].1);
      if m.None? then [] else EventOf(s, sched[0].0, sched[0].1) + Trace(m.value, sched[1..])
  }

  /** The specification: a bounded first-in first-out queue that numbers its operations. */
  datatype Fifo<T> = Fifo(items: seq<T>, enqueued: nat, dequeued: nat)

  ghost function Apply<T>(q: Fifo<T>, cap: nat, e: Event<T>): Option<Fifo<T>>
  {
    match e
    case Enqueued(ticket, item) =>
      if ticket == q.enqueued && |q.items| < cap
      then Some(Fifo(q.items + [item], ticket + 1, q.dequeued)) else None
    case Dequeued(ticket, item) =>
      if ticket == q.dequeued && |q.items| > 0 && q.items[0] == item
      then Some(Fifo(q.items[1..], q.enqueued, ticket + 1)) else None
  }

  ghost function Replay<T>(q: Fifo<T>, cap: nat, es: seq<Event<T>>): Option<Fifo<T>>
    decreases |es|
  {
    if es == [] then Some(q)
    else
      var m := Apply(q, cap, es[0]);
      if m.None? then None else Replay(m.value, cap, es[1..])
  }

  ghost function Abs<T>(s: State<T>): Fifo<T>
    requires Shape(s)
  {
    Fifo(s.log[s.deqPos..s.enqPos], s.enqPos, s.deqPos)
  }

  /** Each step is invisible to the specification or is one legal operation of it. */
  lemma StepRefines<T>(s: State<T>, t: Tid, c: Choice<T>)
    requires Inv(s) && Step(s, t, c).Some? && Inv(Step(s, t, c).value)
    ensures Replay(Abs(s), s.Cap(), EventOf(s, t, c)) == Some(Abs(Step(s, t, c).value))
    ensures Step(s, t, c).value.Cap() == s.Cap()
    ensures s.log <= Step(s, t, c).value.log
  {
    assert ThreadOk(s, t);
    if EventOf(s, t, c) != [] {
      if s.threads[t].EnqCas? {
        EnqueueRefines(s, t);
      } else {
        DequeueRefines(s, t);
      }
    }
  }

  lemma EnqueueRefines<T>(s: State<T>, t: Tid)
    requires Inv(s) && t in s.threads && s.threads[t].EnqCas? && s.threads[t].pos == s.enqPos
    requires Step(s, t, Run).Some? && Inv(Step(s, t, Run).value)
    ensures Replay(Abs(s), s.Cap(), EventOf(s, t, Run)) == Some(Abs(Step(s, t, Run).value))
  {
    assert ThreadOk(s, t);
    var es := EventOf(s, t, Run);
    assert es[1..] == [];
    assert Abs(Step(s, t, Run).value).items == Abs(s).items + [es[0].item];
  }

  lemma DequeueRefines<T>(s: State<T>, t: Tid)
    requires Inv(s) && t in s.threads && s.threads[t].DeqCas? && s.threads[t].pos == s.deqPos
    requires Step(s, t, Run).Some? && Inv(Step(s, t, Run).value)
    ensures Replay(Abs(s), s.Cap(), EventOf(s, t, Run)) == Some(Abs(Step(s, t, Run).value))
  {
    assert ThreadOk(s, t);
    var s' := Step(s, t, Run).value;
    assert EventOf(s, t, Run)[1..] == [];
    WinDequeue(s, s', t, s.threads[t].pos);
    assert Abs(s').items == Abs(s).items[1..];
  }

  lemma {:induction false} ReplayAppend<T>(q: Fifo<T>, cap: nat, es: seq<Event<T>>, fs: seq<Event<T>>)
    requires Replay(q, cap, es).Some?
    ensures Replay(q, cap, es + fs) == Replay(Replay(q, cap, es).value, cap, fs)
    decreases |es|
  {
    if es == [] {
      assert es + fs == fs;
    } else {
      assert (es + fs)[1..] == es[1..] + fs;
      ReplayAppend(Apply(q, cap, es[0]).value, cap, es[1..], fs);
    }
  }

  lemma {:induction false} ExecRefines<T>(s: State<T>, sched: Schedule<T>)
    requires Inv(s) && Exec(s, sched).Some?
    ensures Inv(Exec(s, sched).value) && Exec(s, sched).value.Cap() == s.Cap()
    ensures Replay(Abs(s), s.Cap(), Trace(s, sched)) == Some(Abs(Exec(s, sched).value))
    ensures s.log <= Exec(s, sched).value.log
    decreases |sched|
  {
    if sched != [] {
      var (t, c) := sched[0];
      StepKeepsInv(s, t, c);
      StepRefines(s, t, c);
      var s' := Step(s, t, c).value;
      ExecRefines(s', sched[1..]);
      ReplayAppend(Abs(s), s.Cap(), EventOf(s, t, c), Trace(s', sched[1..]));
    }
  }

  /** The items of the enqueue events, in order. */
  function Inserted<T>(es: seq<Event<T>>): seq<T>
  {
    if es == [] then []
    else (if es[0].Enqueued? then [es[0].item] else []) + Inserted(es[1..])
  }

  lemma {:induction false} InsertedAppend<T>(es: seq<Event<T>>, fs: seq<Event<T>>)
    requires |es| <= 1
    ensures Inserted(es + fs) == Inserted(es) + Inserted(fs)
  {
    if es == [] {
      assert es + fs == fs;
    } else {
      assert (es + fs)[1..] == fs && es[1..] == [];
    }
  }

  lemma StepLog<T>(s: State<T>, t: Tid, c: Choice<T>)
    requires Step(s, t, c).Some?
    ensures Step(s, t, c).value.log == s.log + Inserted(EventOf(s, t, c))
    ensures |EventOf(s, t, c)| <= 1
  {
  }

  lemma {:induction false} ExecLog<T>(s: State<T>, sched: Schedule<T>)
    requires Exec(s, sched).Some?
    ensures Exec(s, sched).value.log == s.log + Inserted(Trace(s, sched))
    decreases |sched|
  {
    if sched != [] {
      var t, c := sched[0].0, sched[0].1;
      var s' := Step(s, t, c).value;
      var es, fs := EventOf(s, t, c), Trace(s', sched[1..]);
      StepLog(s, t, c);
      ExecLog(s', sched[1..]);
      LogThen(s.log, es, fs, s'.log, Exec(s, sched).value.log);
    }
  }

  lemma LogThen<T>(before: seq<T>, es: seq<Event<T>>, fs: seq<Event<T>>, between: seq<T>, after: seq<T>)
    requires |es| <= 1 && between == before + Inserted(es) && after == between + Inserted(fs)
    ensures after == before + Inserted(es + fs)
  {
    InsertedAppend(es, fs);
    assert before + (Inserted(es) + Inserted(fs)) == (before + Inserted(es)) + Inserted(fs);
  }

  /** A call that owns or owned a ticket carries the item inserted under it. */
  predicate CarriesOwn<T(==)>(pc: Pc<T>, inserted: seq<T>)
  {
    match pc
    case EnqDone(item, p) => p < |inserted| && inserted[p] == item
    case DeqRelease(p, item) => p < |inserted| && inserted[p] == item
    case DeqDone(p, item) => p < |inserted| && inserted[p] == item
    case _ => true
  }

  /** The main theorem. For every capacity the constructor accepts, every set of threads
      and every interleaving of their steps: the compare-and-swap events form a legal
      history of the bounded FIFO, whose tickets are handed out consecutively and whose
      final contents are the queue's; and a dequeue call that owns ticket `p` carries
      exactly the item of the enqueue call that owned ticket `p`. */
  lemma FifoRefinement<T>(n: nat, blank: T, tids: set<Tid>, sched: Schedule<T>)
    requires Create(n, blank, tids).Some? && Exec(Create(n, blank, tids).value, sched).Some?
    ensures var q := Create(n, blank, tids).value;
            var s := Exec(q, sched).value;
            var es := Trace(q, sched);
            && Inv(s) && s.Cap() == n && s.deqPos <= |Inserted(es)|
            && Replay(Fifo([], 0, 0), n, es) == Some(Fifo(Inserted(es)[s.deqPos..], s.enqPos, s.deqPos))
            && forall t :: t in s.threads ==> CarriesOwn(s.threads[t], Inserted(es))
  {
    FreshOk(n, blank, tids);
    var q := Fresh(n, blank, tids);
    ExecRefines(q, sched);
    ExecLog(q, sched);
    var s := Exec(q, sched).value;
    assert q.log + Inserted(Trace(q, sched)) == Inserted(Trace(q, sched));
    assert s.log[s.deqPos..s.enqPos] == s.log[s.deqPos..];
    forall t | t in s.threads ensures CarriesOwn(s.threads[t], s.log) {
      assert ThreadOk(s, t);
    }
  }

  /** The tickets and items handed back by the successful dequeue calls of a run. */
  function Delivered<T>(s: State<T>, sched: Schedule<T>): seq<(nat, T)>
    decreases |sched|
  {
    if sched == [] then []
    else
      var (t, c) := sched[0];
      var m := Step(s, t, c);
      if m.None? then []
      else
        (if c.Leave? && s.threads[t].DeqDone? then [(s.threads[t].pos, s.threads[t].item)] else [])
        + Delivered(m.value, sched[1..])
  }

  /** `t` took dequeue ticket `pos` and has not returned from that call. */
  ghost predicate DeqOwns<T>(s: State<T>, t: Tid, pos: nat)
  {
    t in s.threads && (DeqOwner(s.threads[t]) || s.threads[t].DeqDone?) && s.threads[t].pos == pos
  }

  /** Tickets whose calls have returned. */
  ghost predicate Gone<T>(s: State<T>, past: set<nat>)
  {
    && (forall p :: p in past ==> p < s.deqPos)
    && (forall t, p :: p in past ==> !DeqOwns(s, t, p))
  }

  lemma StepKeepsGone<T>(s: State<T>, t: Tid, c: Choice<T>, past: set<nat>)
    requires Inv(s) && Gone(s, past) && Step(s, t, c).Some?
    ensures Gone(Step(s, t, c).value, past)
    ensures c.Leave? && s.threads[t].DeqDone? ==>
              s.threads[t].pos !in past && Gone(Step(s, t, c).value, past + {s.threads[t].pos})
  {
    forall u, p: nat | DeqOwns(Step(s, t, c).value, u, p)
      ensures DeqOwns(s, u, p) || p == s.deqPos
    {
      OwnedBefore(s, t, c, u, p);
    }
    OwnedBefore(s, t, c, t, 0);
    if c.Leave? && s.threads[t].DeqDone? {
      assert DeqOwns(s, t, s.threads[t].pos);
      NoOwnerLeft(s, t);
    }
  }

  /** A ticket owned after a step was owned before, or is the one just won. */
  lemma OwnedBefore<T>(s: State<T>, t: Tid, c: Choice<T>, u: Tid, p: nat)
    requires Step(s, t, c).Some?
    ensures s.deqPos <= Step(s, t, c).value.deqPos
    ensures DeqOwns(Step(s, t, c).value, u, p) ==> DeqOwns(s, u, p) || p == s.deqPos
  {
    if u != t && u in s.threads { assert Step(s, t, c).value.threads[u] == s.threads[u]; }
  }

  /** Once a finished dequeue call is left, nobody owns its ticket. */
  lemma NoOwnerLeft<T>(s: State<T>, t: Tid)
    requires Inv(s) && t in s.threads && s.threads[t].DeqDone? && Step(s, t, Leave).Some?
    ensures s.threads[t].pos < s.deqPos
    ensures forall u :: !DeqOwns(Step(s, t, Leave).value, u, s.threads[t].pos)
  {
    assert ThreadOk(s, t);
    forall u ensures !DeqOwns(Step(s, t, Leave).value, u, s.threads[t].pos) {
      if u in s.threads && u != t { assert !Clash(s.threads[t], s.threads[u]); }
    }
  }

  ghost predicate FromLog<T>(d: seq<(nat, T)>, log: seq<T>)
  {
    forall i :: 0 <= i < |d| ==> d[i].0 < |log| && d[i].1 == log[d[i].0]
  }

  /** No ticket, and so no item, is delivered twice in any run, and each delivery is the
      item that was enqueued under the same ticket. */
  lemma {:induction false} DeliveredOnce<T>(s: State<T>, sched: Schedule<T>, past: set<nat>)
    requires Inv(s) && Gone(s, past) && Exec(s, sched).Some?
    ensures NewTickets(Delivered(s, sched), past)
    ensures FromLog(Delivered(s, sched), Exec(s, sched).value.log)
    decreases |sched|
  {
    if sched != [] {
      var (t, c) := sched[0];
      var s', rest := Step(s, t, c).value, sched[1..];
      StepKeepsInv(s, t, c);
      StepKeepsGone(s, t, c, past);
      var d := Delivered(s', rest);
      if c.Leave? && s.threads[t].DeqDone? {
        var first := (s.threads[t].pos, s.threads[t].item);
        DeliveredOnce(s', rest, past + {first.0});
        DeliveredFirst(first, d, past);
        HandedBack(s, t, rest);
      } else {
        DeliveredOnce(s', rest, past);
        assert Delivered(s, sched) == d;
      }
    }
  }

  /** The tickets of `d` are pairwise different and none is in `past`. */
  ghost predicate NewTickets<T>(d: seq<(nat, T)>, past: set<nat>)
  {
    && (forall i :: 0 <= i < |d| ==> d[i].0 !in past)
    && (forall i, j :: 0 <= i < j < |d| ==> d[i].0 != d[j].0)
  }

  lemma DeliveredFirst<T>(first: (nat, T), d: seq<(nat, T)>, past: set<nat>)
    requires first.0 !in past && NewTickets(d, past + {first.0})
    ensures NewTickets([first] + d, past)
  {
    assert forall i :: 0 <= i < |d| ==> d[i].0 !in past + {first.0};
  }

  /** What a finished dequeue hands back is still in the log at the end of the run. */
  lemma HandedBack<T>(s: State<T>, t: Tid, rest: Schedule<T>)
    requires Inv(s) && t in s.threads && s.threads[t].DeqDone? && Step(s, t, Leave).Some?
    requires Exec(Step(s, t, Leave).value, rest).Some?
    ensures FromLog([(s.threads[t].pos, s.threads[t].item)], Exec(Step(s, t, Leave).value, rest).value.log)
  {
    assert ThreadOk(s, t);
    StepKeepsInv(s, t, Leave);
    ExecRefines(Step(s, t, Leave).value, rest);
  }

  /** From the constructor on: every delivery of every run has a ticket of its own and brings the
      item enqueued under it. */
  lemma RunDeliversOnce<T>(n: nat, blank: T, tids: set<Tid>, sched: Schedule<T>)
    requires Create(n, blank, tids).Some? && Exec(Create(n, blank, tids).value, sched).Some?
    ensures var q := Create(n, blank, tids).value;
            var d := Delivered(q, sched);
            && (forall i, j :: 0 <= i < j < |d| ==> d[i].0 != d[j].0)
            && FromLog(d, Exec(q, sched).value.log)
  {
    FreshOk(n, blank, tids);
    DeliveredOnce(Create(n, blank, tids).value, sched, {});
  }

  // ---------------------------------------------------------------- failure

  /** Ticket `p` has not been handed back by its consumer. */
  ghost predicate Unreleased<T>(s: State<T>, p: nat)
  {
    s.deqPos <= p || DeqHeld(s, p)
  }

  /** Ticket `p` has not been published by its producer. */
  ghost predicate Unpublished<T>(s: State<T>, p: nat)
  {
    s.enqPos <= p || EnqHeld(s, p)
  }

  /** `enqueue` gives up exactly when the ticket one lap back is unreleased, and then the
      position it loaded is still the current one. */
  lemma EnqueueFailsIff<T>(s: State<T>, t: Tid)
    requires Inv(s) && t in s.threads && s.threads[t].EnqSeq?
    ensures var pos := s.threads[t].pos;
            var fails := Step(s, t, Run).value.threads[t].EnqFailed?;
            && Step(s, t, Run).Some?
            && (fails <==> pos >= s.Cap() && Unreleased(s, pos - s.Cap()))
            && (fails ==> s.enqPos == pos)
            && (fails ==> |Abs(s).items| == s.Cap() || DeqHeld(s, pos - s.Cap()))
  {
    assert ThreadOk(s, t);
    LapBack(s, s.threads[t].pos);
  }

  /** The cell of `pos` is behind it exactly when the ticket one lap back is unreleased. */
  lemma LapBack<T>(s: State<T>, pos: nat)
    requires Inv(s) && pos <= s.enqPos
    ensures var behind := s.cells[s.At(pos)].seqno < pos;
            && (behind <==> pos >= s.Cap() && Unreleased(s, pos - s.Cap()))
            && (behind ==> s.enqPos == pos)
            && (behind ==> |Abs(s).items| == s.Cap() || DeqHeld(s, pos - s.Cap()))
  {
    var cap := s.Cap();
    var k := s.At(pos);
    var n := s.cells[k].seqno;
    if n < pos {
      if Free(s, k) {
        ModDistinct(n, pos, cap);
      } else {
        ModDistinct(n - 1, pos, cap);
      }
    }
    if pos >= cap && Unreleased(s, pos - cap) {
      UnreleasedBehind(s, pos);
    }
  }

  lemma UnreleasedBehind<T>(s: State<T>, pos: nat)
    requires Inv(s) && s.Cap() <= pos <= s.enqPos && Unreleased(s, pos - s.Cap())
    ensures s.cells[s.At(pos)].seqno < pos
  {
    var cap := s.Cap();
    var k := s.At(pos);
    var n := s.cells[k].seqno;
    assert s.At(pos - cap) == k by { ModAddMul(pos - cap, 1, cap); }
    if s.deqPos <= pos - cap {
      if Published(s, k) && n >= pos {
        if n - 1 < pos { ModDistinct(n - 1, pos, cap); }
      }
    } else {
      var u :| DeqHolds(s, u, pos - cap);
      assert ThreadOk(s, u);
    }
  }

  /** `dequeue` gives up exactly when the head ticket is unpublished. */
  lemma DequeueFailsIff<T>(s: State<T>, t: Tid)
    requires Inv(s) && t in s.threads && s.threads[t].DeqSeq?
    ensures var pos := s.threads[t].pos;
            var fails := Step(s, t, Run).value.threads[t].DeqFailed?;
            && Step(s, t, Run).Some?
            && (fails <==> Unpublished(s, pos))
            && (fails ==> s.deqPos == pos)
            && (fails ==> Abs(s).items == [] || EnqHeld(s, pos))
  {
    assert ThreadOk(s, t);
    var pos := s.threads[t].pos;
    var cap := s.Cap();
    var k := s.At(pos);
    var n := s.cells[k].seqno;
    if n <= pos && !Free(s, k) {
      ModDistinct(n - 1, pos, cap);
    }
    if Unpublished(s, pos) {
      if s.enqPos <= pos {
        if Published(s, k) {
          if n - 1 > pos { assert false; }
        } else if n > pos {
          ModDistinct(pos, n, cap);
        }
      } else {
        var u :| EnqHolds(s, u, pos);
        assert ThreadOk(s, u);
      }
    }
  }

  /** With no other call in flight, failure means exactly full, or exactly empty. */
  lemma SoloFailure<T>(s: State<T>, t: Tid)
    requires Inv(s) && t in s.threads
    requires forall u :: u in s.threads && u != t ==> s.threads[u].Idle?
    ensures s.threads[t].EnqSeq? && s.threads[t].pos == s.enqPos ==>
              (Step(s, t, Run).value.threads[t].EnqFailed? <==> |Abs(s).items| == s.Cap())
    ensures s.threads[t].DeqSeq? && s.threads[t].pos == s.deqPos ==>
              (Step(s, t, Run).value.threads[t].DeqFailed? <==> Abs(s).items == [])
  {
    if s.threads[t].EnqSeq? {
      EnqueueFailsIff(s, t);
    }
    if s.threads[t].DeqSeq? {
      DequeueFailsIff(s, t);
    }
  }

  /** `approx_size` reports a number between 0 and the capacity. It reports 0 only if, when it
      loaded `dequeue_pos_`, every ticket issued up to its later load had been taken. */
  lemma ApproxSize<T>(s: State<T>, t: Tid)
    requires Inv(s) && t in s.threads && s.threads[t].SizeLast?
    ensures Step(s, t, Run).Some? && Step(s, t, Run).value.threads[t].SizeDone?
    ensures var size := Step(s, t, Run).value.threads[t].size;
            && 0 <= size <= s.Cap()
            && (size == 0 <==> s.enqPos <= s.threads[t].first)
            && (s.threads[t].first == s.deqPos ==> size == |Abs(s).items|)
  {
  }
}
