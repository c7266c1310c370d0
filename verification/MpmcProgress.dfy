/** Progress of the bounded queue: a thread retries only because another thread won the ticket it was
    after, and the number of steps of any run is bounded by the number of calls that return. */
module MpmcProgress {
  import opened Bits
  import opened Common
  import opened MpmcQueue

  // ---------------------------------------------------------------- who won

  /** The thread is trying for enqueue ticket `pos`. */
  predicate EnqTries<T>(pc: Pc<T>, pos: nat) { (pc.EnqSeq? || pc.EnqCas?) && pc.pos == pos }

  /** The thread is trying for dequeue ticket `pos`. */
  predicate DeqTries<T>(pc: Pc<T>, pos: nat) { (pc.DeqSeq? || pc.DeqCas?) && pc.pos == pos }

  /** The choice made after a prefix of the schedule wins a ticket: its compare-and-swap succeeds. */
  ghost predicate WinsEnq<T>(s: State<T>, t: Tid, c: Choice<T>, pos: nat)
  {
    t in s.threads && s.threads[t].EnqCas? && s.threads[t].pos == pos == s.enqPos && c.Run?
  }

  ghost predicate WinsDeq<T>(s: State<T>, t: Tid, c: Choice<T>, pos: nat)
  {
    t in s.threads && s.threads[t].DeqCas? && s.threads[t].pos == pos == s.deqPos && c.Run?
  }

  /** Step `i` of the schedule is another thread's win of this enqueue ticket. */
  ghost predicate EnqWonBy<T>(s: State<T>, sched: Schedule<T>, i: nat, t: Tid, pos: nat)
  {
    && i < |sched| && sched[i].0 != t && Exec(s, sched[..i]).Some?
    && WinsEnq(Exec(s, sched[..i]).value, sched[i].0, sched[i].1, pos)
  }

  ghost predicate DeqWonBy<T>(s: State<T>, sched: Schedule<T>, i: nat, t: Tid, pos: nat)
  {
    && i < |sched| && sched[i].0 != t && Exec(s, sched[..i]).Some?
    && WinsDeq(Exec(s, sched[..i]).value, sched[i].0, sched[i].1, pos)
  }

  /** From `s` to `u` a position moves exactly when a compare-and-swap on it succeeds, and by one; and
      only the thread `t` moves. */
  ghost predicate Moves<T>(s: State<T>, u: State<T>, t: Tid, c: Choice<T>)
  {
    && u.enqPos == s.enqPos + (if WinsEnq(s, t, c, s.enqPos) then 1 else 0)
    && u.deqPos == s.deqPos + (if WinsDeq(s, t, c, s.deqPos) then 1 else 0)
    && t in u.threads && u.threads == s.threads[t := u.threads[t]] && u.Cap() == s.Cap() > 0
  }

  lemma EnqueueMoves<T>(s: State<T>, t: Tid, c: Choice<T>)
    requires |s.cells| > 0 && t in s.threads && StepEnqueue(s, t, s.threads[t], c).Some?
    ensures Moves(s, StepEnqueue(s, t, s.threads[t], c).value, t, c)
  {
  }

  lemma DequeueMoves<T>(s: State<T>, t: Tid, c: Choice<T>)
    requires |s.cells| > 0 && t in s.threads && StepDequeue(s, t, s.threads[t], c).Some?
    ensures Moves(s, StepDequeue(s, t, s.threads[t], c).value, t, c)
  {
  }

  lemma PositionsMove<T>(s: State<T>, t: Tid, c: Choice<T>)
    requires Step(s, t, c).Some?
    ensures Moves(s, Step(s, t, c).value, t, c)
  {
    if c.Run? || c.CasFail? || c.MoveOut? {
      if StepEnqueue(s, t, s.threads[t], c).Some? {
        EnqueueMoves(s, t, c);
      } else if StepDequeue(s, t, s.threads[t], c).Some? {
        DequeueMoves(s, t, c);
      }
    }
  }

  /** The thread is past enqueue ticket `pos`: it will not try for it any more. */
  ghost predicate PastEnq<T>(s: State<T>, t: Tid, pos: nat)
  {
    t in s.threads && pos < s.enqPos && (s.threads[t].EnqSeq? || s.threads[t].EnqCas? ==> pos < s.threads[t].pos)
  }

  ghost predicate PastDeq<T>(s: State<T>, t: Tid, pos: nat)
  {
    t in s.threads && pos < s.deqPos && (s.threads[t].DeqSeq? || s.threads[t].DeqCas? ==> pos < s.threads[t].pos)
  }

  lemma {:induction false} StaysPast<T>(s: State<T>, sched: Schedule<T>, t: Tid, pos: nat)
    requires Exec(s, sched).Some?
    ensures PastEnq(s, t, pos) ==> PastEnq(Exec(s, sched).value, t, pos)
    ensures PastDeq(s, t, pos) ==> PastDeq(Exec(s, sched).value, t, pos)
    decreases |sched|
  {
    if sched != [] {
      var (u, c) := sched[0];
      PositionsMove(s, u, c);
      StepPast(s, u, c, t, pos);
      StaysPast(Step(s, u, c).value, sched[1..], t, pos);
    }
  }

  lemma StepPast<T>(s: State<T>, u: Tid, c: Choice<T>, t: Tid, pos: nat)
    requires Step(s, u, c).Some?
    ensures PastEnq(s, t, pos) ==> PastEnq(Step(s, u, c).value, t, pos)
    ensures PastDeq(s, t, pos) ==> PastDeq(Step(s, u, c).value, t, pos)
  {
    PositionsMove(s, u, c);
  }

  /** A prefix of the rest of a schedule, run after its first step. */
  lemma PrefixAfter<T>(s: State<T>, sched: Schedule<T>, i: nat)
    requires sched != [] && Step(s, sched[0].0, sched[0].1).Some? && i < |sched|
    ensures i > 0 ==> Exec(s, sched[..i]) == Exec(Step(s, sched[0].0, sched[0].1).value, sched[1..][..i - 1])
  {
    if i > 0 {
      assert sched[..i][0] == sched[0] && sched[..i][1..] == sched[1..][..i - 1];
    }
  }

  /** The enqueue race: whenever a thread still tries for a ticket that was the current one and no
      longer is, some other thread won exactly that ticket in between. */
  lemma {:induction false} LostEnqueue<T>(s: State<T>, sched: Schedule<T>, t: Tid) returns (i: nat)
    requires Exec(s, sched).Some? && t in Exec(s, sched).value.threads
    requires EnqTries(Exec(s, sched).value.threads[t], s.enqPos) && Exec(s, sched).value.enqPos != s.enqPos
    ensures EnqWonBy(s, sched, i, t, s.enqPos)
    decreases |sched|
  {
    var (u, c) := sched[0];
    PositionsMove(s, u, c);
    var s', pos := Step(s, u, c).value, s.enqPos;
    if WinsEnq(s, u, c, pos) {
      i := 0;
      if u == t {
        StaysPast(s', sched[1..], t, pos);
        assert false;
      }
    } else {
      var j := LostEnqueue(s', sched[1..], t);
      i := j + 1;
      PrefixAfter(s, sched, i);
    }
  }

  /** The dequeue race. */
  lemma {:induction false} LostDequeue<T>(s: State<T>, sched: Schedule<T>, t: Tid) returns (i: nat)
    requires Exec(s, sched).Some? && t in Exec(s, sched).value.threads
    requires DeqTries(Exec(s, sched).value.threads[t], s.deqPos) && Exec(s, sched).value.deqPos != s.deqPos
    ensures DeqWonBy(s, sched, i, t, s.deqPos)
    decreases |sched|
  {
    var (u, c) := sched[0];
    PositionsMove(s, u, c);
    var s', pos := Step(s, u, c).value, s.deqPos;
    if WinsDeq(s, u, c, pos) {
      i := 0;
      if u == t {
        StaysPast(s', sched[1..], t, pos);
        assert false;
      }
    } else {
      var j := LostDequeue(s', sched[1..], t);
      i := j + 1;
      PrefixAfter(s, sched, i);
    }
  }

  /** A thread goes back only from a ticket that is no longer the current one: at the current ticket
      the sequence comparison never asks for a reload. */
  lemma NoReload<T>(s: State<T>)
    requires Inv(s)
    ensures s.cells[s.At(s.enqPos)].seqno <= s.enqPos
    ensures s.cells[s.At(s.deqPos)].seqno <= s.deqPos + 1
  {
    var cap := s.Cap();
    var k, n := s.At(s.enqPos), s.cells[s.At(s.enqPos)].seqno;
    if n > s.enqPos && Free(s, k) { ModDistinct(s.enqPos, n, cap); }
    var k', n' := s.At(s.deqPos), s.cells[s.At(s.deqPos)].seqno;
    if n' > s.deqPos + 1 { ModDistinct(s.deqPos, if Free(s, k') then n' else n' - 1, cap); }
  }

  // ---------------------------------------------------------------- lock freedom

  /** Steps a call still needs if nobody else wins a ticket: more when the ticket it tries for is gone. */
  function Rank<T>(enqPos: nat, deqPos: nat, pc: Pc<T>): nat
  {
    match pc
    case EnqLoad(_) => 5
    case EnqSeq(_, pos) => if pos == enqPos then 4 else 6
    case EnqCas(_, pos) => if pos == enqPos then 3 else 5
    case EnqWrite(_, _) => 2
    case EnqPublish(_, _) => 1
    case DeqLoad => 5
    case DeqSeq(pos) => if pos == deqPos then 4 else 6
    case DeqCas(pos) => if pos == deqPos then 3 else 5
    case DeqRead(_) => 2
    case DeqRelease(_, _) => 1
    case SizeFirst => 2
    case SizeLast(_) => 1
    case _ => 0
  }

  /** The program points before a ticket is won. */
  predicate Trying<T>(pc: Pc<T>)
  {
    pc.EnqLoad? || pc.EnqSeq? || pc.EnqCas? || pc.DeqLoad? || pc.DeqSeq? || pc.DeqCas?
  }

  predicate Resting<T>(pc: Pc<T>) { pc.Idle? || Finished(pc) }

  /** Among `k` threads a win costs each of the others at most two steps, which the winner pays for in
      advance; a thread outside a call has what its next call may need. */
  function Potential<T>(k: nat, enqPos: nat, deqPos: nat, pc: Pc<T>): nat
  {
    if Resting(pc) then 2 * k + 5 else Rank(enqPos, deqPos, pc) + if Trying(pc) then 2 * k else 0
  }

  function Total<T>(k: nat, s: State<T>, ts: seq<Tid>): nat
    requires forall i :: 0 <= i < |ts| ==> ts[i] in s.threads
  {
    if ts == [] then 0 else Potential(k, s.enqPos, s.deqPos, s.threads[ts[0]]) + Total(k, s, ts[1..])
  }

  /** The threads, each once. */
  ghost predicate Lists<T>(ts: seq<Tid>, s: State<T>)
  {
    NoDup(ts) && forall t :: t in ts <==> t in s.threads
  }

  /** An atomic step inside a call, other than a spurious failure. */
  function Work<T>(c: Choice<T>): nat { if c.Run? || c.MoveOut? then 1 else 0 }

  function Spurious<T>(c: Choice<T>): nat { if c.CasFail? then 1 else 0 }

  /** The call ends: its result is there. */
  predicate Ends<T>(pc: Pc<T>, pc': Pc<T>) { !Finished(pc) && Finished(pc') }

  predicate Returns<T>(s: State<T>, t: Tid, c: Choice<T>)
  {
    t in s.threads && Step(s, t, c).Some? && Ends(s.threads[t], Step(s, t, c).value.threads[t])
  }

  predicate Won<T>(s: State<T>, u: State<T>) { u.enqPos != s.enqPos || u.deqPos != s.deqPos }

  /** A step from `s` to `u` costs its own thread `t` what it may. */
  ghost predicate Paid<T>(k: nat, s: State<T>, u: State<T>, t: Tid, c: Choice<T>)
  {
    && t in s.threads && t in u.threads
    && Potential(k, u.enqPos, u.deqPos, u.threads[t]) + Work(c) + (if Won(s, u) then 2 * k else 0)
       <= Potential(k, s.enqPos, s.deqPos, s.threads[t])
          + (if Ends(s.threads[t], u.threads[t]) then 2 * k + 5 else 0) + Spurious(c)
  }

  lemma EnqueuePaid<T>(k: nat, s: State<T>, t: Tid, c: Choice<T>)
    requires |s.cells| > 0 && t in s.threads && s.cells[s.At(s.enqPos)].seqno <= s.enqPos
    requires StepEnqueue(s, t, s.threads[t], c).Some?
    ensures Paid(k, s, StepEnqueue(s, t, s.threads[t], c).value, t, c)
  {
  }

  lemma DequeuePaid<T>(k: nat, s: State<T>, t: Tid, c: Choice<T>)
    requires |s.cells| > 0 && t in s.threads && s.cells[s.At(s.deqPos)].seqno <= s.deqPos + 1
    requires StepDequeue(s, t, s.threads[t], c).Some?
    ensures Paid(k, s, StepDequeue(s, t, s.threads[t], c).value, t, c)
  {
  }

  lemma SizePaid<T>(k: nat, s: State<T>, t: Tid, c: Choice<T>)
    requires t in s.threads && StepSize(s, t, s.threads[t], c).Some?
    ensures Paid(k, s, StepSize(s, t, s.threads[t], c).value, t, c)
  {
  }

  /** What a step does to its own thread. */
  lemma OwnPaid<T>(k: nat, s: State<T>, t: Tid, c: Choice<T>)
    requires Inv(s) && Step(s, t, c).Some?
    ensures Paid(k, s, Step(s, t, c).value, t, c)
  {
    NoReload(s);
    OwnCases(k, s, t, c);
  }

  lemma OwnCases<T>(k: nat, s: State<T>, t: Tid, c: Choice<T>)
    requires Step(s, t, c).Some?
    requires s.cells[s.At(s.enqPos)].seqno <= s.enqPos && s.cells[s.At(s.deqPos)].seqno <= s.deqPos + 1
    ensures Paid(k, s, Step(s, t, c).value, t, c)
  {
    var pc := s.threads[t];
    if c.Run? || c.CasFail? || c.MoveOut? {
      if StepEnqueue(s, t, pc, c).Some? {
        EnqueuePaid(k, s, t, c);
      } else if StepDequeue(s, t, pc, c).Some? {
        DequeuePaid(k, s, t, c);
      } else {
        SizePaid(k, s, t, c);
      }
    }
  }

  /** What a step does to another thread. */
  lemma OtherPotential<T>(k: nat, s: State<T>, u: State<T>, pc: Pc<T>)
    ensures Potential(k, u.enqPos, u.deqPos, pc)
            <= Potential(k, s.enqPos, s.deqPos, pc) + if Won(s, u) then 2 else 0
  {
  }

  lemma {:induction false} TotalOthers<T>(k: nat, s: State<T>, u: State<T>, t: Tid, ts: seq<Tid>)
    requires t !in ts && forall i :: 0 <= i < |ts| ==> ts[i] in s.threads && ts[i] in u.threads
    requires forall v :: v in ts ==> u.threads[v] == s.threads[v]
    ensures Total(k, u, ts) <= Total(k, s, ts) + if Won(s, u) then 2 * |ts| else 0
  {
    if ts != [] {
      OtherPotential(k, s, u, s.threads[ts[0]]);
      TotalOthers(k, s, u, t, ts[1..]);
    }
  }

  /** The difference of the sums is the difference at `t` and what the others lose. */
  lemma {:induction false} TotalChange<T>(k: nat, s: State<T>, u: State<T>, t: Tid, ts: seq<Tid>)
    requires NoDup(ts) && t in ts && t in u.threads && u.threads == s.threads[t := u.threads[t]]
    requires forall i :: 0 <= i < |ts| ==> ts[i] in s.threads
    ensures Total(k, u, ts) + Potential(k, s.enqPos, s.deqPos, s.threads[t])
            <= Total(k, s, ts) + Potential(k, u.enqPos, u.deqPos, u.threads[t])
               + if Won(s, u) then 2 * |ts| else 0
  {
    if ts[0] == t {
      TotalOthers(k, s, u, t, ts[1..]);
    } else {
      OtherPotential(k, s, u, s.threads[ts[0]]);
      TotalChange(k, s, u, t, ts[1..]);
    }
  }

  /** Each step is paid for. */
  lemma StepPaid<T>(s: State<T>, t: Tid, c: Choice<T>, ts: seq<Tid>)
    requires Inv(s) && Lists(ts, s) && Step(s, t, c).Some?
    ensures Inv(Step(s, t, c).value) && Lists(ts, Step(s, t, c).value)
    ensures Total(|ts|, Step(s, t, c).value, ts) + Work(c)
            <= Total(|ts|, s, ts) + (if Returns(s, t, c) then 2 * |ts| + 5 else 0) + Spurious(c)
  {
    StepKeepsInv(s, t, c);
    PositionsMove(s, t, c);
    OwnPaid(|ts|, s, t, c);
    AllPaid(s, Step(s, t, c).value, t, c, ts);
  }

  lemma AllPaid<T>(s: State<T>, u: State<T>, t: Tid, c: Choice<T>, ts: seq<Tid>)
    requires Lists(ts, s) && t in s.threads && t in u.threads && u.threads == s.threads[t := u.threads[t]]
    requires Paid(|ts|, s, u, t, c)
    ensures Lists(ts, u)
    ensures Total(|ts|, u, ts) + Work(c)
            <= Total(|ts|, s, ts) + (if Ends(s.threads[t], u.threads[t]) then 2 * |ts| + 5 else 0) + Spurious(c)
  {
    TotalChange(|ts|, s, u, t, ts);
  }

  function WorkOf<T>(sched: Schedule<T>): nat
  {
    if sched == [] then 0 else Work(sched[0].1) + WorkOf(sched[1..])
  }

  function SpuriousOf<T>(sched: Schedule<T>): nat
  {
    if sched == [] then 0 else Spurious(sched[0].1) + SpuriousOf(sched[1..])
  }

  /** The calls that return during the schedule. */
  function ReturnsOf<T>(s: State<T>, sched: Schedule<T>): nat
    decreases |sched|
  {
    if sched == [] then 0
    else
      var m := Step(s, sched[0].0, sched[0].1);
      if m.None? then 0
      else (if Returns(s, sched[0].0, sched[0].1) then 1 else 0) + ReturnsOf(m.value, sched[1..])
  }

  /** A run is paid for by what its threads had, the calls that return and the spurious failures. */
  ghost predicate RunWithin<T>(s: State<T>, sched: Schedule<T>, u: State<T>, ts: seq<Tid>)
  {
    && Lists(ts, s) && Lists(ts, u)
    && Total(|ts|, u, ts) + WorkOf(sched)
       <= Total(|ts|, s, ts) + (2 * |ts| + 5) * ReturnsOf(s, sched) + SpuriousOf(sched)
  }

  lemma {:induction false} RunPaid<T>(s: State<T>, sched: Schedule<T>, ts: seq<Tid>)
    requires Inv(s) && Lists(ts, s) && Exec(s, sched).Some?
    ensures RunWithin(s, sched, Exec(s, sched).value, ts)
    decreases |sched|
  {
    if sched != [] {
      var (t, c) := sched[0];
      StepPaid(s, t, c, ts);
      RunPaid(Step(s, t, c).value, sched[1..], ts);
      RunAfter(s, sched, Exec(s, sched).value, ts);
    }
  }

  lemma RunAfter<T>(s: State<T>, sched: Schedule<T>, end: State<T>, ts: seq<Tid>)
    requires sched != [] && Lists(ts, s) && Step(s, sched[0].0, sched[0].1).Some?
    requires RunWithin(Step(s, sched[0].0, sched[0].1).value, sched[1..], end, ts)
    requires Total(|ts|, Step(s, sched[0].0, sched[0].1).value, ts) + Work(sched[0].1)
             <= Total(|ts|, s, ts) + (if Returns(s, sched[0].0, sched[0].1) then 2 * |ts| + 5 else 0)
                + Spurious(sched[0].1)
    ensures RunWithin(s, sched, end, ts)
  {
    var (t, c) := sched[0];
    var u := Step(s, t, c).value;
    Accounts(2 * |ts| + 5, Total(|ts|, s, ts), Total(|ts|, u, ts), Total(|ts|, end, ts), Work(c), WorkOf(sched[1..]),
             Returns(s, t, c), ReturnsOf(u, sched[1..]), Spurious(c), SpuriousOf(sched[1..]));
  }

  /** Adding up one step and the steps after it. */
  lemma Accounts(fee: nat, before: nat, after: nat, end: nat, work: nat, works: nat,
                 ended: bool, later: nat, spurious: nat, spuriouses: nat)
    requires after + work <= before + (if ended then fee else 0) + spurious
    requires end + works <= after + fee * later + spuriouses
    ensures end + (work + works)
            <= before + fee * ((if ended then 1 else 0) + later) + (spurious + spuriouses)
  {
    Distributes(fee, if ended then 1 else 0, later);
  }

  lemma Distributes(w: nat, x: nat, y: nat)
    ensures w * (x + y) == w * x + w * y
  {
  }

  lemma {:induction false} TotalBound<T>(k: nat, s: State<T>, ts: seq<Tid>)
    requires forall i :: 0 <= i < |ts| ==> ts[i] in s.threads
    ensures Total(k, s, ts) <= (2 * k + 6) * |ts|
  {
    if ts != [] {
      TotalBound(k, s, ts[1..]);
      Distributes(2 * k + 6, 1, |ts| - 1);
    }
  }

  lemma {:induction false} Listing(keys: set<Tid>) returns (ts: seq<Tid>)
    ensures NoDup(ts) && |ts| == |keys| && forall t :: t in ts <==> t in keys
    decreases |keys|
  {
    if keys == {} {
      ts := [];
    } else {
      var t :| t in keys;
      var rest := Listing(keys - {t});
      ts := [t] + rest;
    }
  }

  /** Lock freedom: from every state of the invariant and for every interleaving of `k` threads, the
      atomic steps taken are at most 2k + 5 for each call that returns, one for each spurious failure,
      and k(2k + 6) besides. So no run goes on for longer than that without a call returning, whatever
      threads the scheduler stops, and wherever. */
  lemma LockFree<T>(s: State<T>, sched: Schedule<T>)
    requires Inv(s) && Exec(s, sched).Some?
    ensures var k := |s.threads.Keys|;
            WorkOf(sched) <= (2 * k + 5) * ReturnsOf(s, sched) + SpuriousOf(sched) + (2 * k + 6) * k
  {
    var ts := Listing(s.threads.Keys);
    ListedLockFree(s, sched, ts, |s.threads.Keys|);
  }

  lemma ListedLockFree<T>(s: State<T>, sched: Schedule<T>, ts: seq<Tid>, k: nat)
    requires Inv(s) && Lists(ts, s) && k == |ts| && Exec(s, sched).Some?
    ensures WorkOf(sched) <= (2 * k + 5) * ReturnsOf(s, sched) + SpuriousOf(sched) + (2 * k + 6) * k
  {
    RunPaid(s, sched, ts);
    BoundPaid(s, sched, Exec(s, sched).value, ts, k);
  }

  lemma BoundPaid<T>(s: State<T>, sched: Schedule<T>, u: State<T>, ts: seq<Tid>, k: nat)
    requires RunWithin(s, sched, u, ts) && k == |ts|
    ensures WorkOf(sched) <= (2 * k + 5) * ReturnsOf(s, sched) + SpuriousOf(sched) + (2 * k + 6) * k
  {
    TotalBound(k, s, ts);
  }
}
