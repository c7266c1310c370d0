/** Whole calls on the bounded queue, over every schedule: each result of a call comes from a step of
    that call, taken in a state that justifies it. */
module MpmcCalls {
  import opened Bits
  import opened Common
  import opened MpmcQueue
  import opened MpmcProgress

  // ---------------------------------------------------------------- single steps

  /** The queue has no room for the next enqueue: the ticket one lap back is unreleased. */
  ghost predicate NoRoom<T>(s: State<T>)
  {
    s.enqPos >= s.Cap() && Unreleased(s, s.enqPos - s.Cap())
  }

  /** There is nothing to take for the next dequeue. */
  ghost predicate NothingThere<T>(s: State<T>) { Unpublished(s, s.deqPos) }

  /** Whatever the program point and the choice, a step that makes a call fail is justified by the
      queue at that moment. */
  lemma FailureJustified<T>(s: State<T>, t: Tid, c: Choice<T>)
    requires Inv(s) && Step(s, t, c).Some?
    ensures var pc, pc' := s.threads[t], Step(s, t, c).value.threads[t];
            && (pc'.EnqFailed? && !pc.EnqFailed? ==> NoRoom(s))
            && (pc'.DeqFailed? && !pc.DeqFailed? ==> NothingThere(s))
  {
    var pc, pc' := s.threads[t], Step(s, t, c).value.threads[t];
    EntersFailure(s, t, c);
    if pc'.EnqFailed? && !pc.EnqFailed? {
      EnqueueFailsIff(s, t);
    }
    if pc'.DeqFailed? && !pc.DeqFailed? {
      DequeueFailsIff(s, t);
    }
  }

  /** Only the sequence comparison gives up. */
  lemma EntersFailure<T>(s: State<T>, t: Tid, c: Choice<T>)
    requires Step(s, t, c).Some?
    ensures var pc, pc' := s.threads[t], Step(s, t, c).value.threads[t];
            && (pc'.EnqFailed? && !pc.EnqFailed? ==> pc.EnqSeq? && c.Run?)
            && (pc'.DeqFailed? && !pc.DeqFailed? ==> pc.DeqSeq? && c.Run?)
  {
  }

  // ---------------------------------------------------------------- the last step of a thread

  /** Step `i` is the last one that `t` takes. */
  predicate LastOf<T>(sched: Schedule<T>, t: Tid, i: nat)
  {
    i < |sched| && sched[i].0 == t && forall j :: i < j < |sched| ==> sched[j].0 != t
  }

  /** Step `i` of the schedule ran in `u` and led to `v`. */
  ghost predicate Ran<T>(s: State<T>, sched: Schedule<T>, i: nat, u: State<T>, v: State<T>)
  {
    && i < |sched| && Exec(s, sched[..i]) == Some(u)
    && Step(u, sched[i].0, sched[i].1) == Some(v)
  }

  lemma RanAfter<T>(s: State<T>, sched: Schedule<T>, i: nat, u: State<T>, v: State<T>)
    requires sched != [] && Step(s, sched[0].0, sched[0].1).Some?
    requires Ran(Step(s, sched[0].0, sched[0].1).value, sched[1..], i, u, v)
    ensures Ran(s, sched, i + 1, u, v)
  {
    PrefixAfter(s, sched, i + 1);
  }

  /** If `t` took a step at all, its last step brought it where it is. */
  lemma {:induction false} LastStep<T>(s: State<T>, sched: Schedule<T>, t: Tid)
    returns (i: nat, u: State<T>, v: State<T>)
    requires Inv(s) && t in s.threads && Exec(s, sched).Some? && t in Exec(s, sched).value.threads
    requires || s.threads[t] != Exec(s, sched).value.threads[t]
             || exists j :: 0 <= j < |sched| && sched[j].0 == t
    ensures LastOf(sched, t, i) && Ran(s, sched, i, u, v) && Inv(u) && t in u.threads && t in v.threads
    ensures v.threads[t] == Exec(s, sched).value.threads[t]
    decreases |sched|
  {
    var (x, c) := sched[0];
    var s' := Step(s, x, c).value;
    StepKeepsInv(s, x, c);
    PositionsMove(s, x, c);
    if s'.threads[t] != Exec(s, sched).value.threads[t] || exists j :: 0 <= j < |sched[1..]| && sched[1..][j].0 == t {
      i, u, v := LastStep(s', sched[1..], t);
      RanAfter(s, sched, i, u, v);
      i := i + 1;
    } else {
      i, u, v := 0, s, s';
      assert sched[..0] == [];
      assert forall j :: 0 < j < |sched| ==> sched[j] == sched[1..][j - 1];
    }
  }

  // ---------------------------------------------------------------- whole calls

  /** `t` does not leave the call it is in. */
  predicate Stays<T>(sched: Schedule<T>, t: Tid)
  {
    forall i :: 0 <= i < |sched| && sched[i].0 == t ==> !sched[i].1.Leave?
  }

  /** Step `i` is the win of enqueue ticket `pos` by `t`. */
  ghost predicate EnqWins<T>(s: State<T>, sched: Schedule<T>, i: nat, t: Tid, pos: nat)
  {
    && i < |sched| && sched[i].0 == t && Exec(s, sched[..i]).Some?
    && WinsEnq(Exec(s, sched[..i]).value, t, sched[i].1, pos)
  }

  ghost predicate DeqWins<T>(s: State<T>, sched: Schedule<T>, i: nat, t: Tid, pos: nat)
  {
    && i < |sched| && sched[i].0 == t && Exec(s, sched[..i]).Some?
    && WinsDeq(Exec(s, sched[..i]).value, t, sched[i].1, pos)
  }

  /** Step `i` is the one win of `t` in the schedule, and of ticket `pos`. */
  ghost predicate OneEnqWin<T>(s: State<T>, sched: Schedule<T>, i: nat, t: Tid, pos: nat)
  {
    EnqWins(s, sched, i, t, pos) && forall j, p :: EnqWins(s, sched, j, t, p) ==> j == i
  }

  ghost predicate OneDeqWin<T>(s: State<T>, sched: Schedule<T>, i: nat, t: Tid, pos: nat)
  {
    DeqWins(s, sched, i, t, pos) && forall j, p :: DeqWins(s, sched, j, t, p) ==> j == i
  }

  ghost predicate NoEnqWin<T>(s: State<T>, sched: Schedule<T>, t: Tid)
  {
    forall i, pos :: !EnqWins(s, sched, i, t, pos)
  }

  ghost predicate NoDeqWin<T>(s: State<T>, sched: Schedule<T>, t: Tid)
  {
    forall i, pos :: !DeqWins(s, sched, i, t, pos)
  }

  /** The wins of a schedule are those of its first step and those after it. */
  lemma WinsSplit<T>(s: State<T>, sched: Schedule<T>, t: Tid, i: nat, pos: nat)
    requires sched != [] && Step(s, sched[0].0, sched[0].1).Some?
    ensures var s' := Step(s, sched[0].0, sched[0].1).value;
            && (EnqWins(s, sched, i, t, pos) <==>
                if i == 0 then sched[0].0 == t && WinsEnq(s, t, sched[0].1, pos)
                else EnqWins(s', sched[1..], i - 1, t, pos))
            && (DeqWins(s, sched, i, t, pos) <==>
                if i == 0 then sched[0].0 == t && WinsDeq(s, t, sched[0].1, pos)
                else DeqWins(s', sched[1..], i - 1, t, pos))
  {
    if i == 0 {
      assert sched[..0] == [];
    } else if i < |sched| {
      PrefixAfter(s, sched, i);
      assert sched[1..][i - 1] == sched[i];
    }
  }

  predicate TriesEnq<T>(pc: Pc<T>) { pc.EnqLoad? || pc.EnqSeq? || pc.EnqCas? }

  predicate HasEnq<T>(pc: Pc<T>) { pc.EnqWrite? || pc.EnqPublish? || pc.EnqDone? }

  predicate TriesDeq<T>(pc: Pc<T>) { pc.DeqLoad? || pc.DeqSeq? || pc.DeqCas? }

  predicate HasDeq<T>(pc: Pc<T>) { pc.DeqRead? || pc.DeqRelease? || pc.DeqDone? }

  /** What one step that is not a return does to a call. */
  lemma CallStep<T>(s: State<T>, t: Tid, c: Choice<T>)
    requires Step(s, t, c).Some? && !c.Leave?
    ensures var pc, pc' := s.threads[t], Step(s, t, c).value.threads[t];
            && (TriesEnq(pc) ==> pc'.item == pc.item &&
                                 if WinsEnq(s, t, c, s.enqPos) then HasEnq(pc') && pc'.pos == s.enqPos
                                 else TriesEnq(pc') || pc'.EnqFailed?)
            && (HasEnq(pc) ==> HasEnq(pc') && pc'.pos == pc.pos && pc'.item == pc.item)
            && (TriesDeq(pc) ==> if WinsDeq(s, t, c, s.deqPos) then HasDeq(pc') && pc'.pos == s.deqPos
                                 else TriesDeq(pc') || pc'.DeqFailed?)
            && (HasDeq(pc) ==> HasDeq(pc') && pc'.pos == pc.pos)
            && !pc.EnqFailed? && !pc.DeqFailed?
  {
  }

  /** From inside an enqueue call: the ticket it has in the end is the one it won. */
  lemma {:induction false} EnqueueWins<T>(s: State<T>, sched: Schedule<T>, t: Tid) returns (i: nat)
    requires t in s.threads && Exec(s, sched).Some? && Stays(sched, t)
    requires TriesEnq(s.threads[t]) || HasEnq(s.threads[t]) || s.threads[t].EnqFailed?
    ensures t in Exec(s, sched).value.threads
    ensures var pc, pc' := s.threads[t], Exec(s, sched).value.threads[t];
            && (TriesEnq(pc') || HasEnq(pc') || pc'.EnqFailed?) && pc'.item == pc.item
            && (if TriesEnq(pc) && HasEnq(pc') then OneEnqWin(s, sched, i, t, pc'.pos) else NoEnqWin(s, sched, t))
            && (HasEnq(pc) ==> HasEnq(pc') && pc'.pos == pc.pos)
            && (pc.EnqFailed? ==> pc'.EnqFailed?)
    decreases |sched|
  {
    i := 0;
    if sched != [] {
      var (x, c) := sched[0];
      var s' := Step(s, x, c).value;
      PositionsMove(s, x, c);
      if x == t { CallStep(s, t, c); }
      var j := EnqueueWins(s', sched[1..], t);
      if !(x == t && WinsEnq(s, t, c, s.enqPos)) { i := j + 1; }
      forall k: nat, p: nat
        ensures EnqWins(s, sched, k, t, p) <==>
                if k == 0 then x == t && WinsEnq(s, t, c, p) else EnqWins(s', sched[1..], k - 1, t, p)
      {
        WinsSplit(s, sched, t, k, p);
      }
    }
  }

  lemma {:induction false} DequeueWins<T>(s: State<T>, sched: Schedule<T>, t: Tid) returns (i: nat)
    requires t in s.threads && Exec(s, sched).Some? && Stays(sched, t)
    requires TriesDeq(s.threads[t]) || HasDeq(s.threads[t]) || s.threads[t].DeqFailed?
    ensures t in Exec(s, sched).value.threads
    ensures var pc, pc' := s.threads[t], Exec(s, sched).value.threads[t];
            && (TriesDeq(pc') || HasDeq(pc') || pc'.DeqFailed?)
            && (if TriesDeq(pc) && HasDeq(pc') then OneDeqWin(s, sched, i, t, pc'.pos) else NoDeqWin(s, sched, t))
            && (HasDeq(pc) ==> HasDeq(pc') && pc'.pos == pc.pos)
            && (pc.DeqFailed? ==> pc'.DeqFailed?)
    decreases |sched|
  {
    i := 0;
    if sched != [] {
      var (x, c) := sched[0];
      var s' := Step(s, x, c).value;
      PositionsMove(s, x, c);
      if x == t { CallStep(s, t, c); }
      var j := DequeueWins(s', sched[1..], t);
      if !(x == t && WinsDeq(s, t, c, s.deqPos)) { i := j + 1; }
      forall k: nat, p: nat
        ensures DeqWins(s, sched, k, t, p) <==>
                if k == 0 then x == t && WinsDeq(s, t, c, p) else DeqWins(s', sched[1..], k - 1, t, p)
      {
        WinsSplit(s, sched, t, k, p);
      }
    }
  }

  /** An enqueue call among any others, over every schedule. If it returned false, it won no ticket, and
      its last step found the ticket one lap back unreleased. If it returned true, it won exactly one
      ticket, and brought its own item under it. */
  lemma EnqueueCall<T>(s: State<T>, sched: Schedule<T>, t: Tid, item: T) returns (i: nat, u: State<T>, v: State<T>)
    requires Inv(s) && Exec(s, sched).Some? && Stays(sched, t)
    requires sched != [] && sched[0] == (t, CallEnqueue(item))
    ensures t in Exec(s, sched).value.threads
    ensures var end := Exec(s, sched).value;
            match end.threads[t]
            case EnqFailed(x) =>
              x == item && NoEnqWin(s, sched, t) && LastOf(sched, t, i) && Ran(s, sched, i, u, v) && NoRoom(u)
            case EnqDone(x, p) => x == item && OneEnqWin(s, sched, i, t, p)
            case _ => true
  {
    var s' := Step(s, t, sched[0].1).value;
    StepKeepsInv(s, t, sched[0].1);
    i := EnqueueWins(s', sched[1..], t);
    CallIsNoWin(s, sched, t);
    if Exec(s, sched).value.threads[t].EnqFailed? {
      i, u, v := LastStep(s, sched, t);
      CallStepBefore(u, t, sched[i].1);
      FailureJustified(u, t, sched[i].1);
    } else {
      i := i + 1;
      u, v := s, s;
    }
  }

  /** Leaving is the only step from a failed call, and it does not fail. */
  lemma CallStepBefore<T>(u: State<T>, t: Tid, c: Choice<T>)
    requires Step(u, t, c).Some?
    ensures u.threads[t].EnqFailed? ==> !Step(u, t, c).value.threads[t].EnqFailed?
    ensures u.threads[t].DeqFailed? ==> !Step(u, t, c).value.threads[t].DeqFailed?
  {
  }

  /** The call itself is no win. */
  lemma CallIsNoWin<T>(s: State<T>, sched: Schedule<T>, t: Tid)
    requires sched != [] && sched[0].0 == t && !sched[0].1.Run? && Step(s, t, sched[0].1).Some?
    ensures forall k: nat, p: nat :: EnqWins(s, sched, k, t, p)
              <==> k > 0 && EnqWins(Step(s, t, sched[0].1).value, sched[1..], k - 1, t, p)
    ensures forall k: nat, p: nat :: DeqWins(s, sched, k, t, p)
              <==> k > 0 && DeqWins(Step(s, t, sched[0].1).value, sched[1..], k - 1, t, p)
  {
    forall k: nat, p: nat
      ensures EnqWins(s, sched, k, t, p) <==> k > 0 && EnqWins(Step(s, t, sched[0].1).value, sched[1..], k - 1, t, p)
      ensures DeqWins(s, sched, k, t, p) <==> k > 0 && DeqWins(Step(s, t, sched[0].1).value, sched[1..], k - 1, t, p)
    {
      WinsSplit(s, sched, t, k, p);
    }
  }

  /** A dequeue call among any others, over every schedule. If it returned false, it won no ticket, and
      its last step found the head ticket unpublished. If it returned true, it won exactly one ticket,
      and brings back the item enqueued under that. */
  lemma DequeueCall<T>(s: State<T>, sched: Schedule<T>, t: Tid) returns (i: nat, u: State<T>, v: State<T>)
    requires Inv(s) && Exec(s, sched).Some? && Stays(sched, t)
    requires sched != [] && sched[0] == (t, CallDequeue)
    ensures t in Exec(s, sched).value.threads
    ensures var end := Exec(s, sched).value;
            match end.threads[t]
            case DeqFailed =>
              NoDeqWin(s, sched, t) && LastOf(sched, t, i) && Ran(s, sched, i, u, v) && NothingThere(u)
            case DeqDone(p, x) => OneDeqWin(s, sched, i, t, p) && p < |end.log| && end.log[p] == x
            case _ => true
  {
    var s' := Step(s, t, sched[0].1).value;
    StepKeepsInv(s, t, sched[0].1);
    i := DequeueWins(s', sched[1..], t);
    CallIsNoWin(s, sched, t);
    ExecKeepsInv(s, sched);
    assert ThreadOk(Exec(s, sched).value, t);
    if Exec(s, sched).value.threads[t].DeqFailed? {
      i, u, v := LastStep(s, sched, t);
      CallStepBefore(u, t, sched[i].1);
      FailureJustified(u, t, sched[i].1);
    } else {
      i := i + 1;
      u, v := s, s;
    }
  }
}
