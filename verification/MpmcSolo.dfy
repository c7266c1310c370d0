/** One call on the bounded queue with no other call in flight: the whole call, from `Idle` to its
    result, however often its compare-and-swap fails spuriously. */
module MpmcSolo {
  import opened Bits
  import opened Common
  import opened MpmcQueue

  /** No call is in flight. */
  ghost predicate Quiet<T>(s: State<T>)
  {
    Inv(s) && forall t :: t in s.threads ==> s.threads[t].Idle?
  }

  /** A schedule of one thread. */
  function By<T>(t: Tid, cs: seq<Choice<T>>): Schedule<T>
  {
    if cs == [] then [] else [(t, cs[0])] + By(t, cs[1..])
  }

  /** The choices that stay inside a call. */
  predicate InsideCall<T>(c: Choice<T>) { c.Run? || c.CasFail? || c.MoveOut? }

  predicate Inside<T>(cs: seq<Choice<T>>)
  {
    forall i :: 0 <= i < |cs| ==> InsideCall(cs[i])
  }

  lemma ExecFirst<T>(s: State<T>, t: Tid, c: Choice<T>, cs: seq<Choice<T>>)
    requires Step(s, t, c).Some?
    ensures Exec(s, By(t, [c] + cs)) == Exec(Step(s, t, c).value, By(t, cs))
  {
    var all := [c] + cs;
    assert all[0] == c && all[1..] == cs;
    assert By(t, all)[0] == (t, c) && By(t, all)[1..] == By(t, cs);
  }

  /** The call made in `s` with these choices has finished. */
  ghost predicate Returns<T>(s: State<T>, t: Tid, call: Choice<T>, cs: seq<Choice<T>>)
  {
    && Inside(cs) && Exec(s, By(t, [call] + cs)).Some?
    && var u := Exec(s, By(t, [call] + cs)).value; t in u.threads && Finished(u.threads[t])
  }

  predicate Full<T>(s: State<T>) { s.enqPos == s.deqPos + s.Cap() }

  predicate Empty<T>(s: State<T>) { s.enqPos == s.deqPos }

  // ---------------------------------------------------------------- enqueue

  /** The cells of `s` after what an enqueue call on its own has written so far. */
  function EnqCells<T>(s: State<T>, pc: Pc<T>): seq<Cell<T>>
    requires s.Cap() > 0
  {
    var k := s.At(s.enqPos);
    if pc.EnqPublish? then s.cells[k := s.cells[k].(data := pc.item)]
    else if pc.EnqDone? then s.cells[k := Cell(s.enqPos + 1, pc.item)]
    else s.cells
  }

  /** `u` is a state of an enqueue call that `t` makes on its own, started in the quiet state `s`. */
  ghost predicate Enqueueing<T>(s: State<T>, u: State<T>, t: Tid, item: T)
  {
    && t in u.threads && u.threads == s.threads[t := u.threads[t]] && u.Cap() == s.Cap() > 0
    && u.deqPos == s.deqPos
    && var pc := u.threads[t];
    && EnqStage(pc) > 0 && pc.item == item && u.cells == EnqCells(s, pc)
    && (EnqOwner(pc) || pc.EnqDone? ==> pc.pos == s.enqPos)
    && (if EnqOwner(pc) || pc.EnqDone? then !Full(s) && u.enqPos == s.enqPos + 1 && u.log == s.log + [item]
        else u.enqPos == s.enqPos && u.log == s.log)
    && (pc.EnqSeq? || pc.EnqCas? ==> pc.pos == s.enqPos)
    && (pc.EnqCas? ==> !Full(s))
    && (pc.EnqFailed? ==> Full(s))
  }

  /** How far a call is from its end; 0 outside `enqueue`. */
  function EnqStage<T>(pc: Pc<T>): nat
  {
    if pc.EnqLoad? then 6 else if pc.EnqSeq? then 5 else if pc.EnqCas? then 4 else if pc.EnqWrite? then 3
    else if pc.EnqPublish? then 2 else if pc.EnqDone? || pc.EnqFailed? then 1 else 0
  }

  /** The load of the cell's sequence number decides between full and not full. */
  lemma EnqueueSeq<T>(s: State<T>, u: State<T>, t: Tid, item: T)
    requires Quiet(s) && Inv(u) && Enqueueing(s, u, t, item) && u.threads[t].EnqSeq?
    ensures Step(u, t, Run).Some? && Enqueueing(s, Step(u, t, Run).value, t, item)
    ensures EnqStage(Step(u, t, Run).value.threads[t]) < EnqStage(u.threads[t])
  {
    SoloFailure(u, t);
    var pos, k := u.enqPos, u.At(u.enqPos);
    var n := u.cells[k].seqno;
    if n > pos && Free(u, k) { ModDistinct(pos, n, u.Cap()); }
    TwoUpdates(s.threads, t, u.threads[t], Step(u, t, Run).value.threads[t]);
  }

  /** All other steps of the call. */
  lemma EnqueueOther<T>(s: State<T>, u: State<T>, t: Tid, item: T, c: Choice<T>)
    requires Enqueueing(s, u, t, item) && !u.threads[t].EnqSeq? && InsideCall(c)
    requires StepEnqueue(u, t, u.threads[t], c).Some?
    ensures Enqueueing(s, StepEnqueue(u, t, u.threads[t], c).value, t, item)
    ensures c.Run? ==> EnqStage(StepEnqueue(u, t, u.threads[t], c).value.threads[t]) < EnqStage(u.threads[t])
  {
    TwoUpdates(s.threads, t, u.threads[t], StepEnqueue(u, t, u.threads[t], c).value.threads[t]);
  }

  /** Inside `enqueue` only its own steps apply. */
  lemma EnqueueOnly<T>(u: State<T>, t: Tid, c: Choice<T>)
    requires |u.cells| > 0 && t in u.threads && EnqStage(u.threads[t]) > 0 && InsideCall(c)
    ensures Step(u, t, c) == StepEnqueue(u, t, u.threads[t], c)
    ensures c.Run? && !Finished(u.threads[t]) ==> Step(u, t, c).Some?
  {
  }

  lemma EnqueueStep<T>(s: State<T>, u: State<T>, t: Tid, item: T, c: Choice<T>)
    requires Quiet(s) && Inv(u) && Enqueueing(s, u, t, item) && InsideCall(c) && Step(u, t, c).Some?
    ensures Inv(Step(u, t, c).value) && Enqueueing(s, Step(u, t, c).value, t, item)
    ensures c.Run? ==> EnqStage(Step(u, t, c).value.threads[t]) < EnqStage(u.threads[t])
  {
    StepKeepsInv(u, t, c);
    EnqueueOnly(u, t, c);
    if u.threads[t].EnqSeq? {
      EnqueueSeq(s, u, t, item);
    } else {
      EnqueueOther(s, u, t, item, c);
    }
  }

  lemma {:induction false} EnqueueRun<T>(s: State<T>, u: State<T>, t: Tid, item: T, cs: seq<Choice<T>>)
    requires Quiet(s) && Inv(u) && Enqueueing(s, u, t, item) && Inside(cs) && Exec(u, By(t, cs)).Some?
    ensures Inv(Exec(u, By(t, cs)).value) && Enqueueing(s, Exec(u, By(t, cs)).value, t, item)
    decreases |cs|
  {
    if cs != [] {
      assert By(t, cs)[1..] == By(t, cs[1..]);
      EnqueueStep(s, u, t, item, cs[0]);
      EnqueueRun(s, Step(u, t, cs[0]).value, t, item, cs[1..]);
    }
  }

  /** Without spurious failures the call ends. */
  lemma {:induction false} EnqueueEnds<T>(s: State<T>, u: State<T>, t: Tid, item: T) returns (cs: seq<Choice<T>>)
    requires Quiet(s) && Inv(u) && Enqueueing(s, u, t, item)
    ensures Inside(cs) && Exec(u, By(t, cs)).Some?
    ensures t in Exec(u, By(t, cs)).value.threads && Finished(Exec(u, By(t, cs)).value.threads[t])
    decreases EnqStage(u.threads[t])
  {
    if Finished(u.threads[t]) {
      cs := [];
    } else {
      EnqueueOnly(u, t, Run);
      EnqueueStep(s, u, t, item, Run);
      var rest := EnqueueEnds(s, Step(u, t, Run).value, t, item);
      cs := [Run] + rest;
      ExecFirst(u, t, Run, rest);
    }
  }

  lemma EnqueueStarts<T>(s: State<T>, t: Tid, item: T)
    requires Quiet(s) && t in s.threads
    ensures Step(s, t, CallEnqueue(item)).Some?
    ensures Inv(Step(s, t, CallEnqueue(item)).value) && Enqueueing(s, Step(s, t, CallEnqueue(item)).value, t, item)
  {
    StepKeepsInv(s, t, CallEnqueue(item));
  }

  lemma EnqueueResult<T>(s: State<T>, u: State<T>, t: Tid, item: T)
    requires Quiet(s) && Inv(u) && Enqueueing(s, u, t, item) && Finished(u.threads[t])
    ensures u.threads[t].EnqFailed? <==> |Abs(s).items| == s.Cap()
    ensures Abs(u).items == Abs(s).items + if u.threads[t].EnqFailed? then [] else [item]
    ensures u == if u.threads[t].EnqFailed? then SetPc(s, t, EnqFailed(item)) else Enqueued(s, t, item)
  {
    if u.threads[t].EnqDone? {
      assert u.log[u.deqPos..u.enqPos] == s.log[s.deqPos..s.enqPos] + [item];
    }
  }

  /** The state after a successful enqueue call on its own. */
  function Enqueued<T>(s: State<T>, t: Tid, item: T): State<T>
    requires s.Cap() > 0
  {
    var pos := s.enqPos;
    State(s.cells[s.At(pos) := Cell(pos + 1, item)], pos + 1, s.deqPos, s.threads[t := EnqDone(item, pos)],
          s.log + [item])
  }

  /** `enqueue` on its own returns false exactly when the queue is full, and then changes nothing, no
      cell and no position; otherwise it appends the item, and writes the one cell of its ticket. */
  lemma SoloEnqueue<T>(s: State<T>, t: Tid, item: T, cs: seq<Choice<T>>)
    requires Quiet(s) && Returns(s, t, CallEnqueue(item), cs)
    ensures var u := Exec(s, By(t, [CallEnqueue(item)] + cs)).value;
            && Inv(u) && (u.threads[t].EnqFailed? <==> |Abs(s).items| == s.Cap())
            && Abs(u).items == Abs(s).items + (if u.threads[t].EnqFailed? then [] else [item])
            && u == if u.threads[t].EnqFailed? then SetPc(s, t, EnqFailed(item)) else Enqueued(s, t, item)
  {
    var c := CallEnqueue(item);
    FirstApplies(s, t, c, cs);
    EnqueueStarts(s, t, item);
    ExecFirst(s, t, c, cs);
    EnqueueRun(s, Step(s, t, c).value, t, item, cs);
    EnqueueResult(s, Exec(s, By(t, [c] + cs)).value, t, item);
  }

  lemma FirstApplies<T>(s: State<T>, t: Tid, c: Choice<T>, cs: seq<Choice<T>>)
    requires Exec(s, By(t, [c] + cs)).Some?
    ensures Step(s, t, c).Some? && t in s.threads
  {
    var all := [c] + cs;
    assert By(t, all)[0] == (t, c);
  }

  /** And it does return. */
  lemma SoloEnqueueReturns<T>(s: State<T>, t: Tid, item: T) returns (cs: seq<Choice<T>>)
    requires Quiet(s) && t in s.threads
    ensures Returns(s, t, CallEnqueue(item), cs)
  {
    EnqueueStarts(s, t, item);
    cs := EnqueueEnds(s, Step(s, t, CallEnqueue(item)).value, t, item);
    ExecFirst(s, t, CallEnqueue(item), cs);
  }

  // ---------------------------------------------------------------- dequeue

  /** What a dequeue call on its own has changed of the cells so far. */
  ghost predicate DeqCells<T>(s: State<T>, cells: seq<Cell<T>>, pc: Pc<T>)
    requires s.Cap() > 0
  {
    var k := s.At(s.deqPos);
    if pc.DeqRelease? then |cells| == s.Cap() && cells == s.cells[k := s.cells[k].(data := cells[k].data)]
    else if pc.DeqDone? then |cells| == s.Cap() && cells == s.cells[k := Cell(s.deqPos + s.Cap(), cells[k].data)]
    else cells == s.cells
  }

  /** `u` is a state of a dequeue call that `t` makes on its own, started in the quiet state `s`. */
  ghost predicate Dequeueing<T>(s: State<T>, u: State<T>, t: Tid)
  {
    && t in u.threads && u.threads == s.threads[t := u.threads[t]] && u.Cap() == s.Cap() > 0
    && u.enqPos == s.enqPos && u.log == s.log
    && var pc := u.threads[t];
    && DeqStage(pc) > 0 && DeqCells(s, u.cells, pc)
    && (if DeqOwner(pc) || pc.DeqDone? then !Empty(s) && u.deqPos == s.deqPos + 1 && pc.pos == s.deqPos
        else u.deqPos == s.deqPos)
    && (pc.DeqSeq? || pc.DeqCas? ==> pc.pos == s.deqPos)
    && (pc.DeqCas? ==> !Empty(s))
    && (pc.DeqFailed? ==> Empty(s))
  }

  /** How far a call is from its end; 0 outside `dequeue`. */
  function DeqStage<T>(pc: Pc<T>): nat
  {
    if pc.DeqLoad? then 6 else if pc.DeqSeq? then 5 else if pc.DeqCas? then 4 else if pc.DeqRead? then 3
    else if pc.DeqRelease? then 2 else if pc.DeqDone? || pc.DeqFailed? then 1 else 0
  }

  /** The load of the cell's sequence number decides between empty and not empty. */
  lemma DequeueSeq<T>(s: State<T>, u: State<T>, t: Tid)
    requires Quiet(s) && Inv(u) && Dequeueing(s, u, t) && u.threads[t].DeqSeq?
    ensures Step(u, t, Run).Some? && Dequeueing(s, Step(u, t, Run).value, t)
    ensures DeqStage(Step(u, t, Run).value.threads[t]) < DeqStage(u.threads[t])
  {
    SoloFailure(u, t);
    var pos, k := u.deqPos, u.At(u.deqPos);
    var n := u.cells[k].seqno;
    if n > pos + 1 { ModDistinct(pos, if Free(u, k) then n else n - 1, u.Cap()); }
    TwoUpdates(s.threads, t, u.threads[t], Step(u, t, Run).value.threads[t]);
  }

  /** All other steps of the call. */
  lemma DequeueOther<T>(s: State<T>, u: State<T>, t: Tid, c: Choice<T>)
    requires Dequeueing(s, u, t) && !u.threads[t].DeqSeq? && InsideCall(c)
    requires StepDequeue(u, t, u.threads[t], c).Some?
    ensures Dequeueing(s, StepDequeue(u, t, u.threads[t], c).value, t)
    ensures !c.CasFail? ==> DeqStage(StepDequeue(u, t, u.threads[t], c).value.threads[t]) < DeqStage(u.threads[t])
  {
    TwoUpdates(s.threads, t, u.threads[t], StepDequeue(u, t, u.threads[t], c).value.threads[t]);
  }

  /** The choice that moves a dequeue call on. */
  function Onward<T>(u: State<T>, t: Tid): (c: Choice<T>)
    requires |u.cells| > 0 && t in u.threads
  {
    if u.threads[t].DeqRead? then MoveOut(u.cells[0].data) else Run
  }

  /** Inside `dequeue` only its own steps apply. */
  lemma DequeueOnly<T>(u: State<T>, t: Tid, c: Choice<T>)
    requires |u.cells| > 0 && t in u.threads && DeqStage(u.threads[t]) > 0 && InsideCall(c)
    ensures Step(u, t, c) == StepDequeue(u, t, u.threads[t], c)
    ensures c == Onward(u, t) && !Finished(u.threads[t]) ==> Step(u, t, c).Some?
  {
  }

  lemma DequeueStep<T>(s: State<T>, u: State<T>, t: Tid, c: Choice<T>)
    requires Quiet(s) && Inv(u) && Dequeueing(s, u, t) && InsideCall(c) && Step(u, t, c).Some?
    ensures Inv(Step(u, t, c).value) && Dequeueing(s, Step(u, t, c).value, t)
    ensures !c.CasFail? ==> DeqStage(Step(u, t, c).value.threads[t]) < DeqStage(u.threads[t])
  {
    StepKeepsInv(u, t, c);
    DequeueOnly(u, t, c);
    if u.threads[t].DeqSeq? {
      DequeueSeq(s, u, t);
    } else {
      DequeueOther(s, u, t, c);
    }
  }

  lemma {:induction false} DequeueRun<T>(s: State<T>, u: State<T>, t: Tid, cs: seq<Choice<T>>)
    requires Quiet(s) && Inv(u) && Dequeueing(s, u, t) && Inside(cs) && Exec(u, By(t, cs)).Some?
    ensures Inv(Exec(u, By(t, cs)).value) && Dequeueing(s, Exec(u, By(t, cs)).value, t)
    decreases |cs|
  {
    if cs != [] {
      assert By(t, cs)[1..] == By(t, cs[1..]);
      DequeueStep(s, u, t, cs[0]);
      DequeueRun(s, Step(u, t, cs[0]).value, t, cs[1..]);
    }
  }

  lemma {:induction false} DequeueEnds<T>(s: State<T>, u: State<T>, t: Tid) returns (cs: seq<Choice<T>>)
    requires Quiet(s) && Inv(u) && Dequeueing(s, u, t)
    ensures Inside(cs) && Exec(u, By(t, cs)).Some?
    ensures t in Exec(u, By(t, cs)).value.threads && Finished(Exec(u, By(t, cs)).value.threads[t])
    decreases DeqStage(u.threads[t])
  {
    if Finished(u.threads[t]) {
      cs := [];
    } else {
      var c := Onward(u, t);
      DequeueOnly(u, t, c);
      DequeueStep(s, u, t, c);
      var rest := DequeueEnds(s, Step(u, t, c).value, t);
      cs := [c] + rest;
      ExecFirst(u, t, c, rest);
    }
  }

  lemma DequeueStarts<T>(s: State<T>, t: Tid)
    requires Quiet(s) && t in s.threads
    ensures Step(s, t, CallDequeue).Some?
    ensures Inv(Step(s, t, CallDequeue).value) && Dequeueing(s, Step(s, t, CallDequeue).value, t)
  {
    StepKeepsInv(s, t, CallDequeue);
  }

  lemma DequeueResult<T>(s: State<T>, u: State<T>, t: Tid)
    requires Quiet(s) && Inv(u) && Dequeueing(s, u, t) && Finished(u.threads[t])
    ensures u.threads[t].DeqFailed? <==> Abs(s).items == []
    ensures if u.threads[t].DeqFailed? then u == SetPc(s, t, DeqFailed)
            else u.threads[t].DeqDone? && Abs(s).items == [u.threads[t].item] + Abs(u).items && Dequeued(s, u, t)
  {
    assert ThreadOk(u, t);
    if u.threads[t].DeqDone? {
      assert s.log[s.deqPos..s.enqPos] == [s.log[s.deqPos]] + u.log[u.deqPos..u.enqPos];
    }
  }

  /** A successful dequeue call on its own has released the one cell of its ticket, whose data is then
      unspecified, and moved one position. */
  ghost predicate Dequeued<T>(s: State<T>, u: State<T>, t: Tid)
    requires s.Cap() > 0
  {
    var pos := s.deqPos;
    && t in u.threads && u.threads[t].DeqDone? && DeqCells(s, u.cells, u.threads[t])
    && u == State(u.cells, s.enqPos, pos + 1, s.threads[t := DeqDone(pos, u.threads[t].item)], s.log)
  }

  /** `dequeue` on its own returns false exactly when the queue is empty, and then changes nothing, no
      cell and no position; otherwise it takes the oldest item. */
  lemma SoloDequeue<T>(s: State<T>, t: Tid, cs: seq<Choice<T>>)
    requires Quiet(s) && Returns(s, t, CallDequeue, cs)
    ensures var u := Exec(s, By(t, [CallDequeue] + cs)).value;
            && Inv(u) && (u.threads[t].DeqFailed? <==> Abs(s).items == [])
            && (if u.threads[t].DeqFailed? then u == SetPc(s, t, DeqFailed)
                else Dequeued(s, u, t) && Abs(s).items == [u.threads[t].item] + Abs(u).items)
  {
    var c: Choice<T> := CallDequeue;
    FirstApplies(s, t, c, cs);
    DequeueStarts(s, t);
    ExecFirst(s, t, c, cs);
    DequeueRun(s, Step(s, t, c).value, t, cs);
    DequeueResult(s, Exec(s, By(t, [c] + cs)).value, t);
  }

  /** And it does return. */
  lemma SoloDequeueReturns<T>(s: State<T>, t: Tid) returns (cs: seq<Choice<T>>)
    requires Quiet(s) && t in s.threads
    ensures Returns(s, t, CallDequeue, cs)
  {
    DequeueStarts(s, t);
    cs := DequeueEnds(s, Step(s, t, CallDequeue).value, t);
    ExecFirst(s, t, CallDequeue, cs);
  }
}
