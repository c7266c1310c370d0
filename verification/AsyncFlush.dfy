/** What the worker's flushes cover: whenever it has found the queue empty and goes on, every sink has been
    flushed past everything that came before each flush message it took. */
module AsyncFlush {
  import opened Common
  import opened MpmcQueue
  import opened AsyncLogger

  /** Sink `i` was flushed after all its messages among the first `k` tickets. */
  ghost predicate Covers<M>(l: Logger<M>, accepts: Accepts<M>, k: nat, i: nat)
    requires k <= |l.q.log| && i < |l.sinks|
  {
    |Accepted(i, l.q.log[..k], accepts)| <= l.sinks[i].flushed
  }

  /** Every sink covers the tickets before each flush or terminate message handled. */
  ghost predicate AllCovered<M>(l: Logger<M>, accepts: Accepts<M>)
    requires l.handled <= |l.q.log|
  {
    forall k: nat, i: nat :: k < l.handled && !l.q.log[k].LogMsg? && i < |l.sinks| ==> Covers(l, accepts, k, i)
  }

  ghost predicate FlushInv<M>(l: Logger<M>, accepts: Accepts<M>)
  {
    && l.handled <= |l.q.log|
    && (forall i :: 0 <= i < |l.sinks| ==> l.sinks[i].flushed <= |l.sinks[i].contents|)
    && (l.wpc.Deciding? || l.wpc.Exited? ==> !l.flushRequested)
    && (!l.flushRequested ==> AllCovered(l, accepts))
  }

  /** Steps that leave the worker and the sinks alone. */
  lemma FlushFrame<M>(l: Logger<M>, l': Logger<M>, accepts: Accepts<M>)
    requires FlushInv(l, accepts) && l.q.log <= l'.q.log && l'.handled == l.handled && l'.sinks == l.sinks
    requires l'.wpc == l.wpc && l'.flushRequested == l.flushRequested
    ensures FlushInv(l', accepts)
  {
    if !l.flushRequested {
      forall k: nat, i: nat | k < l'.handled && !l'.q.log[k].LogMsg? && i < |l'.sinks|
        ensures Covers(l', accepts, k, i)
      {
        assert l'.q.log[..k] == l.q.log[..k];
        assert Covers(l, accepts, k, i);
      }
    }
  }

  /** Worker steps: `sinks` may grow and be flushed further. */
  lemma WorkerCovers<M>(l: Logger<M>, l': Logger<M>, accepts: Accepts<M>)
    requires FlushInv(l, accepts) && l'.q.log == l.q.log && |l'.sinks| == |l.sinks| && !l.flushRequested
    requires l.handled <= l'.handled <= |l.q.log|
    requires forall k :: l.handled <= k < l'.handled ==> l.q.log[k].LogMsg?
    requires forall i :: 0 <= i < |l.sinks| ==> l.sinks[i].flushed <= l'.sinks[i].flushed
    ensures AllCovered(l', accepts)
  {
    forall k: nat, i: nat | k < l'.handled && !l'.q.log[k].LogMsg? && i < |l'.sinks| ensures Covers(l', accepts, k, i) {
      assert Covers(l, accepts, k, i);
    }
  }

  /** The end of a flush. */
  lemma FlushEnds<M>(l: Logger<M>, l': Logger<M>, accepts: Accepts<M>)
    requires WorkerOk(l) && SinksOk(l, accepts) && !l.wpc.Delivering? && FlushedUpTo(l, |l.sinks|)
    requires l'.q == l.q && l'.handled == l.handled && l'.sinks == l.sinks
    ensures AllCovered(l', accepts)
  {
    forall k: nat, i: nat | k < l'.handled && !l'.q.log[k].LogMsg? && i < |l'.sinks| ensures Covers(l', accepts, k, i) {
      AcceptedPrefix(i, l.q.log, k, l.handled, accepts);
    }
  }

  lemma SinkStepFlush<M>(l: Logger<M>, accepts: Accepts<M>)
    requires WorkerOk(l) && SinksOk(l, accepts) && StopOk(l) && FlushInv(l, accepts)
    requires WorkerStep(l, WorkerSink, accepts).Some?
    ensures FlushInv(WorkerStep(l, WorkerSink, accepts).value, accepts)
  {
    var l' := WorkerStep(l, WorkerSink, accepts).value;
    if l.wpc.Flushing? && l.wpc.next == |l.sinks| {
      FlushEnds(l, l', accepts);
    } else if !l.flushRequested {
      WorkerCovers(l, l', accepts);
    }
  }

  lemma ReturnShape<M>(l: Logger<M>, timer: bool, accepts: Accepts<M>)
    requires WorkerOk(l) && Shape(l.q) && ThreadOk(l.q, l.worker) && WorkerStep(l, WorkerReturn(timer), accepts).Some?
    ensures var l' := WorkerStep(l, WorkerReturn(timer), accepts).value;
            && l'.q.log == l.q.log && l'.sinks == l.sinks && l'.handled <= |l.q.log|
            && (l'.flushRequested || (l'.handled == l.handled && !l.flushRequested))
            && (l'.wpc.Deciding? || l'.wpc.Exited? ==> !l'.flushRequested)
  {
  }

  lemma ReturnFlush<M>(l: Logger<M>, timer: bool, accepts: Accepts<M>)
    requires WorkerOk(l) && Shape(l.q) && ThreadOk(l.q, l.worker) && WorkerStep(l, WorkerReturn(timer), accepts).Some?
    requires FlushInv(l, accepts)
    ensures FlushInv(WorkerStep(l, WorkerReturn(timer), accepts).value, accepts)
  {
    ReturnShape(l, timer, accepts);
    var l' := WorkerStep(l, WorkerReturn(timer), accepts).value;
    if !l'.flushRequested {
      WorkerCovers(l, l', accepts);
    }
  }

  lemma StepFlush<M>(l: Logger<M>, a: Act<M>, accepts: Accepts<M>)
    requires LInv(l, accepts) && FlushInv(l, accepts) && LStep(l, a, accepts).Some?
    ensures FlushInv(LStep(l, a, accepts).value, accepts)
  {
    var l' := LStep(l, a, accepts).value;
    if a.QueueStep? {
      InsideCall(l.q, a.t, a.c);
      FlushFrame(l, l', accepts);
    } else if a.WorkerReturn? {
      ReturnFlush(l, a.timer, accepts);
    } else if a.WorkerSink? {
      SinkStepFlush(l, accepts);
    } else if a.WorkerCall? {
      FlushFrame(l, l', accepts);
    } else {
      ClientActs(l, a);
      assert ClientOk(l, a.t) && ThreadOk(l.q, a.t);
      ClientShape(l, a);
      FlushFrame(l, l', accepts);
    }
  }

  lemma {:induction false} RunFlush<M>(l: Logger<M>, acts: seq<Act<M>>, accepts: Accepts<M>)
    requires LInv(l, accepts) && FlushInv(l, accepts) && LExec(l, acts, accepts).Some?
    ensures FlushInv(LExec(l, acts, accepts).value, accepts)
    decreases |acts|
  {
    if acts != [] {
      StepFlush(l, acts[0], accepts);
      LStepKeeps(l, acts[0], accepts);
      RunFlush(LStep(l, acts[0], accepts).value, acts[1..], accepts);
    }
  }

  lemma ReachedFlush<M>(l: Logger<M>, accepts: Accepts<M>, n: nat, blank: Msg<M>, worker: Tid, tids: set<Tid>,
                        nsinks: nat, discard: bool, acts: seq<Act<M>>)
    requires ReachedBy(l, accepts, n, blank, worker, tids, nsinks, discard, acts)
    ensures LInv(l, accepts) && FlushInv(l, accepts)
  {
    StartOk(n, blank, worker, tids, nsinks, discard, accepts);
    RunFlush(Start(n, blank, worker, tids, nsinks, discard), acts, accepts);
    ReachedLInv(l, accepts, n, blank, worker, tids, nsinks, discard, acts);
  }

  lemma ReachableFlush<M(!new)>(l: Logger<M>, accepts: Accepts<M>)
    requires ReachableLogger(l, accepts)
    ensures LInv(l, accepts) && FlushInv(l, accepts)
  {
    var n, blank, worker, tids, nsinks, discard, acts :|
      ReachedBy(l, accepts, n, blank, worker, tids, nsinks, discard, acts);
    ReachedFlush(l, accepts, n, blank, worker, tids, nsinks, discard, acts);
  }

  lemma CoveredPrefix<M>(l: Logger<M>, accepts: Accepts<M>, k: nat, i: nat)
    requires FlushInv(l, accepts) && SinksOk(l, accepts) && !l.flushRequested
    requires k < l.handled && !l.q.log[k].LogMsg? && i < |l.sinks|
    ensures l.sinks[i].flushed <= |l.sinks[i].contents|
    ensures Accepted(i, l.q.log[..k], accepts) <= l.sinks[i].contents[..l.sinks[i].flushed]
  {
    AcceptedPrefix(i, l.q.log, k, l.handled, accepts);
    assert Covers(l, accepts, k, i);
  }

  /** In every run: when the worker has found the queue empty, flushed if asked to, and is about to poll
      again or to stop, every sink has been flushed past all it was given before each flush message handled;
      and this stays so until the worker takes the next one. */
  lemma FlushesCover<M(!new)>(l: Logger<M>, accepts: Accepts<M>, k: nat, i: nat)
    requires ReachableLogger(l, accepts) && k < l.handled <= |l.q.log| && !l.q.log[k].LogMsg? && i < |l.sinks|
    ensures l.wpc.Deciding? || l.wpc.Exited? ==> !l.flushRequested
    ensures !l.flushRequested ==>
              && l.sinks[i].flushed <= |l.sinks[i].contents|
              && Accepted(i, l.q.log[..k], accepts) <= l.sinks[i].contents[..l.sinks[i].flushed]
  {
    ReachableFlush(l, accepts);
    if !l.flushRequested { CoveredPrefix(l, accepts, k, i); }
  }

  /** About to decide, the worker stops exactly when it has taken a terminate message. */
  lemma StopsIff<M(!new)>(l: Logger<M>, accepts: Accepts<M>)
    requires ReachableLogger(l, accepts) && l.wpc.Deciding?
    ensures LStep(l, WorkerSink, accepts).Some? && l.handled <= |l.q.log|
    ensures LStep(l, WorkerSink, accepts).value.wpc
         == if TerminateMsg in l.q.log[..l.handled] then Exited else Polling
  {
    ReachableLInv(l, accepts);
  }

  // ---------------------------------------------------------------- one pass over the sinks

  function Passes<M>(n: nat): seq<Act<M>> { seq(n, _ => WorkerSink) }

  /** `l'` is `l` after a pass: every sink is flushed, has what it had, and nothing else changed. */
  ghost predicate Passed<M>(l: Logger<M>, l': Logger<M>)
  {
    && l' == l.(wpc := Deciding, flushRequested := false, sinks := l'.sinks) && |l'.sinks| == |l.sinks|
    && forall i :: 0 <= i < |l.sinks| ==> l'.sinks[i] == Sink(l.sinks[i].contents, |l.sinks[i].contents|)
  }

  lemma {:induction false} PassEnds<M>(l: Logger<M>, accepts: Accepts<M>)
    requires l.wpc.Flushing? && l.wpc.next <= |l.sinks| && FlushedUpTo(l, l.wpc.next)
    ensures var end := LExec(l, Passes(|l.sinks| - l.wpc.next + 1), accepts); end.Some? && Passed(l, end.value)
    decreases |l.sinks| - l.wpc.next
  {
    var k := l.wpc.next;
    var acts := Passes<M>(|l.sinks| - k + 1);
    var m := LStep(l, WorkerSink, accepts).value;
    assert acts[0] == WorkerSink && acts[1..] == Passes(|l.sinks| - k);
    if k < |l.sinks| {
      PassEnds(m, accepts);
    } else {
      assert LExec(m, Passes(0), accepts) == Some(m);
    }
  }

  /** On an empty queue the worker flushes all sinks in one pass if it was asked to or if the timer says so,
      and otherwise goes on without touching a sink. */
  lemma EmptyQueue<M>(l: Logger<M>, timer: bool, accepts: Accepts<M>)
    requires LInv(l, accepts) && l.wpc.Polling? && l.q.threads[l.worker].DeqFailed?
    ensures var m := LStep(l, WorkerReturn(timer), accepts);
            && m.Some? && m.value.sinks == l.sinks
            && if l.flushRequested || timer then
                 var end := LExec(m.value, Passes(|l.sinks| + 1), accepts);
                 end.Some? && Passed(m.value, end.value)
               else m.value.wpc.Deciding?
  {
    var m := LStep(l, WorkerReturn(timer), accepts).value;
    if l.flushRequested || timer { PassEnds(m, accepts); }
  }
}
