/** The asynchronous logger on top of the queue: client threads push messages, one worker
    thread takes them, hands them to the sinks, flushes and terminates.

    The state machine interleaves the steps of the queue (`MpmcQueue.Step`) with the steps of
    `push_msg`, `flush`, `wait_empty_q` and `worker_loop`. Sleeping, yielding and the flush
    timer are scheduling choices. Formatter and sinks do not throw. */
module AsyncLogger {
  import opened Common
  import opened MpmcQueue

  datatype Msg<M> = LogMsg(m: M) | FlushMsg | TerminateMsg

  /** `flushed` counts how many of the delivered messages the last flush covered. */
  datatype Sink<M> = Sink(contents: seq<M>, flushed: nat)

  datatype Worker<M> =
    | Polling                        // inside, or about to call, the queue's dequeue
    | Delivering(m: M, next: nat)    // about to visit sink `next`
    | Flushing(next: nat)            // handle_flush_interval, about to flush sink `next`
    | Deciding                       // about to return !_terminate_requested
    | Exited

  datatype Client<M> =
    | Ready
    | Pushing(msg: Msg<M>, wait: bool)             // inside push_msg
    | Waiting(ticket: Option<nat>, before: nat)    // inside wait_empty_q
    | Flushed(ticket: Option<nat>, before: nat)    // flush(true) returned

  /** `handled` counts the tickets the worker has completely processed. In `Waiting` and
      `Flushed`, `ticket` is the ticket of the flush message, unless it was discarded, and
      `before` the number of tickets issued before it (or before it was discarded). */
  datatype Logger<M> = Logger(
    q: State<Msg<M>>,
    worker: Tid,
    wpc: Worker<M>,
    flushRequested: bool,
    terminateRequested: bool,
    sinks: seq<Sink<M>>,
    clients: map<Tid, Client<M>>,
    discard: bool,
    handled: nat)

  datatype Act<M> =
    | QueueStep(t: Tid, c: Choice<Msg<M>>)
    | Log(t: Tid, msg: Msg<M>)          // log(), or the destructor's terminate message
    | Flush(t: Tid, wait: bool)
    | PushReturn(t: Tid)
    | SizeCall(t: Tid)
    | SizeReturn(t: Tid)
    | WorkerCall
    | WorkerReturn(timer: bool)
    | WorkerSink

  type Accepts<!M> = (nat, M) -> bool

  function Queue<M>(l: Logger<M>, t: Tid, c: Choice<Msg<M>>): Option<Logger<M>>
  {
    var r := Step(l.q, t, c);
    if r.Some? then Some(l.(q := r.value)) else None
  }

  function SetClient<M>(l: Logger<M>, t: Tid, c: Client<M>): Logger<M>
  {
    l.(clients := l.clients[t := c])
  }

  predicate CanCall<M>(c: Client<M>)
  {
    c.Ready? || c.Flushed?
  }

  /** push_msg and flush, as far as the client's own steps go. */
  function ClientStep<M>(l: Logger<M>, a: Act<M>): Option<Logger<M>>
  {
    match a
    case Log(t, msg) =>
      if t in l.clients && CanCall(l.clients[t]) && !msg.FlushMsg?
      then Queue(SetClient(l, t, Pushing(msg, false)), t, CallEnqueue(msg)) else None
    case Flush(t, wait) =>
      if t in l.clients && CanCall(l.clients[t])
      then Queue(SetClient(l, t, Pushing(FlushMsg, wait)), t, CallEnqueue(FlushMsg)) else None
    case PushReturn(t) =>
      if !(t in l.clients && l.clients[t].Pushing? && t in l.q.threads) then None
      else
        var Pushing(msg, wait) := l.clients[t];
        var pc := l.q.threads[t];
        if pc.EnqDone? then
          Queue(SetClient(l, t, if wait then Waiting(Some(pc.pos), pc.pos) else Ready), t, Leave)
        else if pc.EnqFailed? && l.discard then
          Queue(SetClient(l, t, if wait then Waiting(None, l.q.enqPos) else Ready), t, Leave)
        else if pc.EnqFailed? then
          // block_retry: the same message is pushed again
          var r := Step(l.q, t, Leave);
          if r.Some? then Queue(l.(q := r.value), t, CallEnqueue(msg)) else None
        else None
    case SizeCall(t) =>
      if t in l.clients && l.clients[t].Waiting? then Queue(l, t, CallApproxSize) else None
    case SizeReturn(t) =>
      if !(t in l.clients && l.clients[t].Waiting? && t in l.q.threads && l.q.threads[t].SizeDone?) then None
      else
        var Waiting(ticket, before) := l.clients[t];
        Queue(if l.q.threads[t].size == 0 then SetClient(l, t, Flushed(ticket, before)) else l, t, Leave)
    case _ => None
  }

  /** worker_loop, process_next_msg and handle_flush_interval. */
  function WorkerStep<M>(l: Logger<M>, a: Act<M>, accepts: Accepts<M>): Option<Logger<M>>
  {
    match a
    case WorkerCall => if l.wpc.Polling? then Queue(l, l.worker, CallDequeue) else None
    case WorkerReturn(timer) =>
      if !(l.wpc.Polling? && l.worker in l.q.threads) then None
      else
        var pc := l.q.threads[l.worker];
        if pc.DeqDone? then
          var l' := match pc.item
            case FlushMsg => l.(flushRequested := true, handled := l.handled + 1)
            case TerminateMsg =>
              l.(flushRequested := true, terminateRequested := true, handled := l.handled + 1)
            case LogMsg(m) => l.(wpc := Delivering(m, 0));
          Queue(l', l.worker, Leave)
        else if pc.DeqFailed? then
          Queue(l.(wpc := if l.flushRequested || timer then Flushing(0) else Deciding), l.worker, Leave)
        else None
    case WorkerSink =>
      (match l.wpc
       case Delivering(m, i) =>
         if i < |l.sinks| then
           var sink := l.sinks[i];
           var sink' := if accepts(i, m) then sink.(contents := sink.contents + [m]) else sink;
           Some(l.(sinks := l.sinks[i := sink'], wpc := Delivering(m, i + 1)))
         else
           Some(l.(wpc := Polling, handled := l.handled + 1))
       case Flushing(i) =>
         if i < |l.sinks| then
           Some(l.(sinks := l.sinks[i := l.sinks[i].(flushed := |l.sinks[i].contents|)], wpc := Flushing(i + 1)))
         else
           Some(l.(wpc := Deciding, flushRequested := false))
       case Deciding => Some(l.(wpc := if l.terminateRequested then Exited else Polling))
       case _ => None)
    case _ => None
  }

  function LStep<M>(l: Logger<M>, a: Act<M>, accepts: Accepts<M>): Option<Logger<M>>
  {
    match a
    case QueueStep(t, c) => if c.Run? || c.CasFail? || c.MoveOut? then Queue(l, t, c) else None
    case WorkerCall => WorkerStep(l, a, accepts)
    case WorkerReturn(_) => WorkerStep(l, a, accepts)
    case WorkerSink => WorkerStep(l, a, accepts)
    case _ => ClientStep(l, a)
  }

  function LExec<M>(l: Logger<M>, acts: seq<Act<M>>, accepts: Accepts<M>): Option<Logger<M>>
    decreases |acts|
  {
    if acts == [] then Some(l)
    else
      var m := LStep(l, acts[0], accepts);
      if m.None? then None else LExec(m.value, acts[1..], accepts)
  }

  function Start<M>(n: nat, blank: Msg<M>, worker: Tid, tids: set<Tid>, nsinks: nat, discard: bool): Logger<M>
  {
    Logger(Fresh(n, blank, tids + {worker}), worker, Polling, false, false,
           seq(nsinks, _ => Sink([], 0)), map t | t in tids :: Ready, discard, 0)
  }

  // ---------------------------------------------------------------- invariant

  /** What sink `i` must hold after the messages `ms`: the accepted log messages in order. */
  function Accepted<M>(i: nat, ms: seq<Msg<M>>, accepts: Accepts<M>): seq<M>
  {
    if ms == [] then []
    else
      var last := ms[|ms| - 1];
      Accepted(i, ms[..|ms| - 1], accepts)
      + if last.LogMsg? && accepts(i, last.m) then [last.m] else []
  }

  predicate EnqPoint<M>(pc: Pc<M>)
  {
    pc.EnqLoad? || pc.EnqSeq? || pc.EnqCas? || EnqOwner(pc) || pc.EnqDone? || pc.EnqFailed?
  }

  predicate DeqPoint<M>(pc: Pc<M>)
  {
    pc.DeqLoad? || pc.DeqSeq? || pc.DeqCas? || DeqOwner(pc) || pc.DeqDone? || pc.DeqFailed?
  }

  predicate SizePoint<M>(pc: Pc<M>)
  {
    pc.SizeFirst? || pc.SizeLast? || pc.SizeDone?
  }

  /** The worker has taken ticket `handled` and not finished with it. */
  ghost predicate InHand<M>(l: Logger<M>)
    requires l.worker in l.q.threads
  {
    var pc := l.q.threads[l.worker];
    DeqOwner(pc) || pc.DeqDone? || l.wpc.Delivering?
  }

  ghost predicate WorkerOk<M>(l: Logger<M>)
  {
    && l.worker in l.q.threads && l.worker !in l.clients
    && var pc := l.q.threads[l.worker];
    && (pc.Idle? || (l.wpc.Polling? && DeqPoint(pc)))
    && l.handled <= |l.q.log|
    && l.q.deqPos == (if InHand(l) then l.handled + 1 else l.handled)
    && (DeqOwner(pc) || pc.DeqDone? ==> pc.pos == l.handled)
    && (l.wpc.Delivering? ==> l.handled < |l.q.log| && l.q.log[l.handled] == LogMsg(l.wpc.m)
                              && l.wpc.next <= |l.sinks|)
    && (l.wpc.Flushing? ==> l.wpc.next <= |l.sinks|)
  }

  /** Sink `i` has been visited for the message in hand. */
  ghost predicate Visited<M>(l: Logger<M>, i: nat, accepts: Accepts<M>)
  {
    l.wpc.Delivering? && i < l.wpc.next && accepts(i, l.wpc.m)
  }

  ghost predicate SinksOk<M>(l: Logger<M>, accepts: Accepts<M>)
    requires l.handled <= |l.q.log|
  {
    forall i :: 0 <= i < |l.sinks| ==>
      l.sinks[i].contents == Accepted(i, l.q.log[..l.handled], accepts)
                             + (if Visited(l, i, accepts) then [l.wpc.m] else [])
  }

  ghost predicate FlushedUpTo<M>(l: Logger<M>, n: nat)
  {
    forall i :: 0 <= i < n && i < |l.sinks| ==> l.sinks[i].flushed == |l.sinks[i].contents|
  }

  ghost predicate StopOk<M>(l: Logger<M>)
    requires l.handled <= |l.q.log|
  {
    && (l.terminateRequested <==> TerminateMsg in l.q.log[..l.handled])
    && (l.terminateRequested && !l.wpc.Deciding? && !l.wpc.Exited? ==> l.flushRequested)
    && (l.wpc.Flushing? ==> FlushedUpTo(l, l.wpc.next))
    && (l.wpc.Deciding? && l.terminateRequested ==> FlushedUpTo(l, |l.sinks|))
    && (l.wpc.Exited? ==> l.terminateRequested && FlushedUpTo(l, |l.sinks|))
  }

  ghost predicate ClientOk<M>(l: Logger<M>, t: Tid)
    requires t in l.clients
  {
    && t in l.q.threads
    && var pc := l.q.threads[t];
    match l.clients[t]
    case Ready => pc.Idle?
    case Pushing(msg, wait) => EnqPoint(pc) && pc.item == msg && (wait ==> msg.FlushMsg?)
    case Waiting(ticket, before) =>
      && (pc.Idle? || SizePoint(pc))
      && TicketOk(l, ticket, before)
      && (pc.SizeDone? ==> (pc.size == 0 <==> pc.last <= pc.first)
                           && before <= pc.last && (ticket.Some? ==> before < pc.last))
    case Flushed(ticket, before) =>
      pc.Idle? && TicketOk(l, ticket, before)
      && (ticket.Some? ==> before < l.q.deqPos && before <= l.handled) && before <= l.handled + 1
  }

  ghost predicate TicketOk<M>(l: Logger<M>, ticket: Option<nat>, before: nat)
  {
    && before <= |l.q.log|
    && (ticket.Some? ==> ticket.value == before < |l.q.log| && l.q.log[before] == FlushMsg)
    && (ticket.None? ==> l.discard)
  }

  ghost predicate ThreadsKnown<M>(l: Logger<M>)
  {
    && (forall t :: t in l.clients ==> ClientOk(l, t))
    && (forall t :: t in l.q.threads ==> t == l.worker || t in l.clients)
  }

  ghost predicate LInv<M>(l: Logger<M>, accepts: Accepts<M>)
  {
    Inv(l.q) && Rest(l, accepts)
  }

  ghost predicate Rest<M>(l: Logger<M>, accepts: Accepts<M>)
  {
    WorkerOk(l) && SinksOk(l, accepts) && StopOk(l) && ThreadsKnown(l)
  }

  // ---------------------------------------------------------------- preservation

  lemma {:induction false} StartOk<M>(n: nat, blank: Msg<M>, worker: Tid, tids: set<Tid>, nsinks: nat,
                                      discard: bool, accepts: Accepts<M>)
    requires n >= 2 && worker !in tids
    ensures LInv(Start(n, blank, worker, tids, nsinks, discard), accepts)
  {
    FreshOk(n, blank, tids + {worker});
  }

  // What one atomic step inside a queue call can do, seen from the logger.

  ghost predicate EnqMove<T>(s: State<T>, s': State<T>, pc: Pc<T>, pc': Pc<T>)
  {
    EnqPoint(pc) ==> EnqPoint(pc') && pc'.item == pc.item && s'.deqPos == s.deqPos
  }

  ghost predicate SizeMove<T>(s: State<T>, s': State<T>, pc: Pc<T>, pc': Pc<T>)
  {
    SizePoint(pc) ==>
      && SizePoint(pc') && s'.deqPos == s.deqPos && s'.log == s.log
      && (pc'.SizeDone? ==> (pc'.size == 0 <==> pc'.last <= pc'.first) && pc'.last == s.enqPos)
  }

  ghost predicate DeqMove<T>(s: State<T>, s': State<T>, pc: Pc<T>, pc': Pc<T>)
  {
    DeqPoint(pc) ==>
      && DeqPoint(pc') && s'.log == s.log
      && (if DeqOwner(pc) then (DeqOwner(pc') || pc'.DeqDone?) && pc'.pos == pc.pos && s'.deqPos == s.deqPos
          else if DeqOwner(pc') then pc'.pos == s.deqPos && s'.deqPos == s.deqPos + 1
          else !pc'.DeqDone? && s'.deqPos == s.deqPos)
  }

  lemma PcMoves<T>(s: State<T>, t: Tid, c: Choice<T>)
    requires |s.cells| > 0 && Step(s, t, c).Some? && (c.Run? || c.CasFail? || c.MoveOut?)
    ensures var s' := Step(s, t, c).value;
            && t in s'.threads && s'.threads == s.threads[t := s'.threads[t]]
            && (EnqPoint(s.threads[t]) || DeqPoint(s.threads[t]) || SizePoint(s.threads[t]))
            && !s.threads[t].DeqDone?
            && EnqMove(s, s', s.threads[t], s'.threads[t])
            && DeqMove(s, s', s.threads[t], s'.threads[t])
            && SizeMove(s, s', s.threads[t], s'.threads[t])
  {
    var pc := s.threads[t];
    if StepEnqueue(s, t, pc, c).Some? {
      EnqMoves(s, t, c);
    } else if StepDequeue(s, t, pc, c).Some? {
      DeqMoves(s, t, c);
    }
  }

  lemma EnqMoves<T>(s: State<T>, t: Tid, c: Choice<T>)
    requires |s.cells| > 0 && t in s.threads && StepEnqueue(s, t, s.threads[t], c).Some?
    ensures var s' := StepEnqueue(s, t, s.threads[t], c).value;
            && EnqPoint(s.threads[t]) && t in s'.threads && s'.threads == s.threads[t := s'.threads[t]]
            && EnqMove(s, s', s.threads[t], s'.threads[t])
  {
  }

  lemma DeqMoves<T>(s: State<T>, t: Tid, c: Choice<T>)
    requires |s.cells| > 0 && t in s.threads && StepDequeue(s, t, s.threads[t], c).Some?
    ensures var s' := StepDequeue(s, t, s.threads[t], c).value;
            && DeqPoint(s.threads[t]) && !s.threads[t].DeqDone?
            && t in s'.threads && s'.threads == s.threads[t := s'.threads[t]]
            && DeqMove(s, s', s.threads[t], s'.threads[t])
  {
  }

  lemma InsideCall<T>(s: State<T>, t: Tid, c: Choice<T>)
    requires Inv(s) && Step(s, t, c).Some? && (c.Run? || c.CasFail? || c.MoveOut?)
    ensures var s' := Step(s, t, c).value;
            && Inv(s') && s.log <= s'.log
            && t in s'.threads && s'.threads == s.threads[t := s'.threads[t]]
            && (EnqPoint(s.threads[t]) || DeqPoint(s.threads[t]) || SizePoint(s.threads[t]))
            && !s.threads[t].DeqDone?
            && EnqMove(s, s', s.threads[t], s'.threads[t])
            && DeqMove(s, s', s.threads[t], s'.threads[t])
            && SizeMove(s, s', s.threads[t], s'.threads[t])
  {
    StepKeepsInv(s, t, c);
    StepRefines(s, t, c);
    PcMoves(s, t, c);
  }

  lemma {:induction false} AcceptedExtend<M>(i: nat, log: seq<Msg<M>>, n: nat, accepts: Accepts<M>)
    requires n < |log|
    ensures Accepted(i, log[..n + 1], accepts)
         == Accepted(i, log[..n], accepts)
            + if log[n].LogMsg? && accepts(i, log[n].m) then [log[n].m] else []
  {
    assert log[..n + 1][..n] == log[..n];
    assert log[..n + 1][n] == log[n];
  }

  /** The sinks and the stop flags only depend on the handled prefix of the log. */
  lemma LogGrows<M>(l: Logger<M>, l': Logger<M>, accepts: Accepts<M>)
    requires l.handled <= |l.q.log| && l.q.log <= l'.q.log
    requires l' == l.(q := l'.q, clients := l'.clients)
    requires SinksOk(l, accepts) && StopOk(l)
    ensures SinksOk(l', accepts) && StopOk(l')
  {
    assert l'.q.log[..l.handled] == l.q.log[..l.handled];
  }

  lemma ClientFrame<M>(l: Logger<M>, l': Logger<M>, t: Tid)
    requires t in l.clients && t in l'.clients && ClientOk(l, t)
    requires t in l'.q.threads && l'.q.threads[t] == l.q.threads[t] && l'.clients[t] == l.clients[t]
    requires l.q.log <= l'.q.log && l.handled <= l'.handled && l'.discard == l.discard
    requires l.q.deqPos <= l'.q.deqPos
    ensures ClientOk(l', t)
  {
  }

  /** A step inside a queue call. */
  lemma QueueStepKeeps<M>(l: Logger<M>, t: Tid, c: Choice<Msg<M>>, accepts: Accepts<M>)
    requires LInv(l, accepts) && (c.Run? || c.CasFail? || c.MoveOut?) && Step(l.q, t, c).Some?
    ensures LInv(l.(q := Step(l.q, t, c).value), accepts)
  {
    InsideCall(l.q, t, c);
    QueueMoves(l, l.(q := Step(l.q, t, c).value), t, accepts);
  }

  /** What a step inside a queue call means for the logger, whatever the step was. */
  lemma QueueMoves<M>(l: Logger<M>, l': Logger<M>, t: Tid, accepts: Accepts<M>)
    requires Rest(l, accepts) && l' == l.(q := l'.q) && t in l.q.threads && t in l'.q.threads
    requires l.q.log <= l'.q.log && l'.q.threads == l.q.threads[t := l'.q.threads[t]]
    requires EnqPoint(l.q.threads[t]) || DeqPoint(l.q.threads[t]) || SizePoint(l.q.threads[t])
    requires !l.q.threads[t].DeqDone?
    requires EnqMove(l.q, l'.q, l.q.threads[t], l'.q.threads[t])
    requires DeqMove(l.q, l'.q, l.q.threads[t], l'.q.threads[t])
    requires SizeMove(l.q, l'.q, l.q.threads[t], l'.q.threads[t])
    requires l.q.enqPos == |l.q.log|
    ensures Rest(l', accepts)
  {
    LogGrows(l, l', accepts);
    WorkerMove(l, l', t);
    forall u | u in l'.clients ensures ClientOk(l', u) {
      assert ClientOk(l, u);
      if u != t { ClientFrame(l, l', u); } else { ClientMove(l, l', u); }
    }
  }

  lemma WorkerMove<M>(l: Logger<M>, l': Logger<M>, t: Tid)
    requires WorkerOk(l) && l' == l.(q := l'.q) && t in l.q.threads && t in l'.q.threads
    requires l.q.log <= l'.q.log && l'.q.threads == l.q.threads[t := l'.q.threads[t]]
    requires EnqPoint(l.q.threads[t]) || DeqPoint(l.q.threads[t]) || SizePoint(l.q.threads[t])
    requires !l.q.threads[t].DeqDone?
    requires t == l.worker || !DeqPoint(l.q.threads[t])
    requires EnqMove(l.q, l'.q, l.q.threads[t], l'.q.threads[t])
    requires DeqMove(l.q, l'.q, l.q.threads[t], l'.q.threads[t])
    requires SizeMove(l.q, l'.q, l.q.threads[t], l'.q.threads[t])
    ensures WorkerOk(l') && l.q.deqPos <= l'.q.deqPos
  {
  }

  lemma ClientMove<M>(l: Logger<M>, l': Logger<M>, t: Tid)
    requires t in l.clients && ClientOk(l, t) && l' == l.(q := l'.q) && t in l'.q.threads
    requires l.q.log <= l'.q.log && l.q.enqPos == |l.q.log|
    requires EnqPoint(l.q.threads[t]) || DeqPoint(l.q.threads[t]) || SizePoint(l.q.threads[t])
    requires EnqMove(l.q, l'.q, l.q.threads[t], l'.q.threads[t])
    requires SizeMove(l.q, l'.q, l.q.threads[t], l'.q.threads[t])
    ensures ClientOk(l', t)
  {
    var pc, pc' := l.q.threads[t], l'.q.threads[t];
    match l.clients[t]
    case Pushing(msg, wait) => assert EnqPoint(pc') && pc'.item == msg;
    case Waiting(ticket, before) =>
      assert SizePoint(pc);
      assert TicketOk(l', ticket, before);
      assert pc'.SizeDone? ==> (pc'.size == 0 <==> pc'.last <= pc'.first);
      assert pc'.SizeDone? ==> before <= pc'.last;
    case _ =>
  }

  /** Entering or leaving a queue call changes one program counter and nothing shared. */
  lemma EdgeOfCall<T>(s: State<T>, t: Tid, c: Choice<T>)
    requires Inv(s) && Step(s, t, c).Some? && !(c.Run? || c.CasFail? || c.MoveOut?)
    ensures var s' := Step(s, t, c).value;
            Inv(s') && s' == SetPc(s, t, s'.threads[t]) && (c.Leave? ==> s'.threads[t].Idle?)
  {
    StepKeepsInv(s, t, c);
  }

  // Client steps.

  lemma ClientEdge<M>(l: Logger<M>, l': Logger<M>, t: Tid, accepts: Accepts<M>)
    requires Rest(l, accepts) && t in l.clients && t in l'.q.threads && t in l'.clients
    requires l' == l.(q := SetPc(l.q, t, l'.q.threads[t]), clients := l.clients[t := l'.clients[t]])
    requires ClientOk(l', t)
    ensures Rest(l', accepts)
  {
    LogGrows(l, l', accepts);
    forall u | u in l'.clients ensures ClientOk(l', u) {
      if u != t { ClientFrame(l, l', u); }
    }
  }

  /** `l'` differs from `l` in client `t` only, and `t` owns no ticket on either side. */
  ghost predicate Edge<M>(l: Logger<M>, l': Logger<M>, t: Tid)
  {
    && t in l.q.threads && t in l'.q.threads && t in l'.clients
    && l' == l.(q := SetPc(l.q, t, l'.q.threads[t]), clients := l.clients[t := l'.clients[t]])
    && !EnqOwner(l.q.threads[t]) && !DeqOwner(l.q.threads[t])
    && (l'.q.threads[t].Idle? || l'.q.threads[t].EnqLoad? || l'.q.threads[t].SizeFirst?)
  }

  lemma EdgeBy<M>(l: Logger<M>, t: Tid, c: Client<M>, pc: Pc<Msg<M>>)
    requires t in l.q.threads && !EnqOwner(l.q.threads[t]) && !DeqOwner(l.q.threads[t])
    requires pc.Idle? || pc.EnqLoad? || pc.SizeFirst?
    ensures Edge(l, l.(q := SetPc(l.q, t, pc), clients := l.clients[t := c]), t)
  {
  }

  lemma LogShape<M>(l: Logger<M>, a: Act<M>)
    requires (a.Log? || a.Flush?) && ClientStep(l, a).Some? && a.t in l.clients && ClientOk(l, a.t)
    ensures Edge(l, ClientStep(l, a).value, a.t) && ClientOk(ClientStep(l, a).value, a.t)
  {
    if a.Log? {
      EdgeBy(l, a.t, Pushing(a.msg, false), EnqLoad(a.msg));
    } else {
      EdgeBy(l, a.t, Pushing(FlushMsg, a.wait), EnqLoad(FlushMsg));
    }
  }

  lemma PushReturnShape<M>(l: Logger<M>, t: Tid)
    requires ClientStep(l, PushReturn(t)).Some? && t in l.clients && ClientOk(l, t)
    requires Shape(l.q) && ThreadOk(l.q, t)
    ensures Edge(l, ClientStep(l, PushReturn(t)).value, t) && ClientOk(ClientStep(l, PushReturn(t)).value, t)
  {
    var Pushing(msg, wait) := l.clients[t];
    var pc := l.q.threads[t];
    if pc.EnqDone? {
      EdgeBy(l, t, if wait then Waiting(Some(pc.pos), pc.pos) else Ready, Idle);
    } else if l.discard {
      EdgeBy(l, t, if wait then Waiting(None, l.q.enqPos) else Ready, Idle);
    } else {
      EdgeBy(l, t, l.clients[t], EnqLoad(msg));
      assert l.clients[t := l.clients[t]] == l.clients;
      assert SetPc(SetPc(l.q, t, Idle), t, EnqLoad(msg)) == SetPc(l.q, t, EnqLoad(msg));
    }
  }

  lemma SizeShape<M>(l: Logger<M>, a: Act<M>)
    requires (a.SizeCall? || a.SizeReturn?) && ClientStep(l, a).Some? && a.t in l.clients && ClientOk(l, a.t)
    requires Shape(l.q) && ThreadOk(l.q, a.t) && l.q.deqPos <= l.handled + 1
    ensures Edge(l, ClientStep(l, a).value, a.t) && ClientOk(ClientStep(l, a).value, a.t)
  {
    var t := a.t;
    assert l.clients[t := l.clients[t]] == l.clients;
    if a.SizeCall? {
      EdgeBy(l, t, l.clients[t], SizeFirst);
    } else {
      var Waiting(ticket, before) := l.clients[t];
      EdgeBy(l, t, if l.q.threads[t].size == 0 then Flushed(ticket, before) else l.clients[t], Idle);
    }
  }

  lemma ClientStepKeeps<M>(l: Logger<M>, a: Act<M>, accepts: Accepts<M>)
    requires LInv(l, accepts) && ClientStep(l, a).Some?
    ensures LInv(ClientStep(l, a).value, accepts)
  {
    ClientActs(l, a);
    assert ClientOk(l, a.t) && ThreadOk(l.q, a.t);
    ClientShape(l, a);
    ClientEdgeKeeps(l, ClientStep(l, a).value, a.t, accepts);
  }

  lemma ClientActs<M>(l: Logger<M>, a: Act<M>)
    requires ClientStep(l, a).Some?
    ensures (a.Log? || a.Flush? || a.PushReturn? || a.SizeCall? || a.SizeReturn?) && a.t in l.clients
  {
  }

  lemma ClientShape<M>(l: Logger<M>, a: Act<M>)
    requires (a.Log? || a.Flush? || a.PushReturn? || a.SizeCall? || a.SizeReturn?) && ClientStep(l, a).Some?
    requires a.t in l.clients && ClientOk(l, a.t)
    requires Shape(l.q) && ThreadOk(l.q, a.t) && l.q.deqPos <= l.handled + 1
    ensures Edge(l, ClientStep(l, a).value, a.t) && ClientOk(ClientStep(l, a).value, a.t)
  {
    if a.PushReturn? {
      PushReturnShape(l, a.t);
    } else if a.SizeCall? || a.SizeReturn? {
      SizeShape(l, a);
    } else {
      LogShape(l, a);
    }
  }

  lemma ClientEdgeKeeps<M>(l: Logger<M>, l': Logger<M>, t: Tid, accepts: Accepts<M>)
    requires LInv(l, accepts) && t in l.clients && Edge(l, l', t) && ClientOk(l', t)
    ensures LInv(l', accepts)
  {
    PcOnly(l.q, t, l'.q.threads[t]);
    ClientEdge(l, l', t, accepts);
  }

  // Worker steps.

  /** Finishing the message in hand. */
  lemma Finish<M>(l: Logger<M>, l': Logger<M>, accepts: Accepts<M>)
    requires Rest(l, accepts) && InHand(l) && l.handled < |l.q.log|
    requires l' == l.(q := SetPc(l.q, l.worker, Idle), wpc := Polling, handled := l.handled + 1,
                      flushRequested := l'.flushRequested, terminateRequested := l'.terminateRequested)
    requires match l.q.log[l.handled]
             case LogMsg(m) => l.wpc == Delivering(m, |l.sinks|)
                               && l'.flushRequested == l.flushRequested && l'.terminateRequested == l.terminateRequested
             case FlushMsg => l.wpc.Polling? && l'.flushRequested && l'.terminateRequested == l.terminateRequested
             case TerminateMsg => l.wpc.Polling? && l'.flushRequested && l'.terminateRequested
    ensures Rest(l', accepts)
  {
    var n := l.handled;
    assert l.q.log[..n + 1] == l.q.log[..n] + [l.q.log[n]];
    forall i | 0 <= i < |l.sinks| ensures l'.sinks[i].contents == Accepted(i, l.q.log[..n + 1], accepts) {
      AcceptedExtend(i, l.q.log, n, accepts);
    }
    forall u | u in l'.clients ensures ClientOk(l', u) {
      ClientFrame(l, l', u);
    }
  }

  /** Worker steps that finish no message. */
  lemma WorkerMoves<M>(l: Logger<M>, l': Logger<M>, accepts: Accepts<M>)
    requires Rest(l, accepts) && l.worker in l'.q.threads
    requires l' == l.(q := SetPc(l.q, l.worker, l'.q.threads[l.worker]), wpc := l'.wpc, sinks := l'.sinks,
                      flushRequested := l'.flushRequested)
    requires WorkerOk(l') && SinksOk(l', accepts) && StopOk(l')
    ensures Rest(l', accepts)
  {
    forall u | u in l'.clients ensures ClientOk(l', u) {
      ClientFrame(l, l', u);
    }
  }

  lemma WorkerEdgeKeeps<M>(l: Logger<M>, a: Act<M>, accepts: Accepts<M>)
    requires LInv(l, accepts) && (a.WorkerCall? || a.WorkerReturn?) && WorkerStep(l, a, accepts).Some?
    ensures LInv(WorkerStep(l, a, accepts).value, accepts)
  {
    var l' := WorkerStep(l, a, accepts).value;
    EdgeOfCall(l.q, l.worker, if a.WorkerCall? then CallDequeue else Leave);
    assert ThreadOk(l.q, l.worker);
    WorkerEdgeRest(l, a, accepts);
  }

  lemma WorkerEdgeRest<M>(l: Logger<M>, a: Act<M>, accepts: Accepts<M>)
    requires Rest(l, accepts) && (a.WorkerCall? || a.WorkerReturn?) && WorkerStep(l, a, accepts).Some?
    requires Shape(l.q) && ThreadOk(l.q, l.worker)
    ensures Rest(WorkerStep(l, a, accepts).value, accepts)
  {
    var l' := WorkerStep(l, a, accepts).value;
    if a.WorkerReturn? && l.q.threads[l.worker].DeqDone? && !l.q.threads[l.worker].item.LogMsg? {
      Finish(l, l', accepts);
    } else {
      WorkerMoves(l, l', accepts);
    }
  }

  lemma WorkerSinkKeeps<M>(l: Logger<M>, accepts: Accepts<M>)
    requires Rest(l, accepts) && WorkerStep(l, WorkerSink, accepts).Some?
    ensures Rest(WorkerStep(l, WorkerSink, accepts).value, accepts)
    ensures WorkerStep(l, WorkerSink, accepts).value.q == l.q
  {
    var l' := WorkerStep(l, WorkerSink, accepts).value;
    assert l'.q == SetPc(l.q, l.worker, Idle);
    if l'.handled != l.handled {
      Finish(l, l', accepts);
    } else {
      if l.wpc.Delivering? {
        DeliverKeeps(l, accepts);
      } else {
        FlushKeeps(l, accepts);
      }
      WorkerMoves(l, l', accepts);
    }
  }

  /** Handing the message in hand to one sink. */
  lemma DeliverKeeps<M>(l: Logger<M>, accepts: Accepts<M>)
    requires WorkerOk(l) && SinksOk(l, accepts) && StopOk(l)
    requires l.wpc.Delivering? && l.wpc.next < |l.sinks|
    ensures var l' := WorkerStep(l, WorkerSink, accepts).value; WorkerOk(l') && SinksOk(l', accepts) && StopOk(l')
  {
  }

  /** Flushing one sink, ending the flush, or deciding whether to go on. */
  lemma FlushKeeps<M>(l: Logger<M>, accepts: Accepts<M>)
    requires WorkerOk(l) && SinksOk(l, accepts) && StopOk(l)
    requires (l.wpc.Flushing? || l.wpc.Deciding?) && WorkerStep(l, WorkerSink, accepts).Some?
    ensures var l' := WorkerStep(l, WorkerSink, accepts).value; WorkerOk(l') && SinksOk(l', accepts) && StopOk(l')
  {
  }

  lemma LStepKeeps<M>(l: Logger<M>, a: Act<M>, accepts: Accepts<M>)
    requires LInv(l, accepts) && LStep(l, a, accepts).Some?
    ensures LInv(LStep(l, a, accepts).value, accepts)
  {
    if a.QueueStep? {
      QueueStepKeeps(l, a.t, a.c, accepts);
    } else if a.WorkerCall? || a.WorkerReturn? {
      WorkerEdgeKeeps(l, a, accepts);
    } else if a.WorkerSink? {
      WorkerSinkKeeps(l, accepts);
    } else {
      ClientStepKeeps(l, a, accepts);
    }
  }

  lemma {:induction false} LExecKeeps<M>(l: Logger<M>, acts: seq<Act<M>>, accepts: Accepts<M>)
    requires LInv(l, accepts) && LExec(l, acts, accepts).Some?
    ensures LInv(LExec(l, acts, accepts).value, accepts)
    decreases |acts|
  {
    if acts != [] {
      LStepKeeps(l, acts[0], accepts);
      LExecKeeps(LStep(l, acts[0], accepts).value, acts[1..], accepts);
    }
  }

  // ---------------------------------------------------------------- what clients rely on

  ghost predicate ReachableLogger<M(!new)>(l: Logger<M>, accepts: Accepts<M>)
  {
    exists n, blank, worker, tids, nsinks, discard, acts ::
      ReachedBy(l, accepts, n, blank, worker, tids, nsinks, discard, acts)
  }

  ghost predicate ReachedBy<M>(l: Logger<M>, accepts: Accepts<M>, n: nat, blank: Msg<M>, worker: Tid, tids: set<Tid>,
                               nsinks: nat, discard: bool, acts: seq<Act<M>>)
  {
    && Create(n, blank, tids + {worker}).Some? && worker !in tids
    && LExec(Start(n, blank, worker, tids, nsinks, discard), acts, accepts) == Some(l)
  }

  lemma ReachedLInv<M>(l: Logger<M>, accepts: Accepts<M>, n: nat, blank: Msg<M>, worker: Tid, tids: set<Tid>,
                       nsinks: nat, discard: bool, acts: seq<Act<M>>)
    requires ReachedBy(l, accepts, n, blank, worker, tids, nsinks, discard, acts)
    ensures LInv(l, accepts)
  {
    StartOk(n, blank, worker, tids, nsinks, discard, accepts);
    LExecKeeps(Start(n, blank, worker, tids, nsinks, discard), acts, accepts);
  }

  lemma ReachableLInv<M(!new)>(l: Logger<M>, accepts: Accepts<M>)
    requires ReachableLogger(l, accepts)
    ensures LInv(l, accepts)
  {
    var n, blank, worker, tids, nsinks, discard, acts :|
      ReachedBy(l, accepts, n, blank, worker, tids, nsinks, discard, acts);
    ReachedLInv(l, accepts, n, blank, worker, tids, nsinks, discard, acts);
  }

  lemma {:induction false} AcceptedPrefix<M>(i: nat, log: seq<Msg<M>>, a: nat, b: nat, accepts: Accepts<M>)
    requires a <= b <= |log|
    ensures Accepted(i, log[..a], accepts) <= Accepted(i, log[..b], accepts)
    decreases b
  {
    if a < b {
      AcceptedPrefix(i, log, a, b - 1, accepts);
      AcceptedExtend(i, log, b - 1, accepts);
    }
  }

  /** In every run, the worker handles the enqueued messages once each in ticket order:
      a sink holds exactly the messages it accepts among the tickets handled so far, and at
      most the one in hand besides. */
  lemma HandledInTicketOrder<M(!new)>(l: Logger<M>, accepts: Accepts<M>)
    requires ReachableLogger(l, accepts)
    ensures l.handled <= l.q.deqPos <= l.handled + 1 && l.q.deqPos <= |l.q.log|
    ensures forall i :: 0 <= i < |l.sinks| ==>
              || l.sinks[i].contents == Accepted(i, l.q.log[..l.handled], accepts)
              || (l.handled < l.q.deqPos && l.sinks[i].contents == Accepted(i, l.q.log[..l.handled + 1], accepts))
  {
    ReachableLInv(l, accepts);
    forall i | 0 <= i < |l.sinks|
      ensures || l.sinks[i].contents == Accepted(i, l.q.log[..l.handled], accepts)
              || (l.handled < l.q.deqPos && l.sinks[i].contents == Accepted(i, l.q.log[..l.handled + 1], accepts))
    {
      if Visited(l, i, accepts) { AcceptedExtend(i, l.q.log, l.handled, accepts); }
    }
  }

  /** The worker exits only after the terminate message and every ticket before it have been
      handled, with every sink flushed after its last message. */
  lemma ExitsComplete<M(!new)>(l: Logger<M>, accepts: Accepts<M>)
    requires ReachableLogger(l, accepts) && l.wpc.Exited?
    ensures exists k :: 0 <= k < l.handled <= |l.q.log| && l.q.log[k] == TerminateMsg
    ensures l.q.deqPos == l.handled
    ensures forall i :: 0 <= i < |l.sinks| ==>
              && l.sinks[i].contents == Accepted(i, l.q.log[..l.handled], accepts)
              && l.sinks[i].flushed == |l.sinks[i].contents|
  {
    ReachableLInv(l, accepts);
    var done := l.q.log[..l.handled];
    var k :| 0 <= k < |done| && done[k] == TerminateMsg;
    assert l.q.log[k] == TerminateMsg;
  }

  /** `flush(true)` returns only after every message with an earlier ticket has been handled.
      Its own flush message may still be in the worker's hand; it has been processed exactly
      when it is not. */
  lemma FlushWaits<M(!new)>(l: Logger<M>, accepts: Accepts<M>, t: Tid)
    requires ReachableLogger(l, accepts) && t in l.clients && l.clients[t].Flushed? && l.clients[t].ticket.Some?
    ensures var f := l.clients[t].ticket.value;
            && f <= l.handled <= |l.q.log| && f < |l.q.log| && l.q.log[f] == FlushMsg
            && (forall i :: 0 <= i < |l.sinks| ==> Accepted(i, l.q.log[..f], accepts) <= l.sinks[i].contents)
            && l.worker in l.q.threads
            && (f < l.handled <==> !(InHand(l) && l.handled == f))
  {
    ReachableLInv(l, accepts);
    assert ClientOk(l, t);
    forall i | 0 <= i < |l.sinks|
      ensures Accepted(i, l.q.log[..l.clients[t].ticket.value], accepts) <= l.sinks[i].contents
    {
      AcceptedPrefix(i, l.q.log, l.clients[t].ticket.value, l.handled, accepts);
    }
  }

  /** When the flush message was discarded, which only the discard policy does, all but the
      last of the messages enqueued before are handled on return. */
  lemma DiscardedFlush<M(!new)>(l: Logger<M>, accepts: Accepts<M>, t: Tid)
    requires ReachableLogger(l, accepts) && t in l.clients && l.clients[t].Flushed? && l.clients[t].ticket.None?
    ensures l.discard && l.clients[t].before <= l.handled + 1
  {
    ReachableLInv(l, accepts);
    assert ClientOk(l, t);
  }

  // ---------------------------------------------------------------- flush(true) can return early

  lemma {:induction false} LExecSnoc<M>(l: Logger<M>, acts: seq<Act<M>>, a: Act<M>, accepts: Accepts<M>)
    requires LExec(l, acts, accepts).Some?
    ensures LExec(l, acts + [a], accepts) == LStep(LExec(l, acts, accepts).value, a, accepts)
    decreases |acts|
  {
    if acts == [] {
      assert (acts + [a])[1..] == [];
    } else {
      assert (acts + [a])[1..] == acts[1..] + [a];
      LExecSnoc(LStep(l, acts[0], accepts).value, acts[1..], a, accepts);
    }
  }

  ghost predicate Reaches<M(!new)>(l: Logger<M>, m: Logger<M>, accepts: Accepts<M>)
  {
    exists acts :: LExec(l, acts, accepts) == Some(m)
  }

  lemma Here<M(!new)>(l: Logger<M>, accepts: Accepts<M>)
    ensures Reaches(l, l, accepts)
  {
    assert LExec(l, [], accepts) == Some(l);
  }

  lemma Hop<M(!new)>(l: Logger<M>, m: Logger<M>, a: Act<M>, m': Logger<M>, accepts: Accepts<M>)
    requires Reaches(l, m, accepts) && LStep(m, a, accepts) == Some(m')
    ensures Reaches(l, m', accepts)
  {
    var acts :| LExec(l, acts, accepts) == Some(m);
    LExecSnoc(l, acts, a, accepts);
    assert LExec(l, acts + [a], accepts) == Some(m');
  }

  lemma HopQ<M(!new)>(l: Logger<M>, m: Logger<M>, t: Tid, s': State<Msg<M>>, accepts: Accepts<M>)
    requires Reaches(l, m, accepts) && Step(m.q, t, Run) == Some(s')
    ensures Reaches(l, m.(q := s'), accepts)
  {
    Hop(l, m, QueueStep(t, Run), m.(q := s'), accepts);
  }

  /** A client's flush message, pushed through an empty queue. */
  ghost function Pushed<M>(q: State<Msg<M>>, t: Tid, pc: Pc<Msg<M>>): State<Msg<M>>
    requires |q.cells| >= 2
  {
    q.(cells := q.cells[0 := Cell(1, FlushMsg)], enqPos := 1, log := q.log + [FlushMsg], threads := q.threads[t := pc])
  }

  lemma PushFlush<M(!new)>(l: Logger<M>, t: Tid, accepts: Accepts<M>)
    requires |l.q.cells| >= 2 && l.q.cells[0].seqno == 0 && l.q.enqPos == 0
    requires t in l.clients && l.clients[t].Ready? && t in l.q.threads && l.q.threads[t].Idle?
    ensures Reaches(l, l.(q := Pushed(l.q, t, Idle), clients := l.clients[t := Waiting(Some(0), 0)]), accepts)
  {
    var q := l.q;
    var th := q.threads;
    var m := l.(clients := l.clients[t := Pushing(FlushMsg, true)]);
    var q0 := q.(threads := th[t := EnqLoad(FlushMsg)]);
    var q3 := q.(enqPos := 1, log := q.log + [FlushMsg]);
    var q4 := q3.(cells := q.cells[0 := Cell(0, FlushMsg)]);
    var q5 := q3.(cells := q.cells[0 := Cell(1, FlushMsg)]);
    Here(l, accepts);
    Hop(l, l, Flush(t, true), m.(q := q0), accepts);
    TwoUpdates(th, t, EnqLoad(FlushMsg), EnqSeq(FlushMsg, 0));
    HopQ(l, m.(q := q0), t, q.(threads := th[t := EnqSeq(FlushMsg, 0)]), accepts);
    EnqSteps(q, q3, q4, q5, t);
    var atSeq, atCas := q.(threads := th[t := EnqSeq(FlushMsg, 0)]), q.(threads := th[t := EnqCas(FlushMsg, 0)]);
    var atWrite := q3.(threads := th[t := EnqWrite(FlushMsg, 0)]);
    var atPublish := q4.(threads := th[t := EnqPublish(FlushMsg, 0)]);
    HopQ(l, m.(q := atSeq), t, atCas, accepts);
    HopQ(l, m.(q := atCas), t, atWrite, accepts);
    HopQ(l, m.(q := atWrite), t, atPublish, accepts);
    HopQ(l, m.(q := atPublish), t, Pushed(q, t, EnqDone(FlushMsg, 0)), accepts);
    PushEnds(l, m, t, accepts);
  }

  lemma PushEnds<M(!new)>(l: Logger<M>, m: Logger<M>, t: Tid, accepts: Accepts<M>)
    requires |l.q.cells| >= 2 && t in l.q.threads
    requires m == l.(clients := l.clients[t := Pushing(FlushMsg, true)])
    requires Reaches(l, m.(q := Pushed(l.q, t, EnqDone(FlushMsg, 0))), accepts)
    ensures Reaches(l, l.(q := Pushed(l.q, t, Idle), clients := l.clients[t := Waiting(Some(0), 0)]), accepts)
  {
    TwoUpdates(l.clients, t, Pushing(FlushMsg, true), Waiting(Some(0), 0));
    TwoUpdates(l.q.threads, t, EnqDone(FlushMsg, 0), Idle);
    Hop(l, m.(q := Pushed(l.q, t, EnqDone(FlushMsg, 0))), PushReturn(t),
        l.(q := Pushed(l.q, t, Idle), clients := l.clients[t := Waiting(Some(0), 0)]), accepts);
  }

  lemma EnqSteps<M>(q: State<Msg<M>>, q3: State<Msg<M>>, q4: State<Msg<M>>, q5: State<Msg<M>>, t: Tid)
    requires |q.cells| >= 2 && q.cells[0].seqno == 0 && q.enqPos == 0 && t in q.threads
    requires q3 == q.(enqPos := 1, log := q.log + [FlushMsg])
    requires q4 == q3.(cells := q.cells[0 := Cell(0, FlushMsg)]) && q5 == q3.(cells := q.cells[0 := Cell(1, FlushMsg)])
    ensures var th := q.threads;
            && Step(q.(threads := th[t := EnqSeq(FlushMsg, 0)]), t, Run)
               == Some(q.(threads := th[t := EnqCas(FlushMsg, 0)]))
            && Step(q.(threads := th[t := EnqCas(FlushMsg, 0)]), t, Run)
               == Some(q3.(threads := th[t := EnqWrite(FlushMsg, 0)]))
            && Step(q3.(threads := th[t := EnqWrite(FlushMsg, 0)]), t, Run)
               == Some(q4.(threads := th[t := EnqPublish(FlushMsg, 0)]))
            && Step(q4.(threads := th[t := EnqPublish(FlushMsg, 0)]), t, Run)
               == Some(q5.(threads := th[t := EnqDone(FlushMsg, 0)]))
  {
    var th := q.threads;
    TwoUpdates(th, t, EnqSeq(FlushMsg, 0), EnqCas(FlushMsg, 0));
    TwoUpdates(th, t, EnqCas(FlushMsg, 0), EnqWrite(FlushMsg, 0));
    TwoUpdates(th, t, EnqWrite(FlushMsg, 0), EnqPublish(FlushMsg, 0));
    TwoUpdates(th, t, EnqPublish(FlushMsg, 0), EnqDone(FlushMsg, 0));
    assert q4.cells[0 := Cell(1, FlushMsg)] == q5.cells;
  }

  /** The worker wins the ticket of that message and goes no further. */
  lemma TakeTicket<M(!new)>(l: Logger<M>, m: Logger<M>, accepts: Accepts<M>)
    requires Reaches(l, m, accepts) && m.wpc.Polling? && m.worker in m.q.threads && m.q.threads[m.worker].Idle?
    requires |m.q.cells| >= 2 && m.q.cells[0].seqno == 1 && m.q.deqPos == 0
    ensures Reaches(l, m.(q := m.q.(deqPos := 1, threads := m.q.threads[m.worker := DeqRead(0)])), accepts)
  {
    var w := m.worker;
    var th := m.q.threads;
    var q0 := m.q.(threads := th[w := DeqLoad]);
    var q1 := m.q.(threads := th[w := DeqSeq(0)]);
    var q2 := m.q.(threads := th[w := DeqCas(0)]);
    DeqSteps(m.q, w);
    Hop(l, m, WorkerCall, m.(q := q0), accepts);
    HopQ(l, m.(q := q0), w, q1, accepts);
    HopQ(l, m.(q := q1), w, q2, accepts);
    HopQ(l, m.(q := q2), w, m.q.(deqPos := 1, threads := th[w := DeqRead(0)]), accepts);
  }

  /** `dequeue` up to winning ticket 0. */
  lemma DeqSteps<M>(q: State<Msg<M>>, w: Tid)
    requires |q.cells| >= 2 && q.cells[0].seqno == 1 && q.deqPos == 0 && w in q.threads && q.threads[w].Idle?
    ensures var th := q.threads;
            && Step(q, w, CallDequeue) == Some(q.(threads := th[w := DeqLoad]))
            && Step(q.(threads := th[w := DeqLoad]), w, Run) == Some(q.(threads := th[w := DeqSeq(0)]))
            && Step(q.(threads := th[w := DeqSeq(0)]), w, Run) == Some(q.(threads := th[w := DeqCas(0)]))
            && Step(q.(threads := th[w := DeqCas(0)]), w, Run)
               == Some(q.(deqPos := 1, threads := th[w := DeqRead(0)]))
  {
    var th := q.threads;
    TwoUpdates(th, w, DeqLoad, DeqSeq(0));
    TwoUpdates(th, w, DeqSeq(0), DeqCas(0));
    TwoUpdates(th, w, DeqCas(0), DeqRead(0));
  }

  /** `approx_size` on a queue whose positions are equal. */
  lemma SizeSteps<M>(q: State<Msg<M>>, t: Tid)
    requires |q.cells| >= 2 && q.deqPos == q.enqPos && t in q.threads && q.threads[t].Idle?
    ensures var th, p := q.threads, q.deqPos;
            && Step(q, t, CallApproxSize) == Some(q.(threads := th[t := SizeFirst]))
            && Step(q.(threads := th[t := SizeFirst]), t, Run) == Some(q.(threads := th[t := SizeLast(p)]))
            && Step(q.(threads := th[t := SizeLast(p)]), t, Run) == Some(q.(threads := th[t := SizeDone(0, p, p)]))
            && Step(q.(threads := th[t := SizeDone(0, p, p)]), t, Leave) == Some(q)
  {
    var th, p := q.threads, q.deqPos;
    TwoUpdates(th, t, SizeFirst, SizeLast(p));
    TwoUpdates(th, t, SizeLast(p), SizeDone(0, p, p));
    TwoUpdates(th, t, SizeDone(0, p, p), Idle);
    assert th[t := Idle] == th;
  }

  lemma SizeReturns<M>(m: Logger<M>, q2: State<Msg<M>>, t: Tid)
    requires t in m.clients && m.clients[t].Waiting? && t in q2.threads && q2.threads[t].SizeDone?
    requires q2.threads[t].size == 0 && Step(q2, t, Leave) == Some(m.q)
    ensures ClientStep(m.(q := q2), SizeReturn(t))
         == Some(m.(clients := m.clients[t := Flushed(m.clients[t].ticket, m.clients[t].before)]))
  {
  }

  /** `wait_empty_q` sees both positions equal and returns. */
  lemma SeeEmpty<M(!new)>(l: Logger<M>, m: Logger<M>, t: Tid, accepts: Accepts<M>)
    requires Reaches(l, m, accepts) && |m.q.cells| >= 2 && m.q.deqPos == m.q.enqPos
    requires t in m.clients && m.clients[t].Waiting? && t in m.q.threads && m.q.threads[t].Idle?
    ensures Reaches(l, m.(clients := m.clients[t := Flushed(m.clients[t].ticket, m.clients[t].before)]), accepts)
  {
    var th, p := m.q.threads, m.q.deqPos;
    var q0 := m.q.(threads := th[t := SizeFirst]);
    var q1 := m.q.(threads := th[t := SizeLast(p)]);
    var q2 := m.q.(threads := th[t := SizeDone(0, p, p)]);
    SizeSteps(m.q, t);
    Hop(l, m, SizeCall(t), m.(q := q0), accepts);
    HopQ(l, m.(q := q0), t, q1, accepts);
    HopQ(l, m.(q := q1), t, q2, accepts);
    SizeReturns(m, q2, t);
    Hop(l, m.(q := q2), SizeReturn(t),
        m.(clients := m.clients[t := Flushed(m.clients[t].ticket, m.clients[t].before)]), accepts);
  }

  /** The comment in the source says that `flush(true)` returns only after its flush message
      was processed. It need not be: on every logger there is a run in which the call has
      returned while its message, ticket 0, is unprocessed and no sink has been flushed. */
  lemma FlushMayReturnEarly<M(!new)>(n: nat, blank: Msg<M>, worker: Tid, tids: set<Tid>, nsinks: nat, discard: bool,
                                     t: Tid, accepts: Accepts<M>)
    requires Create<Msg<M>>(n, blank, tids + {worker}).Some? && worker !in tids && t in tids
    ensures exists l :: ReachableLogger(l, accepts) && t in l.clients && l.clients[t] == Flushed(Some(0), 0)
                        && l.handled == 0 && !l.flushRequested
                        && forall i :: 0 <= i < |l.sinks| ==> l.sinks[i].flushed == 0
  {
    var l0 := Start(n, blank, worker, tids, nsinks, discard);
    PushFlush(l0, t, accepts);
    var l1 := l0.(q := Pushed(l0.q, t, Idle), clients := l0.clients[t := Waiting(Some(0), 0)]);
    TakeTicket(l0, l1, accepts);
    var l2 := l1.(q := l1.q.(deqPos := 1, threads := l1.q.threads[worker := DeqRead(0)]));
    SeeEmpty(l0, l2, t, accepts);
    var l3 := l2.(clients := l2.clients[t := Flushed(Some(0), 0)]);
    var acts :| LExec(l0, acts, accepts) == Some(l3);
    assert ReachedBy(l3, accepts, n, blank, worker, tids, nsinks, discard, acts);
  }
}
