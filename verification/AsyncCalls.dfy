/** What becomes of the messages given to the logger: every call of `log` or `flush` ends in exactly one
    ticket of the queue, or, under the discard policy only, in a drop after a full queue. */
module AsyncCalls {
  import opened Common
  import opened MpmcQueue
  import opened AsyncLogger

  /** What a client asked for, and what became of it: a ticket, or a drop. */
  datatype Entry<M> = Entry(t: Tid, msg: Msg<M>)
  datatype Outcome<M> = Outcome(entry: Entry<M>, kept: bool)

  // ---------------------------------------------------------------- what a run asks for and gets

  /** The message a call hands over. */
  function Asked<M>(a: Act<M>): seq<Entry<M>>
  {
    match a
    case Log(t, msg) => [Entry(t, msg)]
    case Flush(t, _) => [Entry(t, FlushMsg)]
    case _ => []
  }

  function AskedOf<M>(acts: seq<Act<M>>): seq<Entry<M>>
  {
    if acts == [] then [] else Asked(acts[0]) + AskedOf(acts[1..])
  }

  /** The log grew: the thread that moved has won the ticket. Or a call returned from a full queue. */
  function Ended<M>(l: Logger<M>, a: Act<M>, l': Logger<M>): seq<Outcome<M>>
  {
    if a.QueueStep? && |l.q.log| < |l'.q.log| then [Outcome(Entry(a.t, l'.q.log[|l.q.log|]), true)]
    else if a.PushReturn? && GivesUp(l, a.t, l') then [Outcome(Entry(a.t, l.clients[a.t].msg), false)]
    else []
  }

  /** `push_msg` was inside a failed `enqueue`, and is left. */
  predicate GivesUp<M>(l: Logger<M>, t: Tid, l': Logger<M>)
  {
    && t in l.clients && l.clients[t].Pushing? && t in l.q.threads && l.q.threads[t].EnqFailed?
    && t in l'.clients && !l'.clients[t].Pushing?
  }

  function EndedOf<M>(l: Logger<M>, acts: seq<Act<M>>, accepts: Accepts<M>): seq<Outcome<M>>
    decreases |acts|
  {
    if acts == [] then []
    else
      var m := LStep(l, acts[0], accepts);
      if m.None? then [] else Ended(l, acts[0], m.value) + EndedOf(m.value, acts[1..], accepts)
  }

  /** The messages with a ticket, in the order of the tickets, and the dropped ones. */
  function Chosen<M>(outs: seq<Outcome<M>>, kept: bool): seq<Msg<M>>
  {
    if outs == [] then [] else Choose(outs[0], kept) + Chosen(outs[1..], kept)
  }

  function Choose<M>(o: Outcome<M>, kept: bool): seq<Msg<M>>
  {
    if o.kept == kept then [o.entry.msg] else []
  }

  /** The messages of client `t`. */
  function Of<M>(es: seq<Entry<M>>, t: Tid): seq<Msg<M>>
  {
    if es == [] then [] else Mine(es[0], t) + Of(es[1..], t)
  }

  function Mine<M>(e: Entry<M>, t: Tid): seq<Msg<M>>
  {
    if e.t == t then [e.msg] else []
  }

  function Entries<M>(outs: seq<Outcome<M>>): seq<Entry<M>>
  {
    seq(|outs|, i requires 0 <= i < |outs| => outs[i].entry)
  }

  /** The message client `t` is still trying to enqueue. */
  function Open<M>(l: Logger<M>, t: Tid): seq<Msg<M>>
  {
    if t in l.clients && l.clients[t].Pushing? && t in l.q.threads && Unticketed(l.q.threads[t])
    then [l.clients[t].msg] else []
  }

  predicate Unticketed<T>(pc: Pc<T>)
  {
    pc.EnqLoad? || pc.EnqSeq? || pc.EnqCas? || pc.EnqFailed?
  }

  // ---------------------------------------------------------------- one step

  /** A step inside a queue call: the log grows exactly when the thread wins a ticket. */
  lemma LogMoves<T>(s: State<T>, t: Tid, c: Choice<T>)
    requires |s.cells| > 0 && Step(s, t, c).Some? && (c.Run? || c.CasFail? || c.MoveOut?)
    ensures var s' := Step(s, t, c).value;
            && t in s'.threads && s'.threads == s.threads[t := s'.threads[t]]
            && if Unticketed(s.threads[t]) && !Unticketed(s'.threads[t])
               then s'.log == s.log + [s.threads[t].item]
               else s'.log == s.log && Unticketed(s'.threads[t]) == Unticketed(s.threads[t])
  {
    var pc := s.threads[t];
    if StepEnqueue(s, t, pc, c).Some? {
    } else if StepDequeue(s, t, pc, c).Some? {
    }
  }

  /** What one step does to the account of client `t`. */
  ghost predicate Balanced<M>(l: Logger<M>, a: Act<M>, l': Logger<M>, t: Tid)
  {
    Open(l, t) + Of(Asked(a), t) == Of(Entries(Ended(l, a, l')), t) + Open(l', t)
  }

  lemma QueueBalanced<M>(l: Logger<M>, a: Act<M>, accepts: Accepts<M>, t: Tid)
    requires LInv(l, accepts) && a.QueueStep? && LStep(l, a, accepts).Some?
    ensures Balanced(l, a, LStep(l, a, accepts).value, t)
  {
    var l' := LStep(l, a, accepts).value;
    LogMoves(l.q, a.t, a.c);
    assert a.t == l.worker || ClientOk(l, a.t);
    assert t in l.clients ==> ClientOk(l, t);
  }

  /** Nothing happened to client `t`, and nothing ended. */
  lemma Untouched<M>(l: Logger<M>, a: Act<M>, l': Logger<M>, t: Tid)
    requires l'.clients == l.clients && l'.q.log == l.q.log && Asked(a) == [] && !a.PushReturn?
    requires t in l.clients ==> t in l.q.threads && t in l'.q.threads && l'.q.threads[t] == l.q.threads[t]
    ensures Balanced(l, a, l', t) && Ended(l, a, l') == []
  {
  }

  /** `l'` has the clients, the log and the threads of `l`, but for what thread `w` does. */
  ghost predicate Leaves<M>(l: Logger<M>, l': Logger<M>, w: Tid)
  {
    && l'.clients == l.clients && l'.discard == l.discard && l'.q.log == l.q.log
    && l'.q.threads.Keys == l.q.threads.Keys
    && forall t :: t in l.q.threads && t != w ==> l'.q.threads[t] == l.q.threads[t]
  }

  lemma EdgeLeaves<M>(l: Logger<M>, m: Logger<M>, t: Tid, c: Choice<Msg<M>>)
    requires m.q == l.q && m.clients == l.clients && m.discard == l.discard
    requires (c.CallDequeue? || c.Leave?) && Queue(m, t, c).Some?
    ensures Leaves(l, Queue(m, t, c).value, t)
  {
  }

  lemma WorkerLeaves<M>(l: Logger<M>, a: Act<M>, accepts: Accepts<M>)
    requires (a.WorkerCall? || a.WorkerReturn? || a.WorkerSink?) && WorkerStep(l, a, accepts).Some?
    ensures Leaves(l, WorkerStep(l, a, accepts).value, l.worker)
  {
    match a
    case WorkerCall => EdgeLeaves(l, l, l.worker, CallDequeue);
    case WorkerReturn(timer) => ReturnLeaves(l, timer, accepts);
    case WorkerSink => SinkLeaves(l, accepts);
  }

  lemma ReturnLeaves<M>(l: Logger<M>, timer: bool, accepts: Accepts<M>)
    requires WorkerStep(l, WorkerReturn(timer), accepts).Some?
    ensures Leaves(l, WorkerStep(l, WorkerReturn(timer), accepts).value, l.worker)
  {
    var l' := WorkerStep(l, WorkerReturn(timer), accepts).value;
    EdgeLeaves(l, l'.(q := l.q), l.worker, Leave);
  }

  lemma SinkLeaves<M>(l: Logger<M>, accepts: Accepts<M>)
    requires WorkerStep(l, WorkerSink, accepts).Some?
    ensures Leaves(l, WorkerStep(l, WorkerSink, accepts).value, l.worker)
  {
  }

  lemma WorkerBalanced<M>(l: Logger<M>, a: Act<M>, accepts: Accepts<M>, t: Tid)
    requires ThreadsKnown(l) && l.worker !in l.clients
    requires (a.WorkerCall? || a.WorkerReturn? || a.WorkerSink?) && WorkerStep(l, a, accepts).Some?
    ensures var l' := WorkerStep(l, a, accepts).value;
            Balanced(l, a, l', t) && l'.q.log == l.q.log && Ended(l, a, l') == []
  {
    WorkerLeaves(l, a, accepts);
    assert t in l.clients ==> ClientOk(l, t);
    Untouched(l, a, WorkerStep(l, a, accepts).value, t);
  }

  lemma EndedIs<M>(l: Logger<M>, a: Act<M>, l': Logger<M>, t: Tid)
    requires |Ended(l, a, l')| > 0 ==> t != a.t
    ensures Of(Entries(Ended(l, a, l')), t) == []
  {
  }

  /** A step of another client. */
  lemma OtherClient<M>(l: Logger<M>, a: Act<M>, l': Logger<M>, t: Tid)
    requires (a.Log? || a.Flush? || a.PushReturn? || a.SizeCall? || a.SizeReturn?) && t != a.t && Edge(l, l', a.t)
    ensures Balanced(l, a, l', t)
  {
    EndedIs(l, a, l', t);
    assert Of(Asked(a), t) == [];
    assert Open(l', t) == Open(l, t);
  }

  /** Only the discard policy gives up. */
  lemma DropsDiscarded<M>(l: Logger<M>, a: Act<M>)
    requires ClientStep(l, a).Some? && (a.Log? || a.Flush? || a.PushReturn? || a.SizeCall? || a.SizeReturn?)
    ensures forall o :: o in Ended(l, a, ClientStep(l, a).value) ==> !o.kept && l.discard
  {
    if a.PushReturn? && GivesUp(l, a.t, ClientStep(l, a).value) {
      assert l.discard;
    }
  }

  lemma ClientBalanced<M>(l: Logger<M>, a: Act<M>, accepts: Accepts<M>, t: Tid)
    requires LInv(l, accepts) && ClientStep(l, a).Some?
    ensures var l' := ClientStep(l, a).value;
            Balanced(l, a, l', t) && l'.q.log == l.q.log && l'.discard == l.discard && l'.clients.Keys == l.clients.Keys
    ensures forall o :: o in Ended(l, a, ClientStep(l, a).value) ==> !o.kept && l.discard
  {
    ClientActs(l, a);
    assert ClientOk(l, a.t) && ThreadOk(l.q, a.t);
    ClientShape(l, a);
    DropsDiscarded(l, a);
    if t == a.t { ClientOwn(l, a); } else { OtherClient(l, a, ClientStep(l, a).value, t); }
  }

  lemma ClientOwn<M>(l: Logger<M>, a: Act<M>)
    requires ClientStep(l, a).Some? && (a.Log? || a.Flush? || a.PushReturn? || a.SizeCall? || a.SizeReturn?)
    requires a.t in l.clients && ClientOk(l, a.t)
    ensures Balanced(l, a, ClientStep(l, a).value, a.t)
  {
    var t, l' := a.t, ClientStep(l, a).value;
    if a.PushReturn? {
      PushReturnOwn(l, t);
    }
  }

  lemma PushReturnOwn<M>(l: Logger<M>, t: Tid)
    requires ClientStep(l, PushReturn(t)).Some? && t in l.clients && ClientOk(l, t)
    ensures Balanced(l, PushReturn(t), ClientStep(l, PushReturn(t)).value, t)
  {
    var pc := l.q.threads[t];
  }

  /** What one step does: the log grows by the ticket won, and only the discard policy drops. */
  ghost predicate Accounts<M>(l: Logger<M>, a: Act<M>, l': Logger<M>)
  {
    && l'.q.log == l.q.log + Chosen(Ended(l, a, l'), true)
    && (forall o :: o in Ended(l, a, l') ==> (o.kept || l.discard) && o.entry.t in l.clients)
    && l'.discard == l.discard && l'.clients.Keys == l.clients.Keys
  }

  lemma QueueAccounts<M>(l: Logger<M>, a: Act<M>, accepts: Accepts<M>)
    requires LInv(l, accepts) && a.QueueStep? && LStep(l, a, accepts).Some?
    ensures Accounts(l, a, LStep(l, a, accepts).value)
  {
    LogMoves(l.q, a.t, a.c);
    assert a.t == l.worker || a.t in l.clients;
  }

  lemma NoTicketAccounts<M>(l: Logger<M>, a: Act<M>, l': Logger<M>)
    requires l'.q.log == l.q.log && l'.discard == l.discard && l'.clients.Keys == l.clients.Keys
    requires forall o :: o in Ended(l, a, l') ==> !o.kept && l.discard
    ensures Accounts(l, a, l')
  {
    assert |Ended(l, a, l')| <= 1;
  }

  lemma StepBalanced<M>(l: Logger<M>, a: Act<M>, accepts: Accepts<M>, t: Tid)
    requires LInv(l, accepts) && LStep(l, a, accepts).Some?
    ensures Balanced(l, a, LStep(l, a, accepts).value, t) && Accounts(l, a, LStep(l, a, accepts).value)
  {
    if a.QueueStep? {
      QueueBalanced(l, a, accepts, t);
      QueueAccounts(l, a, accepts);
    } else if a.WorkerCall? || a.WorkerReturn? || a.WorkerSink? {
      WorkerBalanced(l, a, accepts, t);
      WorkerLeaves(l, a, accepts);
      NoTicketAccounts(l, a, LStep(l, a, accepts).value);
    } else {
      ClientBalanced(l, a, accepts, t);
      NoTicketAccounts(l, a, LStep(l, a, accepts).value);
    }
  }

  // ---------------------------------------------------------------- whole runs

  lemma Assoc<T>(a: seq<T>, b: seq<T>, c: seq<T>)
    ensures (a + b) + c == a + (b + c)
  {
  }

  lemma SplitFirst<T>(a: seq<T>, b: seq<T>)
    requires a != []
    ensures a + b != [] && (a + b)[0] == a[0] && (a + b)[1..] == a[1..] + b
  {
  }

  lemma {:induction false} OfConcat<M>(a: seq<Entry<M>>, b: seq<Entry<M>>, t: Tid)
    ensures Of(a + b, t) == Of(a, t) + Of(b, t)
  {
    if a == [] {
      assert a + b == b;
    } else {
      OfConcat(a[1..], b, t);
      SplitFirst(a, b);
      Assoc(Mine(a[0], t), Of(a[1..], t), Of(b, t));
    }
  }

  lemma {:induction false} ChosenConcat<M>(a: seq<Outcome<M>>, b: seq<Outcome<M>>, kept: bool)
    ensures Chosen(a + b, kept) == Chosen(a, kept) + Chosen(b, kept)
  {
    if a == [] {
      assert a + b == b;
    } else {
      ChosenConcat(a[1..], b, kept);
      SplitFirst(a, b);
      Assoc(Choose(a[0], kept), Chosen(a[1..], kept), Chosen(b, kept));
    }
  }

  lemma EntriesConcat<M>(a: seq<Outcome<M>>, b: seq<Outcome<M>>)
    ensures Entries(a + b) == Entries(a) + Entries(b)
  {
  }

  /** Two accounts in a row. */
  lemma InARow<T>(before: seq<T>, asked: seq<T>, ended: seq<T>, middle: seq<T>, later: seq<T>, done: seq<T>,
                  after: seq<T>)
    requires before + asked == ended + middle && middle + later == done + after
    ensures before + (asked + later) == (ended + done) + after
  {
    assert before + (asked + later) == (before + asked) + later == ended + (middle + later);
  }

  /** Every run: what a client had open and asked for is what ended, in this order, and what is open. */
  lemma {:induction false} RunBalanced<M>(l: Logger<M>, acts: seq<Act<M>>, accepts: Accepts<M>, t: Tid)
    requires LInv(l, accepts) && LExec(l, acts, accepts).Some?
    ensures Open(l, t) + Of(AskedOf(acts), t)
         == Of(Entries(EndedOf(l, acts, accepts)), t) + Open(LExec(l, acts, accepts).value, t)
    decreases |acts|
  {
    if acts != [] {
      var a, m := acts[0], LStep(l, acts[0], accepts).value;
      var out, outs, end := Ended(l, a, m), EndedOf(m, acts[1..], accepts), LExec(m, acts[1..], accepts).value;
      StepBalanced(l, a, accepts, t);
      LStepKeeps(l, a, accepts);
      RunBalanced(m, acts[1..], accepts, t);
      OfConcat(Asked(a), AskedOf(acts[1..]), t);
      EntriesConcat(out, outs);
      OfConcat(Entries(out), Entries(outs), t);
      InARow(Open(l, t), Of(Asked(a), t), Of(Entries(out), t), Open(m, t), Of(AskedOf(acts[1..]), t),
             Of(Entries(outs), t), Open(end, t));
    }
  }

  /** Every run: the log grows by the tickets won, in their order. */
  lemma {:induction false} RunLog<M>(l: Logger<M>, acts: seq<Act<M>>, accepts: Accepts<M>)
    requires LInv(l, accepts) && LExec(l, acts, accepts).Some?
    ensures LExec(l, acts, accepts).value.q.log == l.q.log + Chosen(EndedOf(l, acts, accepts), true)
    decreases |acts|
  {
    if acts != [] {
      var a, m := acts[0], LStep(l, acts[0], accepts).value;
      var out, outs := Ended(l, a, m), EndedOf(m, acts[1..], accepts);
      StepBalanced(l, a, accepts, 0);
      LStepKeeps(l, a, accepts);
      RunLog(m, acts[1..], accepts);
      ChosenConcat(out, outs, true);
      Assoc(l.q.log, Chosen(out, true), Chosen(outs, true));
    }
  }

  /** Every run: only the discard policy drops, and only known clients call. */
  lemma {:induction false} RunKnown<M>(l: Logger<M>, acts: seq<Act<M>>, accepts: Accepts<M>)
    requires LInv(l, accepts) && LExec(l, acts, accepts).Some?
    ensures forall o :: o in EndedOf(l, acts, accepts) ==> (o.kept || l.discard) && o.entry.t in l.clients
    ensures forall e :: e in AskedOf(acts) ==> e.t in l.clients
    ensures LExec(l, acts, accepts).value.clients.Keys == l.clients.Keys
    decreases |acts|
  {
    if acts != [] {
      StepBalanced(l, acts[0], accepts, 0);
      LStepKeeps(l, acts[0], accepts);
      RunKnown(LStep(l, acts[0], accepts).value, acts[1..], accepts);
      AskedKnown(l, acts[0], accepts);
    }
  }

  lemma AskedKnown<M>(l: Logger<M>, a: Act<M>, accepts: Accepts<M>)
    requires LStep(l, a, accepts).Some?
    ensures forall e :: e in Asked(a) ==> e.t in l.clients
  {
  }

  lemma {:induction false} AllKept<M>(outs: seq<Outcome<M>>)
    requires forall o :: o in outs ==> o.kept
    ensures |Chosen(outs, true)| == |outs| && Chosen(outs, false) == []
    ensures forall i :: 0 <= i < |outs| ==> Chosen(outs, true)[i] == outs[i].entry.msg
  {
    if outs != [] {
      AllKept(outs[1..]);
      assert Chosen(outs, true) == [outs[0].entry.msg] + Chosen(outs[1..], true);
    }
  }

  /** The calls of every run from a fresh logger. Each client's messages ended in the order of its calls,
      but for the one still being pushed; the tickets of the queue are exactly the calls that were kept,
      in the order they won; and the other calls returned from a full queue under the discard policy. */
  lemma EveryCallEnds<M>(l: Logger<M>, accepts: Accepts<M>, n: nat, blank: Msg<M>, worker: Tid, tids: set<Tid>,
                         nsinks: nat, discard: bool, acts: seq<Act<M>>, t: Tid)
    requires ReachedBy(l, accepts, n, blank, worker, tids, nsinks, discard, acts)
    ensures var outs := EndedOf(Start(n, blank, worker, tids, nsinks, discard), acts, accepts);
            && Of(AskedOf(acts), t) == Of(Entries(outs), t) + Open(l, t)
            && l.q.log == Chosen(outs, true)
            && (forall o :: o in outs ==> o.kept || discard)
  {
    var l0 := Start(n, blank, worker, tids, nsinks, discard);
    StartOk(n, blank, worker, tids, nsinks, discard, accepts);
    RunBalanced(l0, acts, accepts, t);
    RunLog(l0, acts, accepts);
    RunKnown(l0, acts, accepts);
    assert Open(l0, t) == [];
  }

  /** Without the discard policy no call is lost: the log has an owner for every ticket, and what a client
      owns there, in the order of the tickets, is what it asked for in the order of its calls, but for the
      message it is still pushing. */
  lemma NothingLost<M>(l: Logger<M>, accepts: Accepts<M>, n: nat, blank: Msg<M>, worker: Tid, tids: set<Tid>,
                       nsinks: nat, acts: seq<Act<M>>) returns (owned: seq<Entry<M>>)
    requires ReachedBy(l, accepts, n, blank, worker, tids, nsinks, false, acts)
    ensures |owned| == |l.q.log| && forall p :: 0 <= p < |owned| ==> owned[p].msg == l.q.log[p]
    ensures forall t :: Of(AskedOf(acts), t) == Of(owned, t) + Open(l, t)
  {
    var outs := EndedOf(Start(n, blank, worker, tids, nsinks, false), acts, accepts);
    owned := Entries(outs);
    forall t ensures Of(AskedOf(acts), t) == Of(owned, t) + Open(l, t) {
      EveryCallEnds(l, accepts, n, blank, worker, tids, nsinks, false, acts, t);
    }
    EveryCallEnds(l, accepts, n, blank, worker, tids, nsinks, false, acts, 0);
    AllKept(outs);
  }

  // ---------------------------------------------------------------- all clients together

  function Messages<M>(es: seq<Entry<M>>): seq<Msg<M>>
  {
    seq(|es|, i requires 0 <= i < |es| => es[i].msg)
  }

  /** All that `part` gives for the clients of a list. */
  ghost function Total<M>(part: Tid -> seq<Msg<M>>, ts: seq<Tid>): multiset<Msg<M>>
  {
    if ts == [] then multiset{} else multiset(part(ts[0])) + Total(part, ts[1..])
  }

  ghost predicate Distinct(ts: seq<Tid>)
  {
    forall i, j :: 0 <= i < j < |ts| ==> ts[i] != ts[j]
  }

  lemma {:induction false} TotalSum<M>(f: Tid -> seq<Msg<M>>, g: Tid -> seq<Msg<M>>, h: Tid -> seq<Msg<M>>,
                                       ts: seq<Tid>)
    requires forall t :: f(t) == g(t) + h(t)
    ensures Total(f, ts) == Total(g, ts) + Total(h, ts)
  {
    if ts != [] {
      TotalSum(f, g, h, ts[1..]);
    }
  }

  lemma {:induction false} TotalNone<M>(f: Tid -> seq<Msg<M>>, ts: seq<Tid>)
    requires forall t :: t in ts ==> f(t) == []
    ensures Total(f, ts) == multiset{}
  {
    if ts != [] {
      TotalNone(f, ts[1..]);
    }
  }

  function Parts<M>(es: seq<Entry<M>>): Tid -> seq<Msg<M>> { (t: Tid) => Of(es, t) }

  function Opens<M>(l: Logger<M>): Tid -> seq<Msg<M>> { (t: Tid) => Open(l, t) }

  /** One message is counted once. */
  lemma {:induction false} TotalOne<M>(e: Entry<M>, ts: seq<Tid>)
    requires Distinct(ts) && e.t in ts
    ensures Total((t: Tid) => Mine(e, t), ts) == multiset{e.msg}
  {
    var f := (t: Tid) => Mine(e, t);
    if ts[0] == e.t {
      TotalNone(f, ts[1..]);
    } else {
      TotalOne(e, ts[1..]);
    }
  }

  lemma FirstMessage<M>(es: seq<Entry<M>>)
    requires es != []
    ensures Messages(es) == [es[0].msg] + Messages(es[1..])
  {
  }

  lemma FirstEntry<M>(outs: seq<Outcome<M>>)
    requires outs != []
    ensures Entries(outs) != [] && Entries(outs)[0] == outs[0].entry && Entries(outs)[1..] == Entries(outs[1..])
  {
  }

  /** Every entry is counted for exactly one client. */
  lemma {:induction false} TotalOf<M>(es: seq<Entry<M>>, ts: seq<Tid>)
    requires Distinct(ts) && forall e :: e in es ==> e.t in ts
    ensures Total(Parts(es), ts) == multiset(Messages(es))
  {
    if es == [] {
      TotalNone(Parts(es), ts);
    } else {
      TotalOf(es[1..], ts);
      TotalOne(es[0], ts);
      TotalSum(Parts(es), (t: Tid) => Mine(es[0], t), Parts(es[1..]), ts);
      FirstMessage(es);
    }
  }

  lemma {:induction false} KeptAndDropped<M>(outs: seq<Outcome<M>>)
    ensures multiset(Messages(Entries(outs))) == multiset(Chosen(outs, true)) + multiset(Chosen(outs, false))
  {
    if outs != [] {
      KeptAndDropped(outs[1..]);
      FirstEntry(outs);
      FirstMessage(Entries(outs));
      OneMore(outs[0].entry.msg, Messages(Entries(outs[1..])), Chosen(outs[1..], true), Chosen(outs[1..], false));
    }
  }

  lemma OneMore<T>(x: T, all: seq<T>, kept: seq<T>, dropped: seq<T>)
    requires multiset(all) == multiset(kept) + multiset(dropped)
    ensures multiset([x] + all) == multiset([x] + kept) + multiset([] + dropped)
    ensures multiset([x] + all) == multiset([] + kept) + multiset([x] + dropped)
  {
  }

  /** In every run, the messages asked for are those with a ticket, those dropped, and those that clients are
      still pushing, each as often. */
  lemma EveryMessageCounted<M>(l: Logger<M>, accepts: Accepts<M>, n: nat, blank: Msg<M>, worker: Tid, tids: set<Tid>,
                               nsinks: nat, discard: bool, acts: seq<Act<M>>, ts: seq<Tid>)
    requires ReachedBy(l, accepts, n, blank, worker, tids, nsinks, discard, acts)
    requires Distinct(ts) && forall t :: t in l.clients ==> t in ts
    ensures var dropped := Chosen(EndedOf(Start(n, blank, worker, tids, nsinks, discard), acts, accepts), false);
            && multiset(Messages(AskedOf(acts))) == multiset(l.q.log) + multiset(dropped) + Total(Opens(l), ts)
            && (!discard ==> dropped == [])
  {
    var l0 := Start(n, blank, worker, tids, nsinks, discard);
    var outs := EndedOf(l0, acts, accepts);
    forall t ensures Of(AskedOf(acts), t) == Of(Entries(outs), t) + Open(l, t) {
      EveryCallEnds(l, accepts, n, blank, worker, tids, nsinks, discard, acts, t);
    }
    EveryCallEnds(l, accepts, n, blank, worker, tids, nsinks, discard, acts, 0);
    StartOk(n, blank, worker, tids, nsinks, discard, accepts);
    RunKnown(l0, acts, accepts);
    Counted(AskedOf(acts), outs, l, ts);
    if !discard { AllKept(outs); }
  }

  lemma Counted<M>(asked: seq<Entry<M>>, outs: seq<Outcome<M>>, l: Logger<M>, ts: seq<Tid>)
    requires Distinct(ts) && (forall e :: e in asked ==> e.t in ts) && (forall o :: o in outs ==> o.entry.t in ts)
    requires forall t :: Of(asked, t) == Of(Entries(outs), t) + Open(l, t)
    ensures multiset(Messages(asked))
         == multiset(Chosen(outs, true)) + multiset(Chosen(outs, false)) + Total(Opens(l), ts)
  {
    TotalSum(Parts(asked), Parts(Entries(outs)), Opens(l), ts);
    TotalOf(asked, ts);
    TotalOf(Entries(outs), ts);
    KeptAndDropped(outs);
  }

  // ---------------------------------------------------------------- what a call ends in

  datatype Call<M> = Call(msg: Msg<M>, wait: bool)

  /** The latest call of client `t`, when `call` was the one before the run. */
  function Latest<M>(call: Option<Call<M>>, acts: seq<Act<M>>, t: Tid): Option<Call<M>>
    decreases |acts|
  {
    if acts == [] then call else Latest(Next(call, acts[0], t), acts[1..], t)
  }

  function Next<M>(call: Option<Call<M>>, a: Act<M>, t: Tid): Option<Call<M>>
  {
    match a
    case Log(u, msg) => if u == t then Some(Call(msg, false)) else call
    case Flush(u, wait) => if u == t then Some(Call(FlushMsg, wait)) else call
    case _ => call
  }

  /** Only `flush(true)` waits, and it has returned only when it has waited. */
  ghost predicate Follows<M>(l: Logger<M>, t: Tid, call: Option<Call<M>>)
  {
    && t in l.clients
    && match call
       case None => l.clients[t].Ready?
       case Some(Call(msg, wait)) =>
         || l.clients[t] == Pushing(msg, wait)
         || (if wait then l.clients[t].Waiting? || l.clients[t].Flushed? else l.clients[t].Ready?)
  }

  lemma StepFollows<M>(l: Logger<M>, a: Act<M>, accepts: Accepts<M>, t: Tid, call: Option<Call<M>>)
    requires LInv(l, accepts) && LStep(l, a, accepts).Some? && Follows(l, t, call)
    ensures Follows(LStep(l, a, accepts).value, t, Next(call, a, t))
  {
    if a.QueueStep? {
    } else if a.WorkerCall? || a.WorkerReturn? || a.WorkerSink? {
      WorkerLeaves(l, a, accepts);
    } else {
      ClientActs(l, a);
      if a.t == t {
        OwnFollows(l, a, call);
      } else {
        assert ClientOk(l, a.t) && ThreadOk(l.q, a.t);
        ClientShape(l, a);
      }
    }
  }

  lemma OwnFollows<M>(l: Logger<M>, a: Act<M>, call: Option<Call<M>>)
    requires ClientStep(l, a).Some? && (a.Log? || a.Flush? || a.PushReturn? || a.SizeCall? || a.SizeReturn?)
    requires Follows(l, a.t, call)
    ensures Follows(ClientStep(l, a).value, a.t, Next(call, a, a.t))
  {
  }

  lemma {:induction false} RunFollows<M>(l: Logger<M>, acts: seq<Act<M>>, accepts: Accepts<M>, t: Tid,
                                         call: Option<Call<M>>)
    requires LInv(l, accepts) && LExec(l, acts, accepts).Some? && Follows(l, t, call)
    ensures Follows(LExec(l, acts, accepts).value, t, Latest(call, acts, t))
    decreases |acts|
  {
    if acts != [] {
      StepFollows(l, acts[0], accepts, t, call);
      LStepKeeps(l, acts[0], accepts);
      RunFollows(LStep(l, acts[0], accepts).value, acts[1..], accepts, t, Next(call, acts[0], t));
    }
  }

  /** In every run a client is still pushing the message of its latest call, or has returned from it: a
      `flush(true)` into waiting, and then as flushed; every other call at once. */
  lemma LatestCall<M>(l: Logger<M>, accepts: Accepts<M>, n: nat, blank: Msg<M>, worker: Tid, tids: set<Tid>,
                      nsinks: nat, discard: bool, acts: seq<Act<M>>, t: Tid)
    requires ReachedBy(l, accepts, n, blank, worker, tids, nsinks, discard, acts) && t in tids
    ensures Follows(l, t, Latest(None, acts, t))
  {
    StartOk(n, blank, worker, tids, nsinks, discard, accepts);
    RunFollows(Start(n, blank, worker, tids, nsinks, discard), acts, accepts, t, None);
  }
}
