/** What one turn of the scheduler does, and when it hands an operation out
    (src/jepsen/Runner.cpp, lines 184 to 248). */
module Turns {
  import opened Operations
  import opened Contexts
  import opened Generators
  import opened Evaluation
  import opened Leaves
  import opened Histories
  import opened Workers
  import opened Scheduling
  import opened Protocol
  import opened SchedulerSteps
  import opened Runs
  import opened Safety
  import opened Effects

  /** The generator's answer is an operation that can be handed out now. */
  ghost predicate Ripe(s: System, ch: Oracle)
    requires Inv(s)
  {
    Answered(s, ch).op.Dispatchable() && Answered(s, ch).op.time <= s.clock
  }

  /** The generator has nothing more and nothing is outstanding. */
  ghost predicate Spent(s: System, ch: Oracle)
    requires Inv(s)
  {
    (Answered(s, ch).op.kind.Nil? || Answered(s, ch).op.kind.Exit?) && s.sched.outstanding == 0
  }

  lemma PollIs(s: System, ch: Oracle)
    requires Inv(s) && s.sched.running
    ensures s.sched.Valid() && s.sched.Context(s.clock).Valid() && Enabled(s, Poll(ch))
    ensures Apply(s, Poll(ch)) == Polled(s, ch)
    ensures Answered(s, ch) == Op(s.sched.gen, s.sched.Context(s.clock), ch)
    ensures s.sched.outstanding >= 0
  {
    hide Op, Asked, Attended, Recorded, Located, Disciplined, Polled;
    InvValid(s);
  }

  /** The three verdicts. */
  lemma AskedIs(c: Sched, now: int, ch: Oracle)
    requires c.Valid() && c.outstanding >= 0
    ensures var op, v := Op(c.gen, c.Context(now), ch).op, Asked(c, now, ch);
            if op.Dispatchable() && op.time <= now then
              && v.Send? && v.op == op && v.sched.history == c.history + [Dispatched(op)]
              && v.sched.running == c.running && v.sched.free == c.free - {v.thread} && v.sched.pollTimeout == 0
            else
              && !v.Send? && v.sched.history == c.history && v.sched.free == c.free
              && (v.Finish? <==> (op.kind.Nil? || op.kind.Exit?) && c.outstanding == 0)
              && v.sched.running == (c.running && !v.Finish?)
  {
    hide Op, Update, ProcessToThread;
  }

  /** How long it waits. */
  lemma AskedWaits(c: Sched, now: int, ch: Oracle)
    requires c.Valid() && Asked(c, now, ch).Wait?
    ensures var op, wait := Op(c.gen, c.Context(now), ch).op, Asked(c, now, ch).sched.pollTimeout;
            if op.Dispatchable() then wait >= 0 && now + 1000 * wait <= op.time < now + 1000 * (wait + 1)
            else wait == MAX_PENDING_INTERVAL
  {
    hide Op, Update, ProcessToThread;
  }

  /** A question hands the operation out if and only if it is ripe.  It goes to the in-queue of a free
      thread that holds its process, which is busy from then on, and into the history. */
  lemma HandsOutIff(s: System, ch: Oracle) returns (t: Thread)
    requires Inv(s) && s.sched.running
    ensures Enabled(s, Poll(ch))
    ensures var s', op := Apply(s, Poll(ch)), Answered(s, ch).op;
            if Ripe(s, ch) then
              && t in s.sched.free && t in s.inq && t in s.sched.workers && s.sched.workers[t] == op.process
              && s'.sched.history == s.sched.history + [Dispatched(op)] && s'.inq == s.inq[t := s.inq[t] + [op]]
              && s'.sched.free == s.sched.free - {t} && s'.sched.running
            else
              && s'.sched.history == s.sched.history && s'.sched.free == s.sched.free
              && (s'.sched.running ==> s'.inq == s.inq)
  {
    hide Inv, Op, Asked, Apply, Answered, Enabled;
    PollIs(s, ch);
    AskedIs(s.sched, s.clock, ch);
    RunningParts(s);
    InvValid(s);
    if Ripe(s, ch) {
      t := AskedThread(s, ch);
    } else {
      t := 0;
    }
  }

  /** The test is over if and only if the generator has nothing more and nothing is outstanding; every
      worker then gets one exit operation. */
  lemma FinishesIff(s: System, ch: Oracle)
    requires Inv(s) && s.sched.running
    ensures Enabled(s, Poll(ch))
    ensures var s' := Apply(s, Poll(ch));
            && (!s'.sched.running <==> Spent(s, ch))
            && (!s'.sched.running ==> s'.inq == map t | t in s.inq :: s.inq[t] + [EXIT])
  {
    hide Inv, Op, Asked, Apply, Answered, Enabled;
    PollIs(s, ch);
    AskedIs(s.sched, s.clock, ch);
  }

  /** The next wait for a completion.  After an operation has been handed out there is none.  An operation
      that is not due yet is not overslept, and the scheduler is back within a microsecond of its time.
      Otherwise the wait is the longest one. */
  lemma WaitsInTime(s: System, ch: Oracle)
    requires Inv(s) && s.sched.running
    ensures Enabled(s, Poll(ch))
    ensures var s', op := Apply(s, Poll(ch)), Answered(s, ch).op;
            s'.sched.running ==>
              && (Ripe(s, ch) ==> s'.sched.pollTimeout == 0)
              && (!Ripe(s, ch) && op.Dispatchable() ==>
                    && s'.sched.pollTimeout >= 0
                    && s.clock + 1000 * s'.sched.pollTimeout <= op.time < s.clock + 1000 * (s'.sched.pollTimeout + 1))
              && (!op.Dispatchable() ==> s'.sched.pollTimeout == MAX_PENDING_INTERVAL)
  {
    hide Inv, Op, Asked, Apply, Answered, Enabled;
    PollIs(s, ch);
    AskedIs(s.sched, s.clock, ch);
    if Asked(s.sched, s.clock, ch).Wait? {
      AskedWaits(s.sched, s.clock, ch);
    }
  }

  /** A completion is stamped with the clock and put into the history, its thread is free again, and the
      scheduler looks for the next one at once. */
  lemma TakesCompletion(s: System, i: nat) returns (t: Thread)
    requires Inv(s) && Enabled(s, Deliver(i))
    ensures i < |s.completions| && s.sched.running
    ensures Home(t, s.completions[i].process, s.sched.free, s.sched.workers, s.inq, s.hand)
    ensures var s', op := Apply(s, Deliver(i)), s.completions[i];
            && s'.sched.history == s.sched.history + [Completed(op.(time := s.clock))]
            && s'.sched.free == s.sched.free + {t} && s'.sched.running && s'.sched.pollTimeout == 0
            && s'.completions == s.completions[..i] + s.completions[i + 1..]
            && s'.inq == s.inq && s'.hand == s.hand
            && s'.sched.workers == if op.kind.Info? && t != NEMESIS then s.sched.workers[t := s.sched.workers[t] + s.n]
                                   else s.sched.workers
  {
    hide Inv, Apply, Enabled, NextProcess, Received, ProcessToThread;
    t := CompletionHome(s, i);
    HeldBy(s, t);
    DeliverIs(s, i);
    ReceivedIs(s.sched, s.completions[i], s.clock);
  }

  lemma ReceivedIs(c: Sched, op: Operation, now: int)
    requires c.Valid() && ProcessToThread(c.workers, op.process) in c.workers
    ensures var c', t := Received(c, op, now), ProcessToThread(c.workers, op.process);
            && c'.history == c.history + [Completed(op.(time := now))] && c'.free == c.free + {t}
            && c'.running == c.running && c'.pollTimeout == 0
            && c'.workers == if op.kind.Info? && op.process != NEMESIS then c.workers[t := NextProcess(c.workers, t)]
                             else c.workers
  {
    hide Update, ProcessToThread, NextProcess;
  }

  lemma DeliverIs(s: System, i: nat)
    requires Inv(s) && Enabled(s, Deliver(i))
    ensures s.sched.Valid() && i < |s.completions| && s.sched.running
    ensures ProcessToThread(s.sched.workers, s.completions[i].process) in s.sched.workers
    ensures Apply(s, Deliver(i)) == Delivered(s, i)
  {
    hide Allocated, Attended, Recorded, Located, Disciplined, Delivered, ProcessToThread;
    DeliverKeeps(s, i);
  }

  /** The thread and its process; only the nemesis has the nemesis process, and what comes next. */
  lemma HeldBy(s: System, t: Thread)
    requires Inv(s) && t in s.sched.workers
    ensures s.sched.workers[t] == NEMESIS <==> t == NEMESIS
    ensures t != NEMESIS ==> NextProcess(s.sched.workers, t) == s.sched.workers[t] + s.n
  {
    hide Attended, Recorded, Located, Disciplined, NextProcess;
    if t != NEMESIS {
      NextProcessKeepsAllocation(s.n, s.sched.workers, t);
    }
  }

  // ----- Workers serve what was handed out -----

  /** The operation is the last entry of its process in the history, and a dispatch. */
  ghost predicate Latest(h: seq<Entry>, op: Operation) {
    exists i :: LatestAt(h, op, i)
  }

  ghost predicate LatestAt(h: seq<Entry>, op: Operation, i: int) {
    0 <= i < |h| && h[i] == Dispatched(op) && forall j | i < j < |h| :: h[j].op.process != op.process
  }

  lemma LatestAmong(h: seq<Entry>, e: Entry, op: Operation)
    requires Latest(h, op) && e.op.process != op.process
    ensures Latest(h + [e], op)
  {
    var i :| LatestAt(h, op, i);
    assert LatestAt(h + [e], op, i);
  }

  lemma LatestNow(h: seq<Entry>, op: Operation)
    ensures Latest(h + [Dispatched(op)], op)
  {
    assert LatestAt(h + [Dispatched(op)], op, |h|);
  }

  /** What a worker has in its queue or in its hands is what the history says was last handed out to its
      process. */
  ghost predicate Genuine(s: System) {
    forall t | t in s.inq && t in s.hand ::
      (forall op | op in s.inq[t] + s.hand[t] && !op.kind.Exit? :: Latest(s.sched.history, op))
  }

  lemma BusyProcess(s: System, t: Thread, op: Operation)
    requires Inv(s) && s.sched.running && t in s.inq && t in s.hand && op in s.inq[t] + s.hand[t]
    ensures t in s.sched.workers && t !in s.sched.free && op.process == s.sched.workers[t]
  {
    hide Inv;
    RunningParts(s);
    Conservation(s, t);
  }

  lemma GenuinePoll(s: System, ch: Oracle)
    requires Inv(s) && s.sched.running && Genuine(s)
    ensures Enabled(s, Poll(ch)) && Genuine(Apply(s, Poll(ch)))
  {
    hide Inv, Op, Apply, Answered, Latest, Enabled;
    var t := HandsOutIff(s, ch);
    FinishesIff(s, ch);
    PollHands(s, ch);
    var s' := Apply(s, Poll(ch));
    if Ripe(s, ch) {
      var h, sent := s.sched.history, Answered(s, ch).op;
      LatestNow(h, sent);
      forall u, op | u in s'.inq && u in s'.hand && op in s'.inq[u] + s'.hand[u] && !op.kind.Exit?
        ensures Latest(s'.sched.history, op)
      {
        if op in s.inq[u] + s.hand[u] {
          BusyProcess(s, u, op);
          OwnProcess(s, t, u);
          LatestAmong(h, Dispatched(sent), op);
        }
      }
    }
  }

  lemma PollHands(s: System, ch: Oracle)
    requires Inv(s) && s.sched.running
    ensures Enabled(s, Poll(ch)) && Apply(s, Poll(ch)).hand == s.hand
  {
    hide Inv, Asked, Posted, Apply, Enabled;
    PollIs(s, ch);
  }

  lemma OwnProcess(s: System, t: Thread, u: Thread)
    requires Inv(s) && t in s.sched.workers && u in s.sched.workers
    ensures t != u ==> s.sched.workers[t] != s.sched.workers[u]
  {
    hide Attended, Recorded, Located, Disciplined, Drained;
    AllocatedInverts(s.n, s.sched.workers, t);
  }

  lemma GenuineDeliver(s: System, i: nat)
    requires Inv(s) && Enabled(s, Deliver(i)) && Genuine(s)
    ensures Genuine(Apply(s, Deliver(i)))
  {
    hide Inv, Op, Apply, Latest, Enabled;
    var s' := Apply(s, Deliver(i));
    var t := TakesCompletion(s, i);
    forall u, op | u in s'.inq && u in s'.hand && op in s'.inq[u] + s'.hand[u] && !op.kind.Exit?
      ensures Latest(s'.sched.history, op)
    {
      BusyProcess(s, u, op);
      OwnProcess(s, t, u);
      LatestAmong(s.sched.history, Completed(s.completions[i].(time := s.clock)), op);
    }
  }

  lemma GenuineStep(s: System, a: Action)
    requires Inv(s) && Enabled(s, a) && Genuine(s)
    ensures Genuine(Apply(s, a))
  {
    hide Attended, Recorded, Located, Disciplined, Allocated, Ready, Latest, AfterInvoke, AfterClose, Polled, Delivered,
        Drained;
    match a
    case Deliver(i) => GenuineDeliver(s, i);
    case Poll(ch) => GenuinePoll(s, ch);
    case _ =>
  }

  lemma {:induction false} GenuineRun(s: System, acts: seq<Action>, s': System)
    requires Inv(s) && Run(s, acts, s') && Genuine(s)
    ensures Genuine(s')
    decreases |acts|
  {
    hide Inv, Enabled, Apply, Genuine;
    if |acts| > 0 {
      GenuineStep(s, acts[0]);
      GenuineRun(Apply(s, acts[0]), acts[1..], s');
    }
  }

  /** In every run, what a worker has in its queue or in its hands is exactly the operation that was last
      handed out to its process, time and payload included. */
  lemma WorkersServeTheHistory(n: nat, clock: int, g: Gen, acts: seq<Action>, s: System, t: Thread, op: Operation)
    requires Fit(g, Threads(n)) && Reachable(n, clock, g, acts, s)
    requires t in s.inq && t in s.hand && op in s.inq[t] + s.hand[t] && !op.kind.Exit?
    ensures Latest(s.sched.history, op)
  {
    hide Inv, Run, Fit, Latest;
    StartInv(n, clock, g);
    GenuineRun(Initial(n, clock, g), acts, s);
  }

  // ----- Every operation handed out is one call -----

  /** The processes of the operations handed out to the thread. */
  function SentTo(n: nat, h: seq<Entry>, t: Thread): seq<int>
    decreases |h|
  {
    if |h| == 0 then []
    else
      var e := h[|h| - 1];
      SentTo(n, h[..|h| - 1], t)
      + if e.Dispatched? && ThreadOf(n, e.op.process) == t then [e.op.process] else []
  }

  lemma SentToNext(n: nat, h: seq<Entry>, e: Entry, t: Thread)
    ensures SentTo(n, h + [e], t) ==
            SentTo(n, h, t) + if e.Dispatched? && ThreadOf(n, e.op.process) == t then [e.op.process] else []
  {
    assert (h + [e])[..|h|] == h;
  }

  /** The processes of the operations in the queue, but for the exit. */
  function Queued(q: seq<Operation>): seq<int> {
    if |q| == 0 then []
    else (if q[0].kind.Exit? then [] else [q[0].process]) + Queued(q[1..])
  }

  lemma {:induction false} QueuedNext(q: seq<Operation>, op: Operation)
    ensures Queued(q + [op]) == Queued(q) + if op.kind.Exit? then [] else [op.process]
  {
    if |q| > 0 {
      QueuedNext(q[1..], op);
      assert (q + [op])[1..] == q[1..] + [op];
    } else {
      assert (q + [op])[1..] == [];
    }
  }

  /** What was handed out to a client is what it was called for, and what waits in its queue. */
  ghost predicate Called(s: System) {
    forall t | t in s.clients && t in s.inq ::
      SentTo(s.n, s.sched.history, t) == Calls(s.clients[t].log) + Queued(s.inq[t])
  }

  lemma PollClients(s: System, ch: Oracle)
    requires Inv(s) && s.sched.running
    ensures Enabled(s, Poll(ch)) && Apply(s, Poll(ch)).clients == s.clients && Apply(s, Poll(ch)).n == s.n
  {
    hide Inv, Asked, Posted, Apply, Enabled;
    PollIs(s, ch);
  }

  lemma CalledPoll(s: System, ch: Oracle)
    requires Inv(s) && s.sched.running && Called(s)
    ensures Enabled(s, Poll(ch)) && Called(Apply(s, Poll(ch)))
  {
    hide Inv, Op, Apply, Answered, Enabled, Calls, Queued, SentTo, ThreadOf;
    var t := HandsOutIff(s, ch);
    FinishesIff(s, ch);
    PollClients(s, ch);
    var s', op, h := Apply(s, Poll(ch)), Answered(s, ch).op, s.sched.history;
    forall u | u in s'.clients && u in s'.inq
      ensures SentTo(s'.n, s'.sched.history, u) == Calls(s'.clients[u].log) + Queued(s'.inq[u])
    {
      assert u in s.inq;
      if Ripe(s, ch) {
        ThreadHolds(s, t);
        SentToNext(s.n, h, Dispatched(op), u);
        QueuedNext(s.inq[u], op);
      }
      QueuedNext(s.inq[u], EXIT);
    }
  }

  lemma ThreadHolds(s: System, t: Thread)
    requires Inv(s) && t in s.sched.workers
    ensures ThreadOf(s.n, s.sched.workers[t]) == t
  {
    hide Attended, Recorded, Located, Disciplined, Drained;
    AllocatedInverts(s.n, s.sched.workers, t);
  }

  lemma CalledDeliver(s: System, i: nat)
    requires Inv(s) && Enabled(s, Deliver(i)) && Called(s)
    ensures Called(Apply(s, Deliver(i)))
  {
    hide Inv, Apply, Enabled, Calls, Queued, SentTo, ThreadOf;
    var t := TakesCompletion(s, i);
    DeliverClients(s, i);
    forall u: Thread {
      SentToNext(s.n, s.sched.history, Completed(s.completions[i].(time := s.clock)), u);
    }
  }

  lemma DeliverClients(s: System, i: nat)
    requires Inv(s) && Enabled(s, Deliver(i))
    ensures Apply(s, Deliver(i)).clients == s.clients && Apply(s, Deliver(i)).n == s.n
  {
    hide Inv, Apply, Enabled, Received;
    DeliverIs(s, i);
  }

  lemma CalledTake(s: System, t: Thread)
    requires Inv(s) && Enabled(s, Take(t)) && Called(s)
    ensures Called(Apply(s, Take(t)))
  {
    hide Inv, Apply, Enabled, AfterInvoke, Calls, SentTo, ThreadOf;
    TakeKeeps(s, t);
    TakeIs(s, t);
    if t in s.clients {
      OneCall(s.clients[t], s.inq[t][0].process);
    }
  }

  lemma TakeIs(s: System, t: Thread)
    requires Inv(s) && Enabled(s, Take(t))
    ensures t in s.inq && |s.inq[t]| > 0 && !s.inq[t][0].kind.Exit?
    ensures t in s.clients ==> (s.clients[t].process != INVALID_PROCESS ==> s.clients[t].client.Some?)
    ensures Apply(s, Take(t)) == Taken(s, t)
  {
    hide Inv, Taken;
    TakeKeeps(s, t);
  }

  lemma CalledStop(s: System, t: Thread)
    requires Inv(s) && Enabled(s, Stop(t)) && Called(s)
    ensures Called(Apply(s, Stop(t)))
  {
    hide Inv, Apply, Enabled, AfterClose, Calls, SentTo, ThreadOf;
    StopIs(s, t);
    if t in s.clients {
      NoCall(s.clients[t]);
    }
  }

  lemma StopIs(s: System, t: Thread)
    requires Inv(s) && Enabled(s, Stop(t))
    ensures t in s.inq && |s.inq[t]| > 0 && s.inq[t][0].kind.Exit? && Apply(s, Stop(t)) == Halted(s, t)
  {
    hide Inv, Halted;
  }

  lemma CalledStep(s: System, a: Action)
    requires Inv(s) && Enabled(s, a) && Called(s)
    ensures Called(Apply(s, a))
  {
    hide Attended, Recorded, Located, Disciplined, Allocated, Ready, AfterInvoke, AfterClose, Polled, Delivered,
        Drained, Calls, Queued, SentTo;
    match a
    case Deliver(i) => CalledDeliver(s, i);
    case Poll(ch) => CalledPoll(s, ch);
    case Take(t) => CalledTake(s, t);
    case Stop(t) => CalledStop(s, t);
    case _ =>
      assert Apply(s, a).clients == s.clients && Apply(s, a).inq == s.inq;
  }

  lemma {:induction false} CalledRun(s: System, acts: seq<Action>, s': System)
    requires Inv(s) && Run(s, acts, s') && Called(s)
    ensures Called(s')
    decreases |acts|
  {
    hide Inv, Enabled, Apply, Called;
    if |acts| > 0 {
      CalledStep(s, acts[0]);
      CalledRun(Apply(s, acts[0]), acts[1..], s');
    }
  }

  /** In every run each operation handed out to a client thread is one call of its client, in the order in
      which they were handed out, but for one that may still be in the queue. */
  lemma OneCallEach(n: nat, clock: int, g: Gen, acts: seq<Action>, s: System, t: Thread)
    requires Fit(g, Threads(n)) && Reachable(n, clock, g, acts, s)
    requires t in s.clients && t in s.inq
    ensures SentTo(n, s.sched.history, t) == Calls(s.clients[t].log) + Queued(s.inq[t])
  {
    hide Inv, Run, Fit, Calls, SentTo;
    StartInv(n, clock, g);
    ReachableInv(n, clock, g, acts, s);
    var s0 := Initial(n, clock, g);
    CalledStart(n, clock, g);
    CalledRun(s0, acts, s);
    RunInv(s0, acts, s);
  }

  lemma CalledStart(n: nat, clock: int, g: Gen)
    ensures Called(Initial(n, clock, g))
  {
  }

  // ----- One client at a time -----

  ghost predicate Single(s: System) {
    forall t | t in s.clients :: OneAtATime(s.clients[t])
  }

  lemma AliveAt(s: System, t: Thread)
    requires Inv(s) && t in s.clients && t !in s.stopped
    ensures Alive(s.clients[t])
  {
    hide Recorded, Disciplined, Ready, Located, Drained, Alive, Allocated;
    assert Tended(s.clients[t], s.sched.workers[t], t in s.stopped);
  }

  lemma SingleStep(s: System, a: Action)
    requires Inv(s) && Enabled(s, a) && Single(s)
    ensures Single(Apply(s, a))
  {
    hide Attended, Recorded, Located, Disciplined, Allocated, Ready, AfterInvoke, AfterClose, Polled, Delivered,
        Drained, OneAtATime, Alive, Posted, Asked, Received;
    match a
    case Deliver(i) => DeliverClients(s, i);
    case Poll(ch) => PollClients(s, ch);
    case Take(t) =>
      TakeIs(s, t);
      if t in s.clients {
        AliveAt(s, t);
        InvokeOneAtATime(s.clients[t], s.inq[t][0].process);
      }
    case Stop(t) =>
      StopIs(s, t);
      if t in s.clients {
        AliveAt(s, t);
        InvokeOneAtATime(s.clients[t], 0);
      }
    case _ =>
      assert Apply(s, a).clients == s.clients;
  }

  lemma {:induction false} SingleRun(s: System, acts: seq<Action>, s': System)
    requires Inv(s) && Run(s, acts, s') && Single(s)
    ensures Single(s')
    decreases |acts|
  {
    hide Inv, Enabled, Apply, Single;
    if |acts| > 0 {
      SingleStep(s, acts[0]);
      SingleRun(Apply(s, acts[0]), acts[1..], s');
    }
  }

  /** In every run no worker opens a client before it has closed all those that it opened before. */
  lemma OneClientAtATime(n: nat, clock: int, g: Gen, acts: seq<Action>, s: System, t: Thread)
    requires Fit(g, Threads(n)) && Reachable(n, clock, g, acts, s) && t in s.clients
    ensures OneAtATime(s.clients[t])
  {
    hide Inv, Run, Fit, OneAtATime;
    StartInv(n, clock, g);
    SingleStart(n, clock, g);
    SingleRun(Initial(n, clock, g), acts, s);
  }

  lemma SingleStart(n: nat, clock: int, g: Gen)
    ensures Single(Initial(n, clock, g))
  {
  }
}
