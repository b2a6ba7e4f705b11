/** The runner as it is written: a loop that updates its fields in place
    (src/jepsen/Runner.cpp, lines 159 to 249), here one turn for each scheduler action of a schedule.
    The class is proved to be the transition system of `Runs`, so that everything shown of runs
    holds of it. */
module Running {
  import opened Operations
  import opened Contexts
  import opened Generators
  import opened Evaluation
  import opened Leaves
  import opened Histories
  import opened Workers
  import opened Scheduling
  import opened Protocol
  import opened SchedulerSteps
  import opened Runs
  import opened Safety
  import opened Effects

  /** A run can be extended at its end. */
  lemma {:induction false} RunSnoc(s: System, acts: seq<Action>, s': System, a: Action)
    requires Inv(s) && Run(s, acts, s') && Inv(s') && Enabled(s', a)
    ensures Run(s, acts + [a], Apply(s', a))
    decreases |acts|
  {
    hide Inv, Enabled, Apply;
    if |acts| == 0 {
      assert (acts + [a])[1..] == [];
    } else {
      RunSnoc(Apply(s, acts[0]), acts[1..], s', a);
      assert (acts + [a])[1..] == acts[1..] + [a];
    }
  }

  /** What the invariant gives the two branches of the loop. */
  lemma Looks(s: System)
    requires Inv(s)
    ensures s.sched.Valid() && Injective(s.sched.workers) && s.sched.Context(s.clock).Valid()
    ensures s.inq.Keys == s.sched.workers.Keys
  {
    hide Recorded, Attended, Located, Disciplined, Drained;
    SchedValid(s);
  }

  /** A worker for each client and one for the nemesis, each with the process of its own number. */
  method AssignProcesses(concurrency: nat) returns (workers: map<Thread, int>)
    ensures workers == map t | t in Threads(concurrency) :: t as int
  {
    workers := map[NEMESIS := NEMESIS];
    for i := 0 to concurrency
      invariant forall t :: t in workers <==> t == NEMESIS || 0 <= t < i
      invariant forall t | t in workers :: workers[t] == t
    {
      workers := workers[i := i];
    }
    assert workers.Keys == Threads(concurrency) by {
      assert forall t :: t in ClientThreads(concurrency) <==> 0 <= t < concurrency;
    }
  }

  class Runner {
    const n: nat
    // the context
    var time: int
    var free: set<Thread>
    var workers: map<Thread, int>
    // the variables of the loop
    var outstanding: int
    var pollTimeout: int
    var flag: bool
    var history: seq<Entry>
    var generator: Gen
    // the queues
    var inq: map<Thread, seq<Operation>>
    var completions: seq<Operation>
    // the clock and the worker threads
    var clock: int
    var hand: map<Thread, seq<Operation>>
    var clients: map<Thread, WorkerState>
    var stopped: set<Thread>

    function Loop(): Sched
      reads this
    {
      Sched(time, free, workers, outstanding, pollTimeout, history, generator, flag)
    }

    function State(): System
      reads this
    {
      System(n, clock, Loop(), inq, hand, completions, clients, stopped)
    }

    constructor (concurrency: nat, now: int, g: Gen)
      ensures State() == Initial(concurrency, now, g)
    {
      var ws := AssignProcesses(concurrency);
      var queues: map<Thread, seq<Operation>> := map t | t in ws :: [];
      n, clock, time, outstanding, pollTimeout, flag := concurrency, now, now, 0, 0, true;
      free, workers, history, generator := Threads(concurrency), ws, [], Validate(g);
      inq, hand, completions, stopped := queues, queues, [], {};
      clients := map t | t in ClientThreads(concurrency) :: NEW_WORKER;
    }

    /** A completed operation was taken from the queue. */
    method Complete(done: Operation, now: int)
      requires Loop().Valid() && Injective(workers) && ProcessToThread(workers, done.process) in workers
      modifies this`time, this`free, this`workers, this`outstanding, this`pollTimeout, this`history, this`generator
      ensures Loop() == Received(old(Loop()), done, now)
    {
      hide Update, NextProcess, ProcessToThread;
      var thread := FindThread(workers, done.process);
      var op := done.(time := now);
      time := now;
      free := free + {thread};
      generator := Update(generator, Context(time, free, workers), op);
      if op.process != NEMESIS && op.kind.Info? {
        workers := workers[thread := NextProcess(workers, thread)];
      }
      history := history + [Completed(op)];
      outstanding := outstanding - 1;
      pollTimeout := 0;
    }

    /** The queue stayed empty for the time allowed: the generator is asked. */
    method Ask(now: int, ch: Oracle)
      requires Loop().Valid() && Injective(workers) && inq.Keys == workers.Keys
      requires Asked(Loop(), now, ch).Send? ==> Asked(Loop(), now, ch).thread in workers
      modifies this`time, this`free, this`outstanding, this`pollTimeout, this`history, this`generator, this`flag,
          this`inq
      ensures Loop() == Asked(old(Loop()), now, ch).sched && inq == Posted(old(inq), Asked(old(Loop()), now, ch))
    {
      hide Op, Update, ProcessToThread, Ready, Injective;
      time := now;
      var r := Op(generator, Context(time, free, workers), ch);
      var op := r.op;
      generator := r.after;
      if op.kind.Nil? || op.kind.Exit? {
        Conclude();
      } else if op.kind.Pending? {
        pollTimeout := MAX_PENDING_INTERVAL;
      } else if now < op.time {
        pollTimeout := (op.time - now) / 1000;
      } else {
        Dispatch(op, r.next);
      }
    }

    /** An operation is handed to the worker that holds its process, and the successor takes over. */
    method Dispatch(op: Operation, next: Gen)
      requires Ready(next) && Injective(workers) && inq.Keys == workers.Keys &&
               ProcessToThread(workers, op.process) in workers
      modifies this`time, this`free, this`outstanding, this`pollTimeout, this`history, this`generator, this`inq
      ensures var t := ProcessToThread(workers, op.process);
              && inq == old(inq)[t := old(inq[t]) + [op]]
              && time == op.time && free == old(free) - {t} && outstanding == old(outstanding) + 1 && pollTimeout == 0
              && history == old(history) + [Dispatched(op)]
              && generator == Update(next, Context(op.time, free, workers), op)
    {
      hide Update, ProcessToThread, Ready;
      var thread := FindThread(workers, op.process);
      inq := inq[thread := inq[thread] + [op]];
      time := op.time;
      free := free - {thread};
      generator := Update(next, Context(time, free, workers), op);
      history := history + [Dispatched(op)];
      outstanding := outstanding + 1;
      pollTimeout := 0;
    }

    /** Nothing more to hand out: wait for what is outstanding, or tell every worker to exit. */
    method Conclude()
      modifies this`pollTimeout, this`flag, this`inq
      ensures outstanding > 0 ==> pollTimeout == MAX_PENDING_INTERVAL && flag == old(flag) && inq == old(inq)
      ensures outstanding <= 0 ==>
                pollTimeout == old(pollTimeout) && !flag && inq == map t | t in old(inq) :: old(inq[t]) + [EXIT]
    {
      if outstanding > 0 {
        pollTimeout := MAX_PENDING_INTERVAL;
      } else {
        inq := map t | t in inq :: inq[t] + [EXIT];
        flag := false;
      }
    }

    /** One turn of the loop: a completion if there is one to take, else the generator. */
    method Turn(a: Action)
      requires Inv(State()) && Enabled(State(), a) && (a.Deliver? || a.Poll?)
      modifies this
      ensures State() == Apply(old(State()), a)
    {
      hide Inv, Op, Asked, Received;
      ghost var s := State();
      Looks(s);
      match a
      case Deliver(i) =>
        DeliverKeeps(s, i);
        var op := completions[i];
        completions := RemoveAt(completions, i);
        Complete(op, clock);
      case Poll(ch) =>
        if Asked(s.sched, clock, ch).Send? {
          ghost var t := AskedThread(s, ch);
        }
        Ask(clock, ch);
    }

    /** A step of the clock or of a worker thread. */
    method Elsewhere(a: Action)
      requires Inv(State()) && Enabled(State(), a) && !a.Deliver? && !a.Poll?
      modifies this`clock, this`inq, this`hand, this`completions, this`clients, this`stopped
      ensures State() == Apply(old(State()), a)
    {
      hide Inv, AfterInvoke, AfterClose;
      ghost var s := State();
      match a
      case Tick(now) => clock := now;
      case Take(t) =>
        TakeKeeps(s, t);
        var op := inq[t][0];
        if t in clients {
          clients := clients[t := AfterInvoke(clients[t], op.process)];
        }
        inq, hand := inq[t := inq[t][1..]], hand[t := [op]];
      case Reply(t, result) =>
        hand, completions := hand[t := []], completions + [result];
      case Stop(t) =>
        if t in clients {
          clients := clients[t := AfterClose(clients[t])];
        }
        inq, stopped := inq[t := inq[t][1..]], stopped + {t};
    }

    /** The whole loop under a schedule: it goes on as long as the next action is enabled, and the
        state it leaves is the one the run of those actions leads to. */
    method RunCases(schedule: seq<Action>) returns (k: nat)
      requires Inv(State())
      modifies this
      ensures k <= |schedule| && Inv(State())
      ensures Run(old(State()), schedule[..k], State())
      ensures k < |schedule| ==> !Enabled(State(), schedule[k])
    {
      hide Inv, Apply, Enabled;
      k := 0;
      while k < |schedule| && Enabled(State(), schedule[k])
        invariant k <= |schedule| && Inv(State()) && Run(old(State()), schedule[..k], State())
        decreases |schedule| - k
      {
        ghost var s := State();
        var a := schedule[k];
        RunSnoc(old(State()), schedule[..k], s, a);
        assert schedule[..k + 1] == schedule[..k] + [a];
        if a.Deliver? || a.Poll? {
          Turn(a);
        } else {
          Elsewhere(a);
        }
        k := k + 1;
      }
    }
  }

  /** The worker has nothing in hand and something to take. */
  ghost predicate CanServe(s: System, t: Thread) {
    t in s.clients && t in s.inq && t in s.hand && t !in s.stopped && s.hand[t] == [] && |s.inq[t]| > 0
  }

  /** Taking an operation and replying to it, seen from the worker. */
  lemma TakeAndReply(s: System, t: Thread, reply: Operation) returns (acts: seq<Action>, s': System)
    requires Inv(s) && CanServe(s, t) && !s.inq[t][0].kind.Exit? && reply.process == s.inq[t][0].process
    requires s.clients[t].process != INVALID_PROCESS ==> s.clients[t].client.Some?
    ensures Run(s, acts, s')
    ensures t in s'.clients && s'.clients[t] == AfterInvoke(s.clients[t], s.inq[t][0].process)
    ensures t in s'.inq && s'.inq[t] == s.inq[t][1..] && s'.completions == s.completions + [reply]
  {
    hide Inv, AfterInvoke;
    acts := [Take(t), Reply(t, reply)];
    var s1 := TakeStep(s, t);
    s' := ReplyStep(s1, t, reply);
    RunSnoc(s, [], s, Take(t));
    RunSnoc(s, [] + [Take(t)], s1, Reply(t, reply));
    assert acts == [] + [Take(t)] + [Reply(t, reply)];
  }

  lemma StopAndClose(s: System, t: Thread) returns (acts: seq<Action>, s': System)
    requires Inv(s) && CanServe(s, t) && s.inq[t][0].kind.Exit?
    ensures Run(s, acts, s')
    ensures t in s'.clients && s'.clients[t] == AfterClose(s.clients[t]) && t in s'.inq && s'.inq[t] == s.inq[t][1..]
  {
    hide Inv, AfterClose;
    acts := [Stop(t)];
    s' := StopStep(s, t);
    assert acts[1..] == [];
  }

  /** The worker object in its place in the protocol: a turn of its loop is the worker's steps of the
      transition system, and leaves the object in the state that those leave the worker in. */
  method WorkerTurn(worker: ClientWorker, serve: Operation -> Operation, ghost s: System, t: Thread)
    returns (ghost acts: seq<Action>, ghost s': System)
    requires Inv(s) && CanServe(s, t) && (forall o :: serve(o).process == o.process)
    requires worker.State() == s.clients[t] && worker.inq == s.inq[t] && worker.Valid()
    modifies worker
    ensures Run(s, acts, s') && t in s'.clients && t in s'.inq
    ensures worker.State() == s'.clients[t] && worker.inq == s'.inq[t]
    ensures if s.inq[t][0].kind.Exit? then worker.out == old(worker.out)
            else
              && worker.out == old(worker.out) + [serve(s.inq[t][0])]
              && s'.completions == s.completions + [serve(s.inq[t][0])]
  {
    hide Inv, AfterInvoke, AfterClose, Run;
    var flag := worker.ServeNext(serve);
    if flag {
      acts, s' := TakeAndReply(s, t, serve(s.inq[t][0]));
    } else {
      acts, s' := StopAndClose(s, t);
      worker.CloseClient();
    }
  }

  /** A whole test: the runner is made and driven through a schedule.  Its history alternates for each
      process, crashed processes do not return, and if the loop has ended nothing is open or queued. */
  method RunTest(concurrency: nat, now: int, g: Gen, schedule: seq<Action>) returns (r: Runner, k: nat)
    requires Fit(g, Threads(concurrency))
    ensures k <= |schedule| && Reachable(concurrency, now, g, schedule[..k], r.State())
    ensures Alternates(r.history) && NoReuse(r.history)
    ensures !r.flag ==> r.outstanding == 0 && r.completions == [] && forall p: int :: Open(r.history, p) == 0
  {
    hide Inv, Run, Fit, Alternates, NoReuse;
    StartInv(concurrency, now, g);
    r := new Runner(concurrency, now, g);
    k := r.RunCases(schedule);
    WellFormedHistory(concurrency, now, g, schedule[..k], r.State());
  }
}
