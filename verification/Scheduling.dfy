/** One turn of the scheduler loop, as a function of the scheduler's own state
    (src/jepsen/Runner.cpp, lines 184 to 248). */
module Scheduling {
  import opened Operations
  import opened Contexts
  import opened Generators
  import opened Evaluation
  import opened Histories

  /** How long the scheduler waits for a completion, in microseconds, when it has nothing to hand out. */
  const MAX_PENDING_INTERVAL := 1000

  datatype Sched = Sched(
    time: int,
    free: set<Thread>,
    workers: map<Thread, int>,
    outstanding: int,
    pollTimeout: int,
    history: seq<Entry>,
    gen: Gen,
    running: bool)
  {
    function Context(now: int): Context {
      Contexts.Context.Context(now, free, workers)
    }

    ghost predicate Valid() {
      Ready(gen) && Context(time).Valid()
    }
  }

  /** A completion has arrived. */
  function Received(s: Sched, op: Operation, now: int): Sched
    requires s.Valid() && ProcessToThread(s.workers, op.process) in s.workers
  {
    var thread := ProcessToThread(s.workers, op.process);
    var event := op.(time := now);
    var free := s.free + {thread};
    var workers := if op.process != NEMESIS && op.kind.Info?
                   then s.workers[thread := NextProcess(s.workers, thread)] else s.workers;
    Sched(now, free, workers, s.outstanding - 1, 0, s.history + [Completed(event)],
          Update(s.gen, Contexts.Context.Context(now, free, s.workers), event), s.running)
  }

  /** What the scheduler does when no completion has arrived. */
  datatype Verdict =
    | Wait(sched: Sched)
    | Send(sched: Sched, thread: Thread, op: Operation)
    | Finish(sched: Sched)

  /** The generator is asked; only when an operation is handed out does its successor take over. */
  function Asked(s: Sched, now: int, ch: Oracle): Verdict
    requires s.Valid()
  {
    var r := Op(s.gen, s.Context(now), ch);
    var kept := s.(time := now, gen := r.after);
    if r.op.kind.Nil? || r.op.kind.Exit? then
      if s.outstanding > 0 then Wait(kept.(pollTimeout := MAX_PENDING_INTERVAL))
      else Finish(kept.(running := false))
    else if r.op.kind.Pending? then
      Wait(kept.(pollTimeout := MAX_PENDING_INTERVAL))
    else if now < r.op.time then
      Wait(kept.(pollTimeout := (r.op.time - now) / 1000))
    else
      var thread := ProcessToThread(s.workers, r.op.process);
      var free := s.free - {thread};
      Send(Sched(r.op.time, free, s.workers, s.outstanding + 1, 0, s.history + [Dispatched(r.op)],
                 Update(r.next, Contexts.Context.Context(r.op.time, free, s.workers), r.op), s.running),
           thread, r.op)
  }

  /** The in-queues after the verdict: one operation for one worker, or an exit for each. */
  function Posted(inq: map<Thread, seq<Operation>>, v: Verdict): map<Thread, seq<Operation>> {
    match v
    case Wait(_) => inq
    case Send(_, t, op) => if t in inq then inq[t := inq[t] + [op]] else inq
    case Finish(_) => map t | t in inq :: inq[t] + [EXIT]
  }
}
