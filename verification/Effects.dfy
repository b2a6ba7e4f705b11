/** What a step does to the generator and the history, whatever else it does. */
module Effects {
  import opened Operations
  import opened Contexts
  import opened Generators
  import opened Evaluation
  import opened Leaves
  import opened Histories
  import opened Workers
  import opened Scheduling
  import opened Protocol
  import opened SchedulerSteps
  import opened Runs

  datatype Effect =
    | Quiet                                          // neither is touched
    | Kept(ch: Oracle)                               // the generator was asked, the successor thrown away
    | Completion(event: Operation, ctx: Context)     // an operation came back
    | Dispatch(ch: Oracle, ctx: Context)             // an operation was handed out

  lemma InvValid(s: System)
    requires Inv(s)
    ensures s.sched.Valid() && s.sched.Context(s.clock).Valid() && Fit(s.sched.gen, s.sched.workers.Keys)
    ensures s.sched.workers.Keys == Threads(s.n)
  {
    hide Recorded, Attended, Located, Disciplined, Drained;
    SchedValid(s);
  }

  /** The answer the generator would give now. */
  ghost function Answered(s: System, ch: Oracle): OpResult
    requires Inv(s)
  {
    InvValid(s);
    Op(s.sched.gen, s.sched.Context(s.clock), ch)
  }

  ghost function EffectOf(s: System, a: Action): Effect
    requires Inv(s) && Enabled(s, a)
  {
    match a
    case Deliver(i) =>
      InvValid(s);
      var op := s.completions[i];
      Completion(op.(time := s.clock),
          Context(s.clock, s.sched.free + {ProcessToThread(s.sched.workers, op.process)}, s.sched.workers))
    case Poll(ch) =>
      InvValid(s);
      var v := Asked(s.sched, s.clock, ch);
      if v.Send? then Dispatch(ch, Context(v.op.time, s.sched.free - {v.thread}, s.sched.workers)) else Kept(ch)
    case _ => Quiet
  }

  /** The scheduler before and after, by effect. */
  ghost predicate Effected(s: System, e: Effect, s': System)
    requires Inv(s)
  {
    match e
    case Quiet => s'.sched == s.sched
    case Kept(ch) =>
      && s'.sched.gen == Answered(s, ch).after && s'.sched.history == s.sched.history
      && (!s'.sched.running ==> Answered(s, ch).op.kind.Nil? || Answered(s, ch).op.kind.Exit?)
    case Completion(event, ctx) =>
      && Ready(s.sched.gen) && s'.sched.gen == Update(s.sched.gen, ctx, event)
      && s'.sched.history == s.sched.history + [Completed(event)] && event.time == s.clock
      && s'.sched.running
    case Dispatch(ch, ctx) =>
      var r := Answered(s, ch);
      && Ready(r.next) && s'.sched.gen == Update(r.next, ctx, r.op)
      && s'.sched.history == s.sched.history + [Dispatched(r.op)]
      && r.op.Dispatchable() && r.op.time <= s.clock && s'.sched.running
  }

  lemma DeliverEffect(s: System, i: nat)
    requires Inv(s) && Enabled(s, Deliver(i))
    ensures Effected(s, EffectOf(s, Deliver(i)), DeliverStep(s, i))
  {
    hide Inv, Op, Update, ProcessToThread, NextProcess, Fit;
    InvValid(s);
  }

  /** What asking does to the scheduler, by verdict. */
  lemma AskedEffect(c: Sched, now: int, ch: Oracle)
    requires c.Valid()
    ensures var r, v := Op(c.gen, c.Context(now), ch), Asked(c, now, ch);
            if v.Send? then
              && v.op == r.op && r.op.Dispatchable() && r.op.time <= now && v.sched.running == c.running
              && v.sched.gen == Update(r.next, Context(r.op.time, c.free - {v.thread}, c.workers), r.op)
              && v.sched.history == c.history + [Dispatched(r.op)]
            else
              && v.sched.gen == r.after && v.sched.history == c.history
              && (v.Finish? ==> r.op.kind.Nil? || r.op.kind.Exit?)
              && (v.Wait? ==> v.sched.running == c.running)
  {
    hide Op, Update, ProcessToThread;
  }

  lemma PollEffect(s: System, ch: Oracle)
    requires Inv(s) && Enabled(s, Poll(ch))
    ensures Effected(s, EffectOf(s, Poll(ch)), PollStep(s, ch))
    ensures PollStep(s, ch).clock == s.clock && PollStep(s, ch).n == s.n
  {
    hide Inv, Op, Update, Asked, Fit, Ready;
    InvValid(s);
    AskedEffect(s.sched, s.clock, ch);
  }

  lemma StepEffect(s: System, a: Action)
    requires Inv(s) && Enabled(s, a)
    ensures Effected(s, EffectOf(s, a), Apply(s, a))
    ensures Apply(s, a).clock >= s.clock && Apply(s, a).n == s.n
    ensures s.sched.running || EffectOf(s, a) == Quiet
    ensures a.Tick? || Apply(s, a).clock == s.clock
  {
    hide Inv, Op, Update, ProcessToThread, NextProcess, AfterInvoke, AfterClose, Fit, Answered, Received, PollStep,
        Asked;
    if a.Deliver? {
      DeliverEffect(s, a.i);
    } else if a.Poll? {
      PollEffect(s, a.ch);
    }
  }

  /** Asking is what hands an operation out or throws a successor away. */
  lemma EffectKinds(s: System, a: Action)
    requires Inv(s) && Enabled(s, a)
    ensures a.Poll? <==> EffectOf(s, a).Dispatch? || EffectOf(s, a).Kept?
    ensures a.Poll? ==> EffectOf(s, a).ch == a.ch
  {
    hide Inv, Op, ProcessToThread;
  }

  /** Up to cutoffs and next times the generator changes only when an operation is handed out, and
      then into the successor: thrown-away successors leave no trace. */
  lemma GenEffect(s: System, a: Action)
    requires Inv(s) && Enabled(s, a)
    ensures EffectOf(s, a).Dispatch? ==> Same(Apply(s, a).sched.gen, Answered(s, EffectOf(s, a).ch).next)
    ensures !EffectOf(s, a).Dispatch? ==> Same(Apply(s, a).sched.gen, s.sched.gen)
  {
    hide Inv, Op, Update, EffectOf, Apply, Fit;
    StepEffect(s, a);
    InvValid(s);
    match EffectOf(s, a)
    case Quiet =>
    case Kept(ch) =>
    case Completion(event, ctx) => UpdateSame(s.sched.gen, ctx, event);
    case Dispatch(ch, ctx) => UpdateSame(Answered(s, ch).next, ctx, Answered(s, ch).op);
  }
}
