/** Whole runs of the system: every interleaving of enabled actions. */
module Runs {
  import opened Operations
  import opened Contexts
  import opened Generators
  import opened Leaves
  import opened Protocol
  import opened SchedulerSteps

  ghost function TickStep(s: System, now: int): (s': System)
    requires Inv(s) && Enabled(s, Tick(now))
    ensures Inv(s')
  {
    TickKeeps(s, now);
    s.(clock := now)
  }

  lemma TickKeeps(s: System, now: int)
    requires Inv(s) && now >= s.clock
    ensures Inv(s.(clock := now))
  {
    hide Recorded, Attended, Located, Disciplined, Ready, Allocated;
  }

  ghost function DeliverStep(s: System, i: nat): (s': System)
    requires Inv(s) && Enabled(s, Deliver(i))
    ensures Inv(s')
  {
    DeliverKeeps(s, i);
    Delivered(s, i)
  }

  ghost function PollStep(s: System, ch: Oracle): (s': System)
    requires Inv(s) && Enabled(s, Poll(ch))
    ensures Inv(s')
  {
    PollKeeps(s, ch);
    Polled(s, ch)
  }

  ghost function TakeStep(s: System, t: Thread): (s': System)
    requires Inv(s) && Enabled(s, Take(t))
    ensures Inv(s')
  {
    hide *;
    TakeKeeps(s, t);
    Taken(s, t)
  }

  ghost function ReplyStep(s: System, t: Thread, result: Operation): (s': System)
    requires Inv(s) && Enabled(s, Reply(t, result))
    ensures Inv(s')
  {
    ReplyKeeps(s, t, result);
    Replied(s, t, result)
  }

  ghost function StopStep(s: System, t: Thread): (s': System)
    requires Inv(s) && Enabled(s, Stop(t))
    ensures Inv(s')
  {
    StopKeeps(s, t);
    Halted(s, t)
  }

  /** One step.  The invariant is what makes the step well defined: no lookup fails, no free thread is
      missing a worker and the generator can be asked. */
  ghost function Apply(s: System, a: Action): (s': System)
    requires Inv(s) && Enabled(s, a)
    ensures Inv(s')
  {
    match a
    case Tick(now) => TickStep(s, now)
    case Deliver(i) => DeliverStep(s, i)
    case Poll(ch) => PollStep(s, ch)
    case Take(t) => TakeStep(s, t)
    case Reply(t, result) => ReplyStep(s, t, result)
    case Stop(t) => StopStep(s, t)
  }

  /** The actions lead from `s` to `s'`. */
  ghost predicate Run(s: System, acts: seq<Action>, s': System)
    requires Inv(s)
    decreases |acts|
  {
    if |acts| == 0 then s' == s
    else Enabled(s, acts[0]) && Run(Apply(s, acts[0]), acts[1..], s')
  }

  /** Every state of every run satisfies the invariant. */
  lemma {:induction false} RunInv(s: System, acts: seq<Action>, s': System)
    requires Inv(s) && Run(s, acts, s')
    ensures Inv(s') && s'.n == s.n
    decreases |acts|
  {
    hide Inv, Enabled;
    if |acts| > 0 {
      ApplyKeepsSize(s, acts[0]);
      RunInv(Apply(s, acts[0]), acts[1..], s');
    }
  }

  lemma ApplyKeepsSize(s: System, a: Action)
    requires Inv(s) && Enabled(s, a)
    ensures Apply(s, a).n == s.n
  {
    hide Inv;
  }
}
