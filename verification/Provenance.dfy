/** Over whole runs: every operation handed out is one that the test's generator holds for that thread. */
module Provenance {
  import opened Operations
  import opened Contexts
  import opened Generators
  import opened Evaluation
  import opened Leaves
  import opened Histories
  import opened Scheduling
  import opened Protocol
  import opened SchedulerSteps
  import opened Runs
  import opened Safety
  import opened Effects

  /** The leaf yields the request of the operation, and its process belongs to a thread that every filter
      around the leaf accepts. */
  ghost predicate LeafFor(g: Gen, n: nat, op: Operation, o: Operation, sc: set<Thread>, ls: seq<int>) {
    HasLeaf(g, Threads(n), o, sc, ls) && ThreadOf(n, op.process) in sc && op.AsIs() == o.FilledIn()
  }

  ghost predicate FromLeaf(g: Gen, n: nat, op: Operation) {
    exists o, sc, ls :: LeafFor(g, n, op, o, sc, ls)
  }

  ghost predicate Traced(g: Gen, s: System) {
    && Within(s.sched.gen, g)
    && forall i | 0 <= i < |s.sched.history| && s.sched.history[i].Dispatched? ::
         FromLeaf(g, s.n, s.sched.history[i].op)
  }

  lemma AnswerFromLeaf(g: Gen, s: System, ch: Oracle)
    requires Inv(s) && Within(s.sched.gen, g) && Answered(s, ch).op.Real()
    ensures FromLeaf(g, s.n, Answered(s, ch).op)
  {
    hide Op, Attended, Recorded, Located, Drained, Within;
    InvValid(s);
    var c := s.sched;
    var t, o, sc, ls := Sound(c.gen, c.Context(s.clock), ch);
    AllocatedInverts(s.n, c.workers, t);
    LeafOfWithin(c.gen, g, Threads(s.n), o, sc, ls);
    assert LeafFor(g, s.n, Answered(s, ch).op, o, sc, ls);
  }

  lemma LeafOfWithin(a: Gen, b: Gen, scope: set<Thread>, o: Operation, sc: set<Thread>, ls: seq<int>)
    requires Within(a, b) && HasLeaf(a, scope, o, sc, ls)
    ensures HasLeaf(b, scope, o, sc, ls)
  {
  }

  /** No step gives the generator a leaf that it did not have. */
  lemma GenWithin(s: System, a: Action)
    requires Inv(s) && Enabled(s, a)
    ensures Within(Apply(s, a).sched.gen, s.sched.gen)
  {
    hide Inv, Op, EffectOf, Apply, Within, Same, Answered, Enabled;
    GenEffect(s, a);
    var gen := Apply(s, a).sched.gen;
    if EffectOf(s, a).Dispatch? {
      var next := Answered(s, EffectOf(s, a).ch).next;
      SameWithin(gen, next);
      AnsweredWithin(s, EffectOf(s, a).ch);
      WithinTrans(gen, next, s.sched.gen);
    } else {
      SameWithin(gen, s.sched.gen);
    }
  }

  lemma TracedStep(g: Gen, s: System, a: Action)
    requires Inv(s) && Enabled(s, a) && Traced(g, s)
    ensures Traced(g, Apply(s, a))
  {
    hide Inv, Op, Update, EffectOf, Apply, Within, FromLeaf, Answered, Enabled;
    StepEffect(s, a);
    GenWithin(s, a);
    WithinTrans(Apply(s, a).sched.gen, s.sched.gen, g);
    if EffectOf(s, a).Dispatch? {
      AnswerFromLeaf(g, s, EffectOf(s, a).ch);
    }
  }

  lemma AnsweredWithin(s: System, ch: Oracle)
    requires Inv(s)
    ensures Within(Answered(s, ch).next, s.sched.gen)
  {
    hide Inv, Op, Within;
    InvValid(s);
    NextWithin(s.sched.gen, s.sched.Context(s.clock), ch);
  }

  lemma {:induction false} TracedRun(g: Gen, s: System, acts: seq<Action>, s': System)
    requires Inv(s) && Run(s, acts, s') && Traced(g, s)
    ensures Traced(g, s')
    decreases |acts|
  {
    hide Inv, Enabled, Traced, Apply;
    if |acts| > 0 {
      TracedStep(g, s, acts[0]);
      TracedRun(g, Apply(s, acts[0]), acts[1..], s');
    }
  }

  /** However generators are nested, and whatever the interleaving and the random choices: an operation
      is only ever handed to a thread that all filters around its leaf accept, so client operations
      never reach the nemesis nor the reverse. */
  lemma EveryDispatchIsOffered(n: nat, clock: int, g: Gen, acts: seq<Action>, s: System, i: nat)
    requires Fit(g, Threads(n)) && Reachable(n, clock, g, acts, s)
    requires i < |s.sched.history| && s.sched.history[i].Dispatched?
    ensures FromLeaf(g, n, s.sched.history[i].op)
  {
    hide Inv, FromLeaf, Run, Fit;
    StartInv(n, clock, g);
    ReachableInv(n, clock, g, acts, s);
    var s0 := Initial(n, clock, g);
    ValidateWithin(g);
    TracedRun(g, s0, acts, s);
  }

  lemma ValidateWithin(g: Gen)
    ensures Within(Validate(g), g)
  {
  }

  /** Over whole runs of a generator whose leaves may each use some thread and are not pending of
      themselves: the scheduler never waits in vain. Unless it hands out an operation, finishes, or
      waits for the time of an operation, some operation is outstanding and can move on. */
  lemma NeverWaitsInVain(n: nat, clock: int, g: Gen, acts: seq<Action>, s: System, ch: Oracle) returns (a: Action)
    requires Fit(g, Threads(n)) && Reachable(n, clock, g, acts, s) && Inv(s)
    requires Schedulable(g, Threads(n)) && s.sched.running && s.sched.Valid()
    requires Asked(s.sched, s.clock, ch).Wait?
    requires Op(s.sched.gen, s.sched.Context(s.clock), ch).op.Real() ==>
               Op(s.sched.gen, s.sched.Context(s.clock), ch).op.time <= s.clock
    ensures Busywork(s, a)
  {
    hide Inv, Run, Fit, Op, Asked, Within, Schedulable;
    StartInv(n, clock, g);
    ReachableInv(n, clock, g, acts, s);
    ValidateWithin(g);
    TracedRun(g, Initial(n, clock, g), acts, s);
    WithinKeeps(s.sched.gen, g, Threads(n));
    InvValid(s);
    a := NoDeadlock(s, ch);
  }
}
