/** Runs that end: from every state that a finite or a time-limited test can reach, some continuation
    finishes it; a test that is inexhaustible never finishes. */
module Completion {
  import opened Operations
  import opened Contexts
  import opened Generators
  import opened Evaluation
  import opened Leaves
  import opened Streams
  import opened Budgets
  import opened Histories
  import opened Scheduling
  import opened Protocol
  import opened SchedulerSteps
  import opened Runs
  import opened Safety
  import opened Effects
  import opened Provenance
  import opened Delivery
  import opened Cutoffs
  import opened Conformance
  import opened Timing

  // ----- Composing runs -----

  lemma RunCons(s: System, a: Action, acts: seq<Action>, s': System)
    requires Inv(s) && Enabled(s, a) && Run(Apply(s, a), acts, s')
    ensures Run(s, [a] + acts, s')
  {
    hide Inv, Enabled, Apply;
    assert ([a] + acts)[1..] == acts;
  }

  lemma RunNothing(s: System)
    requires Inv(s)
    ensures Run(s, [], s)
  {
  }

  lemma {:induction false} RunConcat(s: System, a: seq<Action>, s1: System, b: seq<Action>, s2: System)
    requires Inv(s) && Run(s, a, s1) && Inv(s1) && Run(s1, b, s2)
    ensures Run(s, a + b, s2)
    decreases |a|
  {
    hide Inv, Enabled, Apply;
    if |a| == 0 {
      assert a + b == b;
    } else {
      RunConcat(Apply(s, a[0]), a[1..], s1, b, s2);
      assert (a + b)[1..] == a[1..] + b;
    }
  }

  lemma ReachableStart(n: nat, clock: int, g: Gen)
    requires Fit(g, Threads(n))
    ensures Reachable(n, clock, g, [], Initial(n, clock, g))
  {
    hide Inv, Fit;
  }

  lemma ReachableMore(n: nat, clock: int, g: Gen, acts: seq<Action>, s: System, more: seq<Action>, s': System)
    requires Fit(g, Threads(n)) && Reachable(n, clock, g, acts, s) && Inv(s) && Run(s, more, s')
    ensures Reachable(n, clock, g, acts + more, s')
  {
    hide Inv, Fit, Run;
    StartInv(n, clock, g);
    RunConcat(Initial(n, clock, g), acts, s, more, s');
  }

  // ----- Operations for now, each for some thread -----

  /** Leaves leave their time open, may each use some thread, and are not pending of themselves. */
  ghost predicate Eager(g: Gen, scope: set<Thread>) {
    TimeUnset(g, scope) && Schedulable(g, scope)
  }

  lemma EagerWithin(a: Gen, b: Gen, scope: set<Thread>)
    requires Within(a, b) && Eager(b, scope)
    ensures Eager(a, scope)
  {
    hide TimeUnset, Schedulable, Within, Disciplined;
    WithinKeeps(a, b, scope);
  }

  lemma EagerStep(s: System, a: Action)
    requires Inv(s) && Enabled(s, a) && Eager(s.sched.gen, Threads(s.n))
    ensures Eager(Apply(s, a).sched.gen, Threads(s.n)) && Apply(s, a).n == s.n
  {
    hide Inv, Enabled, Apply, Eager, Within;
    GenWithin(s, a);
    ApplyKeepsSize(s, a);
    EagerWithin(Apply(s, a).sched.gen, s.sched.gen, Threads(s.n));
  }

  lemma EagerReachable(n: nat, clock: int, g: Gen, acts: seq<Action>, s: System)
    requires Fit(g, Threads(n)) && Eager(g, Threads(n)) && Reachable(n, clock, g, acts, s)
    ensures Eager(s.sched.gen, Threads(s.n)) && s.n == n && s.clock >= clock
  {
    hide Inv, Run, Fit, Eager, Within;
    StartInv(n, clock, g);
    ValidateWithin(g);
    EagerWithin(Validate(g), g, Threads(n));
    EagerRun(Initial(n, clock, g), acts, s);
  }

  lemma {:induction false} EagerRun(s: System, acts: seq<Action>, s': System)
    requires Inv(s) && Run(s, acts, s') && Eager(s.sched.gen, Threads(s.n))
    ensures Eager(s'.sched.gen, Threads(s'.n)) && s'.n == s.n && s'.clock >= s.clock
    decreases |acts|
  {
    hide Inv, Enabled, Apply, Eager, EffectOf, Effected;
    if |acts| > 0 {
      EagerStep(s, acts[0]);
      StepEffect(s, acts[0]);
      EagerRun(Apply(s, acts[0]), acts[1..], s');
    }
  }

  // ----- Draining -----

  lemma NotNegative(s: System)
    requires Inv(s)
    ensures s.sched.outstanding >= 0
  {
    hide Recorded, Attended, Located, Drained, Disciplined, Ready, Allocated;
  }

  /** Moving an outstanding operation along leaves everything else to the scheduler. */
  lemma MoveOutstanding(s: System) returns (a: Action)
    requires Inv(s) && s.sched.running && s.sched.outstanding > 0
    ensures Enabled(s, a) && Load(Apply(s, a)) == Load(s) - 1
    ensures Apply(s, a).sched.running && Apply(s, a).clock == s.clock && Apply(s, a).n == s.n
    ensures Same(Apply(s, a).sched.gen, s.sched.gen) && Sent(Apply(s, a).sched.history) == Sent(s.sched.history)
  {
    hide Inv, Apply, EffectOf, Effected, Load, Same, Sent, Settled;
    a := OutstandingMoves(s);
    SettledStep(s, a);
    EffectKinds(s, a);
    GenEffect(s, a);
    StepEffect(s, a);
    StepRunning(s, a);
    LoadStep(s, a);
  }

  /** What is outstanding can come back without anything else happening. */
  lemma {:induction false} Drain(s: System) returns (acts: seq<Action>, s': System)
    requires Inv(s) && s.sched.running
    ensures Run(s, acts, s') && Inv(s') && s'.sched.running && s'.sched.outstanding == 0
    ensures s'.clock == s.clock && s'.n == s.n && Same(s'.sched.gen, s.sched.gen) && |acts| <= Load(s)
    ensures Sent(s'.sched.history) == Sent(s.sched.history)
    decreases Load(s)
  {
    hide Inv, Run, Apply, Enabled, Load, Erase, Sent;
    NotNegative(s);
    RunNothing(s);
    acts, s' := [], s;
    if s.sched.outstanding > 0 {
      var a := MoveOutstanding(s);
      acts, s' := Drain(Apply(s, a));
      RunCons(s, a, acts, s');
      acts := [a] + acts;
    }
  }

  // ----- Asking with nothing outstanding -----

  lemma Verdicts(c: Sched, now: int, ch: Oracle)
    requires c.Valid()
    ensures var op := Op(c.gen, c.Context(now), ch).op;
            && (op.Dispatchable() && op.time <= now ==> Asked(c, now, ch).Send?)
            && (op.kind.Nil? || op.kind.Exit? ==> c.outstanding <= 0 ==> Asked(c, now, ch).Finish?)
            && (Asked(c, now, ch).Finish? ==> !Asked(c, now, ch).sched.running)
  {
    hide Op, Update, ProcessToThread;
  }

  /** Asking either ends the run or yields an operation that can be handed out. */
  lemma AskWhenIdle(s: System, ch: Oracle)
    requires Inv(s) && s.sched.running && s.sched.outstanding == 0 && Eager(s.sched.gen, Threads(s.n))
    ensures Enabled(s, Poll(ch))
    ensures PollStep(s, ch).sched.running ==> Answered(s, ch).op.Dispatchable()
    ensures Answered(s, ch).op.Dispatchable() && Answered(s, ch).op.time <= s.clock ==> EffectOf(s, Poll(ch)).Dispatch?
  {
    hide Inv, Op, Asked, TimeUnset, Schedulable, Fit;
    InvValid(s);
    var c := s.sched;
    Verdicts(c, s.clock, ch);
    if Answered(s, ch).op.kind.Pending? {
      FitReady(s);
      PendingMeansBusy(c.gen, c.Context(s.clock), ch);
      NobodyBusy(s);
    }
  }

  lemma FitReady(s: System)
    requires Inv(s)
    ensures Ready(s.sched.gen)
  {
    hide Inv;
    InvValid(s);
  }

  // ----- Finite tests -----

  /** The work left in a finite test: four steps for each operation it holds, and the load. */
  ghost function Remaining(s: System): nat {
    4 * Budget(s.sched.gen) + Load(s)
  }

  /** When every next time has come, the answer is for now. */
  lemma AnswerIsNow(s: System, ch: Oracle)
    requires Inv(s) && TimeUnset(s.sched.gen, Threads(s.n)) && Due(s.sched.gen, s.clock) && Answered(s, ch).op.Real()
    ensures Answered(s, ch).op.time == s.clock
  {
    hide Op, Attended, Recorded, Located, Drained, TimeUnset, Due, StaggerFree;
    InvValid(s);
    var t, o, sc, ls := Sound(s.sched.gen, s.sched.Context(s.clock), ch);
  }

  /** With nothing outstanding and every next time past, asking hands out an operation or ends the run. */
  lemma AskWhenDue(s: System, ch: Oracle)
    requires Inv(s) && s.sched.running && s.sched.outstanding == 0 && Eager(s.sched.gen, Threads(s.n))
    requires Finite(s.sched.gen) && Due(s.sched.gen, s.clock)
    ensures Enabled(s, Poll(ch))
    ensures var s' := Apply(s, Poll(ch)); s'.sched.running ==> Finite(s'.sched.gen) && Remaining(s') < Remaining(s)
  {
    hide Inv, Op, TimeUnset, Schedulable, PollStep, EffectOf, Fit, Due, Finite, Budget, Load;
    AskWhenIdle(s, ch);
    if PollStep(s, ch).sched.running {
      AnswerIsNow(s, ch);
      InvValid(s);
      FitReady(s);
      OpSpends(s.sched.gen, s.sched.Context(s.clock), ch);
      GenEffect(s, Poll(ch));
      EffectKinds(s, Poll(ch));
      SameBudget(Apply(s, Poll(ch)).sched.gen, Answered(s, ch).next);
      LoadStep(s, Poll(ch));
    }
  }

  lemma TickOnly(s: System, now: int)
    requires Inv(s) && now >= s.clock
    ensures Enabled(s, Tick(now)) && Apply(s, Tick(now)) == s.(clock := now)
  {
    hide Inv;
  }

  const ANY_ORACLE: Oracle := (p: seq<nat>) => 0

  lemma {:induction false} FiniteFinishes(s: System) returns (acts: seq<Action>, s': System)
    requires Inv(s) && Finite(s.sched.gen) && Eager(s.sched.gen, Threads(s.n))
    ensures Run(s, acts, s') && !s'.sched.running && |acts| <= 2 * Remaining(s) + 2
    decreases Remaining(s)
  {
    hide Inv, Run, Apply, Enabled, Finite, Eager, Same, Budget, Load, Due;
    NotNegative(s);
    RunNothing(s);
    if !s.sched.running {
      acts, s' := [], s;
    } else if s.sched.outstanding > 0 {
      var a := MoveOutstanding(s);
      SameBudget(Apply(s, a).sched.gen, s.sched.gen);
      EagerStep(s, a);
      acts, s' := FiniteFinishes(Apply(s, a));
      RunCons(s, a, acts, s');
      acts := [a] + acts;
    } else {
      var now := DueAtLast(s.sched.gen, s.clock);
      TickOnly(s, now);
      var s1 := Apply(s, Tick(now));
      LoadTick(s, Tick(now));
      AskWhenDue(s1, ANY_ORACLE);
      var s2 := Apply(s1, Poll(ANY_ORACLE));
      EagerStep(s1, Poll(ANY_ORACLE));
      RunNothing(s2);
      acts, s' := [], s2;
      if s2.sched.running {
        acts, s' := FiniteFinishes(s2);
      }
      RunCons(s1, Poll(ANY_ORACLE), acts, s');
      RunCons(s, Tick(now), [Poll(ANY_ORACLE)] + acts, s');
      acts := [Tick(now)] + ([Poll(ANY_ORACLE)] + acts);
    }
  }

  lemma FiniteStep(s: System, a: Action)
    requires Inv(s) && Enabled(s, a) && Finite(s.sched.gen)
    ensures Finite(Apply(s, a).sched.gen)
  {
    hide Inv, Op, EffectOf, Apply, Enabled, Finite, Same, Budget, Fit;
    GenEffect(s, a);
    if EffectOf(s, a).Dispatch? {
      var ch := EffectOf(s, a).ch;
      InvValid(s);
      FitReady(s);
      OpSpends(s.sched.gen, s.sched.Context(s.clock), ch);
      SameBudget(Apply(s, a).sched.gen, Answered(s, ch).next);
    } else {
      SameBudget(Apply(s, a).sched.gen, s.sched.gen);
    }
  }

  lemma {:induction false} FiniteRun(s: System, acts: seq<Action>, s': System)
    requires Inv(s) && Run(s, acts, s') && Finite(s.sched.gen)
    ensures Finite(s'.sched.gen)
    decreases |acts|
  {
    hide Inv, Enabled, Apply, Finite;
    if |acts| > 0 {
      FiniteStep(s, acts[0]);
      FiniteRun(Apply(s, acts[0]), acts[1..], s');
    }
  }

  lemma ValidateFinite(g: Gen)
    requires Finite(g)
    ensures Finite(Validate(g))
  {
  }

  /** Whatever has happened so far in a run of a finite test, with any nesting of lists, filters,
      staggers, time limits and alternatives, it can still finish, within two steps for each unit of
      the work that remains and two more. */
  lemma CanAlwaysFinish(n: nat, clock: int, g: Gen, acts: seq<Action>, s: System)
    returns (more: seq<Action>, s': System)
    requires Fit(g, Threads(n)) && Finite(g) && Eager(g, Threads(n)) && Reachable(n, clock, g, acts, s)
    ensures Reachable(n, clock, g, acts + more, s') && !s'.sched.running && |more| <= 2 * Remaining(s) + 2
  {
    hide Inv, Run, Fit, Finite, Eager, Remaining;
    StartInv(n, clock, g);
    ReachableInv(n, clock, g, acts, s);
    EagerReachable(n, clock, g, acts, s);
    ValidateFinite(g);
    FiniteRun(Initial(n, clock, g), acts, s);
    more, s' := FiniteFinishes(s);
    ReachableMore(n, clock, g, acts, s, more, s');
  }

  /** Such runs exist: a list of operations with open processes and times, on any number of clients,
      has a finished run, and it hands out the list. */
  lemma ListsFinish(n: nat, clock: int, os: seq<Operation>) returns (acts: seq<Action>, s: System)
    requires |os| > 0
    requires forall i | 0 <= i < |os| :: os[i].Dispatchable() && os[i].process == INVALID_PROCESS && os[i].time == 0
    ensures Fit(ListGen(Ops(os)), Threads(n)) && Reachable(n, clock, ListGen(Ops(os)), acts, s)
    ensures !s.sched.running && Sent(s.sched.history) == Requests(os)
  {
    hide Inv, Run, Fit, Remaining, Alternates;
    var g := ListGen(Ops(os));
    OperationsFit(os, Threads(n));
    OperationsEager(os, Threads(n));
    hide Eager, Finite;
    ReachableStart(n, clock, g);
    hide Reachable;
    acts, s := CanAlwaysFinish(n, clock, g, [], Initial(n, clock, g));
    assert [] + acts == acts;
    ExactlyOnce(n, clock, os, acts, s);
  }

  lemma OperationsEager(os: seq<Operation>, scope: set<Thread>)
    requires scope != {} && forall i | 0 <= i < |os| :: os[i].Dispatchable() && os[i].time == 0
    ensures Finite(ListGen(Ops(os))) && Eager(ListGen(Ops(os)), scope)
  {
    var g := ListGen(Ops(os));
    forall i | 0 <= i < |os| ensures Finite(g.gens[i]) {
      assert g.gens[i] == OpGen(os[i]);
    }
    forall o, sc, ls | HasLeaf(g, scope, o, sc, ls) ensures o.time == 0 && sc != {} && !o.kind.Pending? {
      var i :| 0 <= i < |os| && HasLeaf(g.gens[i], scope, o, sc, ls);
      assert g.gens[i] == OpGen(os[i]);
    }
  }

  // ----- No finite test takes more steps than its budget allows -----

  ghost function Bound(s: System): nat {
    if s.sched.running then Remaining(s) else 0
  }

  /** What a step does to the budget. */
  lemma BudgetStep(s: System, a: Action)
    requires Inv(s) && Enabled(s, a) && Finite(s.sched.gen)
    ensures EffectOf(s, a).Dispatch? ==> Budget(Apply(s, a).sched.gen) < Budget(s.sched.gen)
    ensures !EffectOf(s, a).Dispatch? ==> Budget(Apply(s, a).sched.gen) == Budget(s.sched.gen)
  {
    hide Inv, Op, EffectOf, Apply, Enabled, Finite, Same, Budget, Fit;
    GenEffect(s, a);
    if EffectOf(s, a).Dispatch? {
      var ch := EffectOf(s, a).ch;
      InvValid(s);
      FitReady(s);
      OpSpends(s.sched.gen, s.sched.Context(s.clock), ch);
      DispatchIsReal(s, a);
      SameBudget(Apply(s, a).sched.gen, Answered(s, ch).next);
    } else {
      SameBudget(Apply(s, a).sched.gen, s.sched.gen);
    }
  }

  lemma DispatchIsReal(s: System, a: Action)
    requires Inv(s) && Enabled(s, a) && EffectOf(s, a).Dispatch?
    ensures Answered(s, EffectOf(s, a).ch).op.Real()
  {
    hide Inv, Op, EffectOf, Apply, Enabled, Answered, Fit;
    StepEffect(s, a);
  }

  lemma BoundStep(s: System, a: Action)
    requires Inv(s) && Enabled(s, a) && Finite(s.sched.gen)
    ensures Bound(Apply(s, a)) + (if Productive(s, a) then 1 else 0) <= Bound(s)
  {
    hide Inv, EffectOf, Apply, Enabled, Finite, Budget, Load, Effected;
    BudgetStep(s, a);
    StepRunning(s, a);
    EffectKinds(s, a);
    if s.sched.running {
      LoadStep(s, a);
    }
  }

  lemma {:induction false} EffortBound(s: System, acts: seq<Action>, s': System)
    requires Inv(s) && Run(s, acts, s') && Finite(s.sched.gen)
    ensures Effort(s, acts) + Bound(s') <= Bound(s)
    decreases |acts|
  {
    hide Inv, Enabled, Apply, Bound, Productive, Finite;
    if |acts| > 0 {
      BoundStep(s, acts[0]);
      FiniteStep(s, acts[0]);
      EffortBound(Apply(s, acts[0]), acts[1..], s');
    }
  }

  /** No run of a finite test, whatever is nested in it, makes more than four productive steps for each
      operation that the test holds. */
  lemma FourStepsAtMost(n: nat, clock: int, g: Gen, acts: seq<Action>, s: System)
    requires Fit(g, Threads(n)) && Finite(g) && Reachable(n, clock, g, acts, s)
    ensures TotalEffort(n, clock, g, acts) + Bound(s) <= 4 * Budget(g)
  {
    hide Inv, Run, Fit, Finite, Effort;
    StartInv(n, clock, g);
    ValidateFinite(g);
    var s0 := Initial(n, clock, g);
    EffortBound(s0, acts, s);
    SumZero(s0.inq, s0.inq.Keys);
    SumZero(s0.hand, s0.hand.Keys);
    assert Budget(Validate(g)) == Budget(g);
  }

  // ----- Time-limited tests -----

  lemma SameLimited(a: Gen, b: Gen, limit: int)
    requires Same(a, b) && IsLimited(b, limit)
    ensures IsLimited(a, limit)
  {
    assert a.Validate? && Same(a.gen, b.gen);
    assert a.gen.TimeLimit? && Same(a.gen.gen, b.gen.gen);
    SameKeeps(a, b);
    SameKeeps(a.gen.gen, b.gen.gen);
  }

  lemma EagerSame(a: Gen, b: Gen, scope: set<Thread>)
    requires Same(a, b) && Eager(b, scope)
    ensures Eager(a, scope)
  {
    hide Eager, Same, Within;
    SameWithin(a, b);
    EagerWithin(a, b, scope);
  }

  /** Asking a limited test with nothing outstanding ends the run or sets the cutoff. */
  lemma AskSetsCutoff(s: System, limit: int, ch: Oracle)
    requires Inv(s) && s.sched.running && s.sched.outstanding == 0 && s.clock >= 0
    requires IsLimited(s.sched.gen, limit) && Eager(s.sched.gen, Threads(s.n))
    ensures Enabled(s, Poll(ch))
    ensures var s' := Apply(s, Poll(ch));
            && s'.clock == s.clock && IsLimited(s'.sched.gen, limit)
            && (s'.sched.running ==> CutoffOf(s'.sched.gen) != INVALID_TIME)
  {
    hide Inv, Op, Update, IsLimited, TimeUnset, Schedulable, PollStep, EffectOf, Fit, Apply;
    AskWhenIdle(s, ch);
    StepEffect(s, Poll(ch));
    LimitedStep(s, Poll(ch), limit);
    InvValid(s);
    LimitedAnswer(s.sched.gen, limit, s.sched.Context(s.clock), ch);
    ApplyPoll(s, ch);
    if Apply(s, Poll(ch)).sched.running {
      AnsweredTime(s, ch);
      EffectKinds(s, Poll(ch));
    }
  }

  lemma ApplyPoll(s: System, ch: Oracle)
    requires Inv(s) && Enabled(s, Poll(ch))
    ensures Apply(s, Poll(ch)) == PollStep(s, ch)
  {
  }

  /** Past the cutoff and with nothing outstanding, asking ends the run. */
  lemma AskPastCutoff(s: System, limit: int, ch: Oracle)
    requires Inv(s) && s.sched.running && s.sched.outstanding == 0
    requires IsLimited(s.sched.gen, limit) && Eager(s.sched.gen, Threads(s.n))
    requires CutoffOf(s.sched.gen) != INVALID_TIME && CutoffOf(s.sched.gen) <= s.clock
    ensures Enabled(s, Poll(ch)) && !Apply(s, Poll(ch)).sched.running
  {
    hide Inv, Op, IsLimited, TimeUnset, Schedulable, Asked, Fit;
    InvValid(s);
    FinishesPastTheCutoff(s, limit, ch);
    Verdicts(s.sched, s.clock, ch);
  }

  /** Drain, ask, wait for the cutoff, drain, ask. */
  lemma LimitedFinishes(s: System, limit: int) returns (acts: seq<Action>, s': System)
    requires Inv(s) && s.clock >= 0 && IsLimited(s.sched.gen, limit) && Eager(s.sched.gen, Threads(s.n))
    ensures Run(s, acts, s') && !s'.sched.running
  {
    hide Inv, Run, Apply, Enabled, Eager, Same, IsLimited;
    RunNothing(s);
    if !s.sched.running {
      return [], s;
    }
    var ask := Poll(ANY_ORACLE);
    var a1, s1 := Drain(s);
    SameLimited(s1.sched.gen, s.sched.gen, limit);
    EagerSame(s1.sched.gen, s.sched.gen, Threads(s.n));
    AskSetsCutoff(s1, limit, ANY_ORACLE);
    var s2 := Apply(s1, ask);
    EagerStep(s1, ask);
    var a2;
    RunNothing(s2);
    a2, s' := [], s2;
    if s2.sched.running {
      a2, s' := LimitedFinishesSet(s2, limit);
    }
    RunCons(s1, ask, a2, s');
    RunConcat(s, a1, s1, [ask] + a2, s');
    acts := a1 + ([ask] + a2);
  }

  lemma LimitedFinishesSet(s: System, limit: int) returns (acts: seq<Action>, s': System)
    requires Inv(s) && s.sched.running && IsLimited(s.sched.gen, limit) && Eager(s.sched.gen, Threads(s.n))
    requires CutoffOf(s.sched.gen) != INVALID_TIME
    ensures Run(s, acts, s') && !s'.sched.running
  {
    hide Inv, Run, Apply, Enabled, Eager, Same, WellFormed, AddedBefore;
    var ask := Poll(ANY_ORACLE);
    var cutoff := CutoffOf(s.sched.gen);
    var now := if cutoff > s.clock then cutoff else s.clock;
    TickOnly(s, now);
    var s1 := Apply(s, Tick(now));
    var a2, s2 := Drain(s1);
    CutoffIsFinal(s1, limit, a2, s2);
    EagerSame(s2.sched.gen, s1.sched.gen, Threads(s.n));
    AskPastCutoff(s2, limit, ANY_ORACLE);
    s' := Apply(s2, ask);
    RunNothing(s');
    RunCons(s2, ask, [], s');
    RunConcat(s1, a2, s2, [ask] + [], s');
    RunCons(s, Tick(now), a2 + ([ask] + []), s');
    acts := [Tick(now)] + (a2 + ([ask] + []));
  }

  /** Whatever has happened so far in a run of a time-limited test, and whatever it is made of inside,
      functions, mixes and staggers included, it can still finish. */
  lemma LimitedCanAlwaysFinish(n: nat, clock: int, limit: int, inner: Gen, acts: seq<Action>, s: System)
    returns (more: seq<Action>, s': System)
    requires clock >= 0 && Fit(TimeLimit(limit, INVALID_TIME, inner), Threads(n))
    requires Eager(TimeLimit(limit, INVALID_TIME, inner), Threads(n))
    requires Reachable(n, clock, TimeLimit(limit, INVALID_TIME, inner), acts, s)
    ensures Reachable(n, clock, TimeLimit(limit, INVALID_TIME, inner), acts + more, s') && !s'.sched.running
  {
    hide Inv, Run, Fit, TimeUnset, Schedulable, IsLimited;
    var g := TimeLimit(limit, INVALID_TIME, inner);
    ReachableInv(n, clock, g, acts, s);
    EagerReachable(n, clock, g, acts, s);
    LimitHolds(n, clock, limit, inner, acts, s);
    hide Reachable, Eager;
    more, s' := LimitedFinishes(s, limit);
    ReachableMore(n, clock, g, acts, s, more, s');
  }

  // ----- Inexhaustible tests -----

  ghost predicate Endless(g: Gen, s: System) {
    Within(s.sched.gen, g) && Inexhaustible(s.sched.gen) && s.sched.running
  }

  lemma EndlessStep(g: Gen, s: System, a: Action)
    requires Inv(s) && Enabled(s, a) && Endless(g, s) && ExitFree(g, Threads(s.n))
    ensures Endless(g, Apply(s, a)) && Apply(s, a).n == s.n
  {
    hide Inv, Op, Update, EffectOf, Apply, Enabled, Within, Inexhaustible, Fit, ExitFree;
    GenWithin(s, a);
    WithinTrans(Apply(s, a).sched.gen, s.sched.gen, g);
    StepEffect(s, a);
    GenEffect(s, a);
    var gen := Apply(s, a).sched.gen;
    match EffectOf(s, a)
    case Quiet =>
    case Kept(ch) =>
      SameKeeps(gen, s.sched.gen);
      AnswerNotExit(g, s, ch);
      AnswerNotNil(s, ch);
    case Completion(_, _) => SameKeeps(gen, s.sched.gen);
    case Dispatch(ch, _) =>
      SameKeeps(gen, Answered(s, ch).next);
      AnswerNotNil(s, ch);
  }

  lemma AnswerNotNil(s: System, ch: Oracle)
    requires Inv(s) && Inexhaustible(s.sched.gen)
    ensures !Answered(s, ch).op.kind.Nil? && Inexhaustible(Answered(s, ch).next)
  {
    hide Inv, Inexhaustible, Fit;
    InvValid(s);
    FitReady(s);
    hide Op;
    assert Answer(s.sched.gen, Op(s.sched.gen, s.sched.Context(s.clock), ch));
  }

  lemma {:induction false} EndlessRun(g: Gen, s: System, acts: seq<Action>, s': System)
    requires Inv(s) && Run(s, acts, s') && Endless(g, s) && ExitFree(g, Threads(s.n))
    ensures Endless(g, s')
    decreases |acts|
  {
    hide Inv, Enabled, Apply, Endless, ExitFree;
    if |acts| > 0 {
      EndlessStep(g, s, acts[0]);
      EndlessRun(g, Apply(s, acts[0]), acts[1..], s');
    }
  }

  /** A test that is inexhaustible, such as a function or a mix without a time limit, never finishes. */
  lemma InexhaustibleNeverFinishes(n: nat, clock: int, g: Gen, acts: seq<Action>, s: System)
    requires Fit(g, Threads(n)) && Inexhaustible(g) && ExitFree(g, Threads(n)) && Reachable(n, clock, g, acts, s)
    ensures s.sched.running
  {
    hide Inv, Run, Fit, ExitFree, Within;
    StartInv(n, clock, g);
    ValidateWithin(g);
    EndlessRun(g, Initial(n, clock, g), acts, s);
  }
}
