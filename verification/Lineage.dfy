/** Over whole runs: time limits at any depth keep their cutoffs, dispatches included; and what that
    means for alternatives that are each under a limit of their own. */
module Lineage {
  import opened Operations
  import opened Contexts
  import opened Generators
  import opened Evaluation
  import opened Leaves
  import opened Cutoffs
  import opened Descents
  import opened Alternatives
  import opened Histories
  import opened Scheduling
  import opened Protocol
  import opened SchedulerSteps
  import opened Runs
  import opened Safety
  import opened Effects
  import opened Provenance
  import opened Timing

  /** Every step of the system, whether it hands an operation out, throws a successor away or takes a
      completion, leaves a descendant of the generator. */
  lemma DescendsStep(s: System, a: Action)
    requires Inv(s) && Enabled(s, a)
    ensures Descends(s.sched.gen, Apply(s, a).sched.gen)
  {
    hide Inv, Op, Update, EffectOf, Apply, Enabled, Settled, Descends, Fit, Sent, Ready;
    var gen := Apply(s, a).sched.gen;
    StepEffect(s, a);
    if EffectOf(s, a).Dispatch? {
      var ch, ctx := EffectOf(s, a).ch, EffectOf(s, a).ctx;
      var r := Answered(s, ch);
      AnsweredDescends(s, ch);
      UpdateSettled(r.next, ctx, r.op);
      SettledDescends(r.next, gen);
      DescendsTrans(s.sched.gen, r.next, gen);
    } else {
      SettledStep(s, a);
      SettledDescends(s.sched.gen, gen);
    }
  }

  lemma AnsweredDescends(s: System, ch: Oracle)
    requires Inv(s)
    ensures Descends(s.sched.gen, Answered(s, ch).next)
  {
    hide Inv, Op, Descends;
    InvValid(s);
    NextDescends(s.sched.gen, s.sched.Context(s.clock), ch);
  }

  /** From any state of a run to any later one: every time limit that is left, at whatever depth,
      descends from one that was there and keeps its cutoff if that was set. */
  lemma {:induction false} CutoffsAreInherited(s: System, acts: seq<Action>, s': System)
    requires Inv(s) && Run(s, acts, s')
    ensures Descends(s.sched.gen, s'.sched.gen)
    decreases |acts|
  {
    hide Inv, Enabled, Apply, Descends;
    if |acts| > 0 {
      var s1 := Apply(s, acts[0]);
      DescendsStep(s, acts[0]);
      CutoffsAreInherited(s1, acts[1..], s');
      DescendsTrans(s.sched.gen, s1.sched.gen, s'.sched.gen);
    } else {
      SettledSelf(s.sched.gen);
      SettledDescends(s.sched.gen, s.sched.gen);
    }
  }

  // ----- Every limit around the leaf, at any depth -----

  /** What keeps the cutoffs keeps the guard. */
  lemma {:induction false} SettledGuarded(g: Gen, h: Gen, ls: seq<int>, now: int)
    requires Settled(g, h) && Guarded(g, ls, now)
    ensures Guarded(h, ls, now)
    decreases g
  {
    if ls != [] {
      match g
      case ListGen(gs) => SettledBranchGuarded(gs, h.gens, ls, now);
      case Validate(c) => SettledGuarded(c, h.gen, ls, now);
      case OnThreads(c, _) => SettledGuarded(c, h.gen, ls, now);
      case TimeLimit(_, _, c) => SettledGuarded(c, h.gen, ls[1..], now);
      case Stagger(_, _, c) => SettledGuarded(c, h.gen, ls, now);
      case Mix(_, gs) => SettledBranchGuarded(gs, h.gens, ls, now);
      case Any(gs) => SettledBranchGuarded(gs, h.gens, ls, now);
    }
  }

  lemma {:induction false} SettledBranchGuarded(gs: seq<Gen>, hs: seq<Gen>, ls: seq<int>, now: int)
    requires SettledAll(gs, hs) && exists i :: 0 <= i < |gs| && Guarded(gs[i], ls, now)
    ensures exists i :: 0 <= i < |hs| && Guarded(hs[i], ls, now)
    decreases gs
  {
    hide Settled;
    var i :| 0 <= i < |gs| && Guarded(gs[i], ls, now);
    SettledGuarded(gs[i], hs[i], ls, now);
  }

  /** The operation is that of a leaf of `g` for its thread, and along some branch of `now` the time
      limits are those around that leaf, all with cutoffs that are set and later than the operation. */
  ghost predicate WithinLimits(g: Gen, n: nat, op: Operation, now: Gen) {
    exists o, sc, ls :: LeafFor(g, n, op, o, sc, ls) && Guarded(now, ls, op.time)
  }

  lemma DispatchWithinLimits(g: Gen, s: System, a: Action)
    requires Inv(s) && Enabled(s, a) && EffectOf(s, a).Dispatch? && Within(s.sched.gen, g)
    requires s.clock >= 0 && TimeUnset(s.sched.gen, Threads(s.n))
    ensures WithinLimits(g, s.n, Answered(s, EffectOf(s, a).ch).op, Apply(s, a).sched.gen)
  {
    hide Inv, Op, Update, EffectOf, Apply, Enabled, Within, TimeUnset, Settled, Fit, HasLeaf, Guarded, Disciplined;
    StepEffect(s, a);
    var ch, ctx := EffectOf(s, a).ch, EffectOf(s, a).ctx;
    var r, gen := Answered(s, ch), Apply(s, a).sched.gen;
    var t, o, sc, ls := AnsweredLeaf(g, s, ch);
    UpdateSettled(r.next, ctx, r.op);
    SettledGuarded(r.next, gen, ls, s.clock);
    assert LeafFor(g, s.n, r.op, o, sc, ls);
  }

  lemma AnsweredLeaf(g: Gen, s: System, ch: Oracle) returns (t: Thread, o: Operation, sc: set<Thread>, ls: seq<int>)
    requires Inv(s) && Within(s.sched.gen, g) && Answered(s, ch).op.Real()
    requires s.clock >= 0 && TimeUnset(s.sched.gen, Threads(s.n))
    ensures HasLeaf(g, Threads(s.n), o, sc, ls) && t in sc && Answered(s, ch).op.AsIs() == o.FilledIn()
    ensures ThreadOf(s.n, Answered(s, ch).op.process) == t
    ensures Guarded(Answered(s, ch).next, ls, s.clock) && Answered(s, ch).op.time >= s.clock
  {
    hide Op, Attended, Recorded, Located, Drained, Within, Guarded;
    InvValid(s);
    var c := s.sched;
    t, o, sc, ls := Sound(c.gen, c.Context(s.clock), ch);
    AllocatedInverts(s.n, c.workers, t);
    LeafOfWithin(c.gen, g, Threads(s.n), o, sc, ls);
  }

  lemma HistoryStep(s: System, a: Action)
    requires Inv(s) && Enabled(s, a)
    ensures var h, h' := s.sched.history, Apply(s, a).sched.history;
            if EffectOf(s, a).Dispatch? then h' == h + [Dispatched(Answered(s, EffectOf(s, a).ch).op)]
            else h' == h || exists e :: h' == h + [Completed(e)]
    ensures Apply(s, a).clock >= s.clock && Apply(s, a).n == s.n
  {
    hide Inv, Op, Update, EffectOf, Apply, Enabled, Answered, Fit;
    StepEffect(s, a);
  }

  lemma {:induction false} HistoryGrows(s: System, acts: seq<Action>, s': System)
    requires Inv(s) && Run(s, acts, s')
    ensures s.sched.history <= s'.sched.history
    decreases |acts|
  {
    hide Inv, Enabled, Apply, EffectOf, Answered;
    if |acts| > 0 {
      HistoryStep(s, acts[0]);
      HistoryGrows(Apply(s, acts[0]), acts[1..], s');
    }
  }

  lemma {:induction false} DispatchFound(g: Gen, s: System, acts: seq<Action>, s': System, j: nat)
    returns (k: nat, after: System)
    requires Inv(s) && Run(s, acts, s') && Within(s.sched.gen, g) && s.clock >= 0
    requires TimeUnset(s.sched.gen, Threads(s.n))
    requires |s.sched.history| <= j < |s'.sched.history| && s'.sched.history[j].Dispatched?
    ensures k <= |acts| && Run(s, acts[..k], after) && Inv(after) && Run(after, acts[k..], s')
    ensures |after.sched.history| == j + 1 && after.sched.history <= s'.sched.history
    ensures WithinLimits(g, s.n, s'.sched.history[j].op, after.sched.gen)
    decreases |acts|
  {
    hide Inv, Enabled, Apply, Within, TimeUnset, WithinLimits, EffectOf, Answered;
    var s1 := Apply(s, acts[0]);
    HistoryStep(s, acts[0]);
    HistoryGrows(s1, acts[1..], s');
    if |s1.sched.history| > j {
      assert s1.sched.history[j] == s'.sched.history[j];
      DispatchWithinLimits(g, s, acts[0]);
      k, after := 1, s1;
      assert acts[..1][1..] == [];
    } else {
      GenWithin(s, acts[0]);
      WithinTrans(s1.sched.gen, s.sched.gen, g);
      GenKeepsTimeUnset(s, acts[0]);
      var i;
      i, after := DispatchFound(g, s1, acts[1..], s', j);
      k := i + 1;
      assert acts[..k][1..] == acts[1..][..i] && acts[k..] == acts[1..][i..];
    }
  }

  /** Time limits at any depth, over whole runs: for every operation handed out, there is a moment right
      after it at which all the time limits around its leaf have cutoffs later than it.  From then on
      those that are left keep these cutoffs (`CutoffsAreInherited`). */
  lemma EveryDispatchIsWithinItsLimits(n: nat, clock: int, g: Gen, acts: seq<Action>, s: System, j: nat)
    returns (k: nat, after: System)
    requires clock >= 0 && Fit(g, Threads(n)) && TimeUnset(g, Threads(n)) && Reachable(n, clock, g, acts, s)
    requires j < |s.sched.history| && s.sched.history[j].Dispatched?
    ensures k <= |acts| && Reachable(n, clock, g, acts[..k], after)
    ensures |after.sched.history| == j + 1 && after.sched.history <= s.sched.history
    ensures WithinLimits(g, n, s.sched.history[j].op, after.sched.gen)
    ensures Descends(after.sched.gen, s.sched.gen)
  {
    hide Inv, Run, Fit, TimeUnset, Within, WithinLimits, Descends;
    StartInv(n, clock, g);
    ValidateWithin(g);
    ValidateTimeUnset(g, Threads(n));
    k, after := DispatchFound(g, Initial(n, clock, g), acts, s, j);
    CutoffsAreInherited(after, acts[k..], s);
  }

  // ----- Alternatives, some of them under a limit -----

  /** A time limit beneath nothing but wrappers. */
  ghost predicate Topped(g: Gen) {
    match g
    case Validate(c) => Topped(c)
    case OnThreads(c, _) => Topped(c)
    case TimeLimit(_, _, _) => true
    case Stagger(_, _, c) => Topped(c)
    case _ => false
  }

  ghost function TopCutoff(g: Gen): int
    requires Topped(g)
  {
    match g
    case Validate(c) => TopCutoff(c)
    case OnThreads(c, _) => TopCutoff(c)
    case TimeLimit(_, cutoff, _) => cutoff
    case Stagger(_, _, c) => TopCutoff(c)
  }

  /** The cutoff at the top is kept if it is set. */
  ghost predicate TopKept(g: Gen, h: Gen) {
    Topped(g) ==> Topped(h) && (TopCutoff(g) != INVALID_TIME ==> TopCutoff(h) == TopCutoff(g))
  }

  /** The cutoff at the top, if there is one, is set and later than `now`. */
  ghost predicate TopAfter(g: Gen, now: int) {
    Topped(g) ==> TopCutoff(g) != INVALID_TIME && now < TopCutoff(g)
  }

  lemma {:induction false} SettledTop(g: Gen, h: Gen)
    requires Settled(g, h)
    ensures TopKept(g, h)
  {
    match g
    case Validate(c) => SettledTop(c, h.gen);
    case OnThreads(c, _) => SettledTop(c, h.gen);
    case Stagger(_, _, c) => SettledTop(c, h.gen);
    case _ =>
  }

  lemma {:induction false} ToppedLeaf(g: Gen, scope: set<Thread>, o: Operation, sc: set<Thread>, ls: seq<int>)
    requires Topped(g) && HasLeaf(g, scope, o, sc, ls)
    ensures ls != []
  {
    match g
    case Validate(c) => ToppedLeaf(c, scope, o, sc, ls);
    case OnThreads(c, f) => ToppedLeaf(c, Accepted(scope, f), o, sc, ls);
    case TimeLimit(_, _, _) =>
    case Stagger(_, _, c) => ToppedLeaf(c, scope, o, sc, ls);
  }

  /** A successor that is guarded still has its limit at the top. */
  lemma {:induction false} GuardedTop(g: Gen, h: Gen, ls: seq<int>, now: int)
    requires Topped(g) && Descends(g, h) && ls != [] && Guarded(h, ls, now)
    ensures TopKept(g, h) && TopAfter(h, now)
  {
    match g
    case Validate(c) => GuardedTop(c, h.gen, ls, now);
    case OnThreads(c, _) => GuardedTop(c, h.gen, ls, now);
    case TimeLimit(_, _, _) =>
    case Stagger(_, _, c) => GuardedTop(c, h.gen, ls, now);
  }

  /** A choice between `n` generators. */
  ghost predicate Alternative(g: Gen, n: nat) {
    && g.Validate? && g.gen.Any? && |g.gen.gens| == n
    && WellFormed(g) && WellFormed(g.gen) && AllWellFormed(g.gen.gens)
  }

  /** Alternative by alternative: the leaves were there before, and a limit at the top is kept. */
  ghost predicate Continued(g: Gen, h: Gen, n: nat)
    requires Alternative(g, n) && Alternative(h, n)
  {
    forall i | 0 <= i < n :: Within(h.gen.gens[i], g.gen.gens[i]) && TopKept(g.gen.gens[i], h.gen.gens[i])
  }

  lemma ContinuedTrans(g: Gen, h: Gen, k: Gen, n: nat)
    requires Alternative(g, n) && Alternative(h, n) && Alternative(k, n) && Continued(g, h, n) && Continued(h, k, n)
    ensures Continued(g, k, n)
  {
    hide WellFormed, Within, Topped, TopCutoff;
    forall i | 0 <= i < n ensures Within(k.gen.gens[i], g.gen.gens[i]) && TopKept(g.gen.gens[i], k.gen.gens[i]) {
      WithinTrans(k.gen.gens[i], h.gen.gens[i], g.gen.gens[i]);
    }
  }

  lemma {:induction false} SettledSame(g: Gen, h: Gen)
    requires Settled(g, h)
    ensures Same(h, g)
    decreases g, 0
  {
    match g
    case Null =>
    case OpGen(_) =>
    case FunGen(_) =>
    case ListGen(gs) => SettledAllSame(gs, h.gens);
    case Validate(c) => SettledSame(c, h.gen);
    case OnThreads(c, _) => SettledSame(c, h.gen);
    case TimeLimit(_, _, c) => SettledSame(c, h.gen);
    case Stagger(_, _, c) => SettledSame(c, h.gen);
    case Mix(_, gs) => SettledAllSame(gs, h.gens);
    case Any(gs) => SettledAllSame(gs, h.gens);
  }

  lemma {:induction false} SettledAllSame(gs: seq<Gen>, hs: seq<Gen>)
    requires SettledAll(gs, hs)
    ensures EraseAll(hs) == EraseAll(gs)
    decreases gs, 0
  {
    hide Settled, Erase;
    forall i | 0 <= i < |gs| ensures Same(hs[i], gs[i]) {
      SettledSame(gs[i], hs[i]);
    }
    SameAllErase(hs, gs);
  }

  /** A child that has not been chosen. */
  lemma SettledContinues(g: Gen, h: Gen)
    requires Settled(g, h)
    ensures Within(h, g) && TopKept(g, h)
  {
    hide Settled, Within, Same;
    SettledSame(g, h);
    SameWithin(h, g);
    SettledTop(g, h);
  }

  /** A receiver, a copy or an update is still such a choice. */
  lemma SettledAlternative(g: Gen, h: Gen, n: nat)
    requires Alternative(g, n) && Settled(g, h)
    ensures Alternative(h, n) && Continued(g, h, n)
  {
    SettledSame(g, h);
    assert h.Validate? && Settled(g.gen, h.gen);
    assert h.gen.Any? && SettledAll(g.gen.gens, h.gen.gens);
    SettledSame(g.gen, h.gen);
    SameKeeps(h, g);
    SameKeeps(h.gen, g.gen);
    AnyChildren(h.gen.gens);
    hide Settled, WellFormed, Same, Within, TopKept;
    forall i | 0 <= i < n ensures Within(h.gen.gens[i], g.gen.gens[i]) && TopKept(g.gen.gens[i], h.gen.gens[i]) {
      assert Settled(g.gen.gens[i], h.gen.gens[i]);
      SettledContinues(g.gen.gens[i], h.gen.gens[i]);
    }
  }

  /** The child that is chosen. */
  lemma ChosenContinues(g: Gen, ctx: Context, ch: Oracle)
    returns (t: Thread, o: Operation, sc: set<Thread>, ls: seq<int>)
    requires WellFormed(g) && ctx.Valid() && ctx.time >= 0 && Op(g, ctx, ch).op.Real()
    requires Disciplined(g, ctx.workers.Keys) && TimeUnset(g, ctx.workers.Keys)
    requires NEMESIS in ctx.workers ==> ctx.workers[NEMESIS] == NEMESIS
    ensures var r := Op(g, ctx, ch);
            Within(r.next, g) && TopKept(g, r.next) && (Topped(g) ==> TopAfter(r.next, ctx.time))
    ensures HasLeaf(g, ctx.workers.Keys, o, sc, ls) && t in sc && o.FilledIn() == Op(g, ctx, ch).op.AsIs()
    ensures t in ctx.free && ctx.workers[t] == Op(g, ctx, ch).op.process
  {
    hide Op, Within, Guarded, Disciplined, TimeUnset, Descends, HasLeaf, TopCutoff, WellFormed;
    t, o, sc, ls := Sound(g, ctx, ch);
    var next := Op(g, ctx, ch).next;
    NextWithin(g, ctx, ch);
    NextDescends(g, ctx, ch);
    if Topped(g) {
      ToppedLeaf(g, ctx.workers.Keys, o, sc, ls);
      GuardedTop(g, next, ls, ctx.time);
    }
  }

  lemma AlternativeAnswer(g: Gen, n: nat, ctx: Context, ch: Oracle) returns (idx: nat)
    requires Alternative(g, n) && ctx.Valid() && Op(g, ctx, ch).op.Real()
    ensures idx < n && Alternative(Op(g, ctx, ch).next, n)
    ensures WellFormed(g.gen.gens[idx])
    ensures var r, child := Op(g, ctx, ch), Op(g.gen.gens[idx], ctx, At(At(ch, 0), idx + 1));
            && r.op == child.op && r.next.gen.gens[idx] == child.next
            && forall i | 0 <= i < n && i != idx :: Settled(g.gen.gens[i], r.next.gen.gens[i])
  {
    hide Op, WellFormed, Same, Settled;
    OpValidate(g.gen, ctx, ch);
    idx := AnySelects(g.gen.gens, ctx, At(ch, 0));
    assert Answer(g.gen, Op(g.gen, ctx, At(ch, 0))) && Answer(g, Op(g, ctx, ch));
    AnswerWellFormed(g, ctx, ch);
  }

  lemma AnswerWellFormed(g: Gen, ctx: Context, ch: Oracle)
    requires WellFormed(g) && ctx.Valid()
    ensures var next := Op(g, ctx, ch).next;
            && (!next.Null? ==> WellFormed(next))
            && (next.Validate? && !next.gen.Null? ==> WellFormed(next.gen))
            && (next.Validate? && next.gen.Any? ==> AllWellFormed(next.gen.gens))
  {
    hide Op;
    assert Answer(g, Op(g, ctx, ch));
  }

  /** A child of a choice is as disciplined as the whole. */
  lemma ChildWithin(g: Gen, n: nat, i: nat)
    requires Alternative(g, n) && i < n
    ensures Within(g.gen.gens[i], g)
  {
    forall scope, o, sc, ls | HasLeaf(g.gen.gens[i], scope, o, sc, ls) ensures HasLeaf(g, scope, o, sc, ls) {
      assert HasLeaf(g.gen, scope, o, sc, ls);
    }
  }

  /** What one answer means for each child, and where its operation comes from. */
  lemma AlternativeDispatch(g: Gen, n: nat, ctx: Context, ch: Oracle)
    returns (idx: nat, t: Thread, o: Operation, sc: set<Thread>, ls: seq<int>)
    requires Alternative(g, n) && ctx.Valid() && ctx.time >= 0 && Op(g, ctx, ch).op.Real()
    requires Disciplined(g, ctx.workers.Keys) && TimeUnset(g, ctx.workers.Keys)
    requires NEMESIS in ctx.workers ==> ctx.workers[NEMESIS] == NEMESIS
    ensures idx < n && Alternative(Op(g, ctx, ch).next, n) && Continued(g, Op(g, ctx, ch).next, n)
    ensures Topped(g.gen.gens[idx]) ==> TopAfter(Op(g, ctx, ch).next.gen.gens[idx], ctx.time)
    ensures HasLeaf(g.gen.gens[idx], ctx.workers.Keys, o, sc, ls) && t in sc && o.FilledIn() == Op(g, ctx, ch).op.AsIs()
    ensures t in ctx.free && ctx.workers[t] == Op(g, ctx, ch).op.process
  {
    hide Op, WellFormed, Same, Settled, Within, Disciplined, TimeUnset, HasLeaf, TopKept, TopAfter, Schedulable;
    idx := AlternativeAnswer(g, n, ctx, ch);
    var child := g.gen.gens[idx];
    ChildWithin(g, n, idx);
    WithinKeeps(child, g, ctx.workers.Keys);
    t, o, sc, ls := ChosenContinues(child, ctx, At(At(ch, 0), idx + 1));
    var next := Op(g, ctx, ch).next;
    forall i | 0 <= i < n ensures Within(next.gen.gens[i], g.gen.gens[i]) && TopKept(g.gen.gens[i], next.gen.gens[i]) {
      if i != idx {
        SettledContinues(g.gen.gens[i], next.gen.gens[i]);
      }
    }
  }

  // ----- Over whole runs -----

  /** A step that hands nothing out. */
  lemma AlternativeKept(s: System, a: Action, n: nat)
    requires Inv(s) && Enabled(s, a) && Alternative(s.sched.gen, n) && !EffectOf(s, a).Dispatch?
    ensures Alternative(Apply(s, a).sched.gen, n) && Continued(s.sched.gen, Apply(s, a).sched.gen, n)
  {
    hide Inv, EffectOf, Apply, Enabled, Alternative, Continued, Settled;
    SettledStep(s, a);
    SettledAlternative(s.sched.gen, Apply(s, a).sched.gen, n);
  }

  /** The child at `idx` has handed the operation out, before its limit at the top, if it has one. */
  ghost predicate FromChild(g: Gen, h: Gen, n: nat, threads: nat, idx: nat, op: Operation)
    requires Alternative(g, n) && Alternative(h, n)
  {
    && idx < n && FromLeaf(g.gen.gens[idx], threads, op)
    && (Topped(g.gen.gens[idx]) ==> TopAfter(h.gen.gens[idx], op.time))
  }

  lemma AlternativeHands(s: System, a: Action, n: nat) returns (idx: nat)
    requires Inv(s) && Enabled(s, a) && Alternative(s.sched.gen, n) && EffectOf(s, a).Dispatch?
    requires s.clock >= 0 && TimeUnset(s.sched.gen, Threads(s.n))
    ensures Alternative(Apply(s, a).sched.gen, n) && Continued(s.sched.gen, Apply(s, a).sched.gen, n)
    ensures FromChild(s.sched.gen, Apply(s, a).sched.gen, n, s.n, idx, Answered(s, EffectOf(s, a).ch).op)
  {
    hide Inv, Op, Update, EffectOf, Apply, Enabled, Continued, Settled, HasLeaf, Disciplined, TimeUnset, WellFormed;
    StepEffect(s, a);
    InvValid(s);
    var g, gen, now := s.sched.gen, Apply(s, a).sched.gen, s.sched.Context(s.clock);
    var ch, ctx := EffectOf(s, a).ch, EffectOf(s, a).ctx;
    var r := Answered(s, ch);
    NemesisKnown(s);
    var t, o, sc, ls;
    idx, t, o, sc, ls := AlternativeDispatch(g, n, now, ch);
    UpdateSettled(r.next, ctx, r.op);
    SettledAlternative(r.next, gen, n);
    ContinuedTrans(g, r.next, gen, n);
    HeldBy(s, t);
    assert LeafFor(g.gen.gens[idx], s.n, r.op, o, sc, ls);
    if Topped(g.gen.gens[idx]) {
      ContinuedTop(g, r.next, gen, n, idx, s.clock);
    }
  }

  lemma ContinuedTop(g: Gen, h: Gen, k: Gen, n: nat, i: nat, now: int)
    requires Alternative(g, n) && Alternative(h, n) && Alternative(k, n) && i < n
    requires Continued(g, h, n) && Continued(h, k, n) && Topped(g.gen.gens[i]) && TopAfter(h.gen.gens[i], now)
    ensures TopAfter(k.gen.gens[i], now)
  {
    hide WellFormed, Within, Topped, TopCutoff;
    assert TopKept(g.gen.gens[i], h.gen.gens[i]) && TopKept(h.gen.gens[i], k.gen.gens[i]);
  }

  lemma NemesisKnown(s: System)
    requires Inv(s)
    ensures NEMESIS in s.sched.workers && s.sched.workers[NEMESIS] == NEMESIS
  {
    hide Attended, Recorded, Located, Drained, Disciplined, Ready;
  }

  lemma HeldBy(s: System, t: Thread)
    requires Inv(s) && t in s.sched.workers
    ensures ThreadOf(s.n, s.sched.workers[t]) == t
  {
    hide Attended, Recorded, Located, Drained, Disciplined, Ready;
    AllocatedInverts(s.n, s.sched.workers, t);
  }

  lemma FromLeafWithin(g: Gen, h: Gen, n: nat, op: Operation)
    requires FromLeaf(g, n, op) && Within(g, h)
    ensures FromLeaf(h, n, op)
  {
    hide HasLeaf, Within;
    var o, sc, ls :| LeafFor(g, n, op, o, sc, ls);
    LeafOfWithin(g, h, Threads(n), o, sc, ls);
    assert LeafFor(h, n, op, o, sc, ls);
  }

  /** The entry is a completion, or an operation of the alternative that it belongs to: of a leaf of it,
      for a thread that the leaf may use, and earlier than the cutoff at its top if it has a limit there. */
  ghost predicate Belongs(gs: seq<Gen>, now: Gen, n: nat, e: Entry, owner: nat)
    requires Alternative(now, |gs|)
  {
    e.Dispatched? ==>
      && owner < |gs| && FromLeaf(gs[owner], n, e.op)
      && (Topped(gs[owner]) ==> TopAfter(now.gen.gens[owner], e.op.time))
  }

  /** Each alternative descends from the one at the start. */
  ghost predicate Started(gs: seq<Gen>, now: Gen)
    requires Alternative(now, |gs|)
  {
    forall i | 0 <= i < |gs| :: Within(now.gen.gens[i], gs[i]) && TopKept(gs[i], now.gen.gens[i])
  }

  ghost predicate Owned(s: System, gs: seq<Gen>, owner: seq<nat>) {
    && s.clock >= 0 && TimeUnset(s.sched.gen, Threads(s.n))
    && Alternative(s.sched.gen, |gs|) && Started(gs, s.sched.gen)
    && |owner| == |s.sched.history|
    && forall j | 0 <= j < |owner| :: Belongs(gs, s.sched.gen, s.n, s.sched.history[j], owner[j])
  }

  lemma StartedNext(gs: seq<Gen>, now: Gen, next: Gen)
    requires Alternative(now, |gs|) && Alternative(next, |gs|) && Started(gs, now) && Continued(now, next, |gs|)
    ensures Started(gs, next)
  {
    hide WellFormed, Within, Topped, TopCutoff;
    forall i | 0 <= i < |gs| ensures Within(next.gen.gens[i], gs[i]) && TopKept(gs[i], next.gen.gens[i]) {
      WithinTrans(next.gen.gens[i], now.gen.gens[i], gs[i]);
    }
  }

  lemma BelongsNext(gs: seq<Gen>, now: Gen, next: Gen, n: nat, e: Entry, owner: nat)
    requires Alternative(now, |gs|) && Alternative(next, |gs|) && Started(gs, now) && Continued(now, next, |gs|)
    requires Belongs(gs, now, n, e, owner)
    ensures Belongs(gs, next, n, e, owner)
  {
    hide WellFormed, Within, Topped, TopCutoff, FromLeaf;
    if e.Dispatched? {
      assert TopKept(gs[owner], now.gen.gens[owner]) && TopKept(now.gen.gens[owner], next.gen.gens[owner]);
    }
  }

  lemma OwnedStep(s: System, a: Action, gs: seq<Gen>, owner: seq<nat>) returns (owner': seq<nat>)
    requires Inv(s) && Enabled(s, a) && Owned(s, gs, owner)
    ensures Owned(Apply(s, a), gs, owner')
  {
    hide Inv, EffectOf, Apply, Enabled, Alternative, Continued, Started, Belongs, TimeUnset, Answered;
    HistoryStep(s, a);
    GenKeepsTimeUnset(s, a);
    var h, h', now, next := s.sched.history, Apply(s, a).sched.history, s.sched.gen, Apply(s, a).sched.gen;
    if EffectOf(s, a).Dispatch? {
      var idx := AlternativeHands(s, a, |gs|);
      owner' := owner + [idx];
      HandedBelongs(s, a, gs, idx);
    } else {
      AlternativeKept(s, a, |gs|);
      owner' := if h' == h then owner else owner + [0];
      if h' != h {
        var e :| h' == h + [Completed(e)];
        CompletedBelongs(gs, next, s.n, e);
      }
    }
    StartedNext(gs, now, next);
    forall j | 0 <= j < |owner'| ensures Belongs(gs, next, s.n, h'[j], owner'[j]) {
      if j < |owner| {
        assert h'[j] == h[j];
        BelongsNext(gs, now, next, s.n, h[j], owner[j]);
      }
    }
  }

  lemma CompletedBelongs(gs: seq<Gen>, now: Gen, n: nat, e: Operation)
    requires Alternative(now, |gs|)
    ensures Belongs(gs, now, n, Completed(e), 0)
  {
  }

  lemma HandedBelongs(s: System, a: Action, gs: seq<Gen>, idx: nat)
    requires Inv(s) && Enabled(s, a) && EffectOf(s, a).Dispatch?
    requires Alternative(s.sched.gen, |gs|) && Alternative(Apply(s, a).sched.gen, |gs|) && Started(gs, s.sched.gen)
    requires FromChild(s.sched.gen, Apply(s, a).sched.gen, |gs|, s.n, idx, Answered(s, EffectOf(s, a).ch).op)
    ensures Belongs(gs, Apply(s, a).sched.gen, s.n, Dispatched(Answered(s, EffectOf(s, a).ch).op), idx)
  {
    hide Inv, EffectOf, Apply, Enabled, WellFormed, Within, Topped, TopCutoff, Answered, FromLeaf, TopAfter;
    FromLeafWithin(s.sched.gen.gen.gens[idx], gs[idx], s.n, Answered(s, EffectOf(s, a).ch).op);
  }

  lemma {:induction false} OwnedRun(s: System, acts: seq<Action>, s': System, gs: seq<Gen>, owner: seq<nat>)
    returns (owner': seq<nat>)
    requires Inv(s) && Run(s, acts, s') && Owned(s, gs, owner)
    ensures Owned(s', gs, owner')
    decreases |acts|
  {
    hide Inv, Enabled, Apply, Owned;
    owner' := owner;
    if |acts| > 0 {
      var next := OwnedStep(s, acts[0], gs, owner);
      owner' := OwnedRun(Apply(s, acts[0]), acts[1..], s', gs, next);
    }
  }

  lemma StartedSelf(gs: seq<Gen>)
    requires WellFormed(Any(gs))
    ensures Alternative(Validate(Any(gs)), |gs|) && Started(gs, Validate(Any(gs)))
  {
    AnyChildren(gs);
    hide Topped, TopCutoff;
  }

  /** A choice between generators, some with a time limit at the top and some without, such as limited
      client operations beside an unlimited nemesis.  Over every run each operation handed out belongs to
      one of them: it is that of one of its leaves, for a thread that all filters around the leaf accept,
      and if it has a limit at the top, earlier than the cutoff of that limit. */
  lemma AlternativesAreLimited(n: nat, clock: int, gs: seq<Gen>, acts: seq<Action>, s: System)
    returns (owner: seq<nat>)
    requires clock >= 0 && Fit(Any(gs), Threads(n)) && TimeUnset(Any(gs), Threads(n))
    requires Reachable(n, clock, Any(gs), acts, s)
    ensures Alternative(s.sched.gen, |gs|) && |owner| == |s.sched.history|
    ensures forall j | 0 <= j < |owner| && s.sched.history[j].Dispatched? ::
              && owner[j] < |gs| && FromLeaf(gs[owner[j]], n, s.sched.history[j].op)
              && (Topped(gs[owner[j]]) ==> TopAfter(s.sched.gen.gen.gens[owner[j]], s.sched.history[j].op.time))
  {
    hide Inv, Run, TimeUnset, FromLeaf, TopAfter, Alternative, Started;
    StartInv(n, clock, Any(gs));
    ReachableInv(n, clock, Any(gs), acts, s);
    ValidateTimeUnset(Any(gs), Threads(n));
    StartedSelf(gs);
    owner := OwnedRun(Initial(n, clock, Any(gs)), acts, s, gs, []);
    assert forall j | 0 <= j < |owner| :: Belongs(gs, s.sched.gen, n, s.sched.history[j], owner[j]);
  }

  /** Between any two states of a run no alternative's limit at the top loses its cutoff once that is set. */
  lemma {:induction false} AlternativesKeepCutoffs(s: System, acts: seq<Action>, s': System, n: nat)
    requires Inv(s) && Run(s, acts, s') && Alternative(s.sched.gen, n)
    requires s.clock >= 0 && TimeUnset(s.sched.gen, Threads(s.n))
    ensures Alternative(s'.sched.gen, n) && Continued(s.sched.gen, s'.sched.gen, n)
    decreases |acts|
  {
    hide Inv, Enabled, Apply, Alternative, EffectOf, Continued, TimeUnset, Answered;
    if |acts| > 0 {
      var s1 := Apply(s, acts[0]);
      if EffectOf(s, acts[0]).Dispatch? {
        var idx := AlternativeHands(s, acts[0], n);
      } else {
        AlternativeKept(s, acts[0], n);
      }
      HistoryStep(s, acts[0]);
      GenKeepsTimeUnset(s, acts[0]);
      AlternativesKeepCutoffs(s1, acts[1..], s', n);
      ContinuedTrans(s.sched.gen, s1.sched.gen, s'.sched.gen, n);
    } else {
      ContinuedSelf(s.sched.gen, n);
    }
  }

  lemma ContinuedSelf(g: Gen, n: nat)
    requires Alternative(g, n)
    ensures Continued(g, g, n)
  {
    hide WellFormed, Topped, TopCutoff;
  }
}
