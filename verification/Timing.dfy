/** Over whole runs: the times in the history, and what a time limit does to them. */
module Timing {
  import opened Operations
  import opened Contexts
  import opened Generators
  import opened Evaluation
  import opened Leaves
  import opened Histories
  import opened Scheduling
  import opened Protocol
  import opened SchedulerSteps
  import opened Runs
  import opened Safety
  import opened Effects
  import opened Provenance
  import opened Staggering
  import opened Cutoffs
  import opened Combinators
  import opened Turns

  // ----- The history is ordered in time -----

  ghost predicate Stamped(s: System) {
    && TimeUnset(s.sched.gen, Threads(s.n))
    && Ordered(s.sched.history)
    && forall i | 0 <= i < |s.sched.history| :: s.sched.history[i].op.time <= s.clock
  }

  lemma AnsweredTime(s: System, ch: Oracle)
    requires Inv(s) && TimeUnset(s.sched.gen, Threads(s.n)) && Answered(s, ch).op.Real()
    ensures Answered(s, ch).op.time >= s.clock
  {
    hide Op, Attended, Recorded, Located, Drained, TimeUnset;
    InvValid(s);
    var t, o, sc, ls := Sound(s.sched.gen, s.sched.Context(s.clock), ch);
  }

  lemma GenKeepsTimeUnset(s: System, a: Action)
    requires Inv(s) && Enabled(s, a) && TimeUnset(s.sched.gen, Threads(s.n))
    ensures TimeUnset(Apply(s, a).sched.gen, Threads(s.n))
  {
    hide Inv, Apply, Within, Enabled, TimeUnset, Disciplined, Schedulable;
    GenWithin(s, a);
    WithinKeeps(Apply(s, a).sched.gen, s.sched.gen, Threads(s.n));
  }

  /** Every entry bears the clock of the step that made it. */
  lemma StampStep(s: System, a: Action)
    requires Inv(s) && Enabled(s, a) && TimeUnset(s.sched.gen, Threads(s.n))
    ensures var h, h' := s.sched.history, Apply(s, a).sched.history;
            h' == h || (|h'| == |h| + 1 && h'[..|h|] == h && h'[|h|].op.time == s.clock)
  {
    hide Inv, Op, Update, EffectOf, Apply, Enabled, TimeUnset, Answered;
    StepEffect(s, a);
    if EffectOf(s, a).Dispatch? {
      AnsweredTime(s, EffectOf(s, a).ch);
    }
  }

  lemma StampedStep(s: System, a: Action)
    requires Inv(s) && Enabled(s, a) && Stamped(s)
    ensures Stamped(Apply(s, a))
  {
    hide Inv, EffectOf, Apply, Enabled, TimeUnset, Effected;
    StampStep(s, a);
    GenKeepsTimeUnset(s, a);
    StepEffect(s, a);
    var h, h' := s.sched.history, Apply(s, a).sched.history;
    assert forall i | 0 <= i < |h| :: h'[i] == h[i] by {
      assert forall i | 0 <= i < |h| :: h[i] == h'[..|h|][i];
    }
  }

  lemma {:induction false} StampedRun(s: System, acts: seq<Action>, s': System)
    requires Inv(s) && Run(s, acts, s') && Stamped(s)
    ensures Stamped(s')
    decreases |acts|
  {
    hide Inv, Enabled, Stamped, Apply;
    if |acts| > 0 {
      StampedStep(s, acts[0]);
      StampedRun(Apply(s, acts[0]), acts[1..], s');
    }
  }

  lemma ValidateTimeUnset(g: Gen, scope: set<Thread>)
    requires TimeUnset(g, scope)
    ensures TimeUnset(Validate(g), scope)
  {
  }

  /** With a clock that does not go back and leaves that leave their time open, the times of the whole
      history never decrease. */
  lemma HistoryOrdered(n: nat, clock: int, g: Gen, acts: seq<Action>, s: System)
    requires Fit(g, Threads(n)) && TimeUnset(g, Threads(n)) && Reachable(n, clock, g, acts, s)
    ensures Ordered(s.sched.history)
  {
    hide Inv, Run, Fit, TimeUnset;
    StartInv(n, clock, g);
    ValidateTimeUnset(g, Threads(n));
    StampedRun(Initial(n, clock, g), acts, s);
  }

  // ----- Time limits -----

  /** The test is a time limit around some generator. */
  ghost predicate IsLimited(g: Gen, limit: int) {
    g.Validate? && g.gen.TimeLimit? && g.gen.limit == limit && WellFormed(g) && WellFormed(g.gen.gen)
  }

  ghost function CutoffOf(g: Gen): int
    requires g.Validate? && g.gen.TimeLimit?
  {
    g.gen.cutoff
  }

  /** What one answer of a limited generator does to the cutoff, in the receiver and in the successor.
      A cutoff that is set stays; one that is not is set by the first operation the inner generator
      offers, to the time of that operation and the limit; no operation at or after it gets through. */
  lemma LimitedAnswer(g: Gen, limit: int, ctx: Context, ch: Oracle)
    requires IsLimited(g, limit) && ctx.Valid()
    ensures var r, inner := Op(g, ctx, ch), Op(g.gen.gen, ctx, At(At(ch, 0), 0));
            && IsLimited(r.after, limit)
            && (CutoffOf(g) != INVALID_TIME ==> CutoffOf(r.after) == CutoffOf(g))
            && (CutoffOf(g) == INVALID_TIME ==>
                  CutoffOf(r.after) == if inner.NotNil() &&
                      inner.op.Real() then inner.op.time + limit else INVALID_TIME)
            && (r.op.Real() ==>
                  && r.op == inner.op && IsLimited(r.next, limit)
                  && CutoffOf(r.next) == CutoffOf(r.after) && r.op.time < CutoffOf(r.next))
  {
    hide Op;
    OpValidate(g.gen, ctx, ch);
    OpTimeLimit(limit, g.gen.cutoff, g.gen.gen, ctx, At(ch, 0));
    assert Answer(g, Op(g, ctx, ch));
    SameKeeps(Op(g, ctx, ch).after, g);
  }

  lemma LimitedUpdate(g: Gen, limit: int, ctx: Context, event: Operation)
    requires IsLimited(g, limit)
    ensures IsLimited(Update(g, ctx, event), limit) && CutoffOf(Update(g, ctx, event)) == CutoffOf(g)
  {
    UpdateSame(g, ctx, event);
    SameKeeps(Update(g, ctx, event), g);
  }

  /** One step of the system: a cutoff that is set stays, through answers kept and thrown away and
      through updates, and an operation handed out is earlier than the cutoff. */
  lemma LimitedStep(s: System, a: Action, limit: int)
    requires Inv(s) && Enabled(s, a) && IsLimited(s.sched.gen, limit)
    ensures var g, g', h, h' := s.sched.gen, Apply(s, a).sched.gen, s.sched.history, Apply(s, a).sched.history;
            && IsLimited(g', limit)
            && (CutoffOf(g) != INVALID_TIME ==> CutoffOf(g') == CutoffOf(g))
            && if EffectOf(s, a).Dispatch? then
                 var op := Answered(s, EffectOf(s, a).ch).op;
                 op.Real() && h' == h + [Dispatched(op)] && op.time < CutoffOf(g')
               else
                 h' == h || exists e :: h' == h + [Completed(e)]
  {
    hide Inv, Op, Update, EffectOf, Apply, Enabled, IsLimited, Fit;
    StepEffect(s, a);
    InvValid(s);
    var g := s.sched.gen;
    match EffectOf(s, a)
    case Quiet =>
    case Kept(ch) => LimitedAnswer(g, limit, s.sched.Context(s.clock), ch);
    case Completion(event, ctx) => LimitedUpdate(g, limit, ctx, event);
    case Dispatch(ch, ctx) =>
      LimitedAnswer(g, limit, s.sched.Context(s.clock), ch);
      LimitedUpdate(Answered(s, ch).next, limit, ctx, Answered(s, ch).op);
  }

  /** Entries added to the history that are dispatches are all earlier than the cutoff. */
  ghost predicate AddedBefore(h: seq<Entry>, h': seq<Entry>, cutoff: int) {
    h <= h' && forall i | |h| <= i < |h'| && h'[i].Dispatched? :: h'[i].op.time < cutoff
  }

  /** Once set, the cutoff is final, and bounds everything handed out from then on. */
  lemma {:induction false} CutoffIsFinal(s: System, limit: int, acts: seq<Action>, s': System)
    requires Inv(s) && Run(s, acts, s') && IsLimited(s.sched.gen, limit) && CutoffOf(s.sched.gen) != INVALID_TIME
    ensures IsLimited(s'.sched.gen, limit) && CutoffOf(s'.sched.gen) == CutoffOf(s.sched.gen)
    ensures AddedBefore(s.sched.history, s'.sched.history, CutoffOf(s.sched.gen))
    decreases |acts|
  {
    hide Inv, Enabled, Apply, EffectOf, Answered;
    if |acts| > 0 {
      LimitedStep(s, acts[0], limit);
      CutoffIsFinal(Apply(s, acts[0]), limit, acts[1..], s');
    }
  }

  /** From the cutoff on nothing is handed out. */
  lemma LateStep(s: System, a: Action, limit: int)
    requires Inv(s) && Enabled(s, a) && IsLimited(s.sched.gen, limit) && TimeUnset(s.sched.gen, Threads(s.n))
    requires CutoffOf(s.sched.gen) != INVALID_TIME && CutoffOf(s.sched.gen) <= s.clock
    ensures Sent(Apply(s, a).sched.history) == Sent(s.sched.history)
  {
    hide Inv, Op, Update, EffectOf, Apply, Enabled, IsLimited, TimeUnset, Answered;
    LimitedStep(s, a, limit);
    if EffectOf(s, a).Dispatch? {
      AnsweredTime(s, EffectOf(s, a).ch);
    } else if Apply(s, a).sched.history != s.sched.history {
      var e :| Apply(s, a).sched.history == s.sched.history + [Completed(e)];
      SentNext(s.sched.history, Completed(e));
    }
  }

  /** Past the cutoff only completions remain, however long the run goes on. */
  lemma {:induction false} PastTheCutoff(s: System, limit: int, acts: seq<Action>, s': System)
    requires Inv(s) && Run(s, acts, s') && IsLimited(s.sched.gen, limit) && TimeUnset(s.sched.gen, Threads(s.n))
    requires CutoffOf(s.sched.gen) != INVALID_TIME && CutoffOf(s.sched.gen) <= s.clock
    ensures Sent(s'.sched.history) == Sent(s.sched.history)
    decreases |acts|
  {
    hide Inv, Enabled, Apply, EffectOf, Answered, IsLimited, TimeUnset;
    if |acts| > 0 {
      LateStep(s, acts[0], limit);
      LimitedStep(s, acts[0], limit);
      GenKeepsTimeUnset(s, acts[0]);
      StepEffect(s, acts[0]);
      PastTheCutoff(Apply(s, acts[0]), limit, acts[1..], s');
    }
  }

  /** Past the cutoff, with nothing outstanding, the scheduler finishes the next time it asks. */
  lemma FinishesPastTheCutoff(s: System, limit: int, ch: Oracle)
    requires Inv(s) && s.sched.Valid() && IsLimited(s.sched.gen, limit) && TimeUnset(s.sched.gen, Threads(s.n))
    requires Schedulable(s.sched.gen, Threads(s.n)) && s.sched.outstanding == 0
    requires CutoffOf(s.sched.gen) != INVALID_TIME && CutoffOf(s.sched.gen) <= s.clock
    ensures Asked(s.sched, s.clock, ch).Finish?
  {
    hide Inv, Op, Update, IsLimited, TimeUnset, Schedulable;
    InvValid(s);
    var c := s.sched;
    LimitedAnswer(c.gen, limit, c.Context(s.clock), ch);
    if Answered(s, ch).op.Real() {
      AnsweredTime(s, ch);
    } else if Answered(s, ch).op.kind.Pending? {
      PendingMeansBusy(c.gen, c.Context(s.clock), ch);
      NobodyBusy(s);
    }
  }

  lemma NobodyBusy(s: System)
    requires Inv(s) && s.sched.outstanding == 0
    ensures s.sched.workers.Keys - s.sched.free == {}
  {
    hide Recorded, Attended, Located, Drained, Disciplined, Ready, Allocated;
  }

  /** Nothing was handed out before the cutoff was set, and everything handed out is earlier than it. */
  ghost predicate Curbed(s: System, limit: int) {
    && s.clock >= 0 && TimeUnset(s.sched.gen, Threads(s.n)) && IsLimited(s.sched.gen, limit)
    && forall i | 0 <= i < |s.sched.history| && s.sched.history[i].Dispatched? ::
         CutoffOf(s.sched.gen) != INVALID_TIME && s.sched.history[i].op.time < CutoffOf(s.sched.gen)
  }

  lemma CurbedStep(s: System, a: Action, limit: int)
    requires Inv(s) && Enabled(s, a) && Curbed(s, limit)
    ensures Curbed(Apply(s, a), limit)
  {
    hide Inv, Op, Update, EffectOf, Apply, Enabled, IsLimited, TimeUnset, Answered;
    LimitedStep(s, a, limit);
    GenKeepsTimeUnset(s, a);
    StepEffect(s, a);
    if EffectOf(s, a).Dispatch? {
      AnsweredTime(s, EffectOf(s, a).ch);
    }
  }

  lemma {:induction false} CurbedRun(s: System, limit: int, acts: seq<Action>, s': System)
    requires Inv(s) && Run(s, acts, s') && Curbed(s, limit)
    ensures Curbed(s', limit)
    decreases |acts|
  {
    hide Inv, Enabled, Apply, Curbed;
    if |acts| > 0 {
      CurbedStep(s, acts[0], limit);
      CurbedRun(Apply(s, acts[0]), limit, acts[1..], s');
    }
  }

  /** Over whole runs of a time-limited test every operation handed out is earlier than the cutoff,
      and none is handed out before the cutoff has been set. */
  lemma LimitHolds(n: nat, clock: int, limit: int, inner: Gen, acts: seq<Action>, s: System)
    requires clock >= 0 && Fit(TimeLimit(limit, INVALID_TIME, inner), Threads(n))
    requires TimeUnset(TimeLimit(limit, INVALID_TIME, inner), Threads(n))
    requires Reachable(n, clock, TimeLimit(limit, INVALID_TIME, inner), acts, s)
    ensures IsLimited(s.sched.gen, limit)
    ensures forall i | 0 <= i < |s.sched.history| && s.sched.history[i].Dispatched? ::
              CutoffOf(s.sched.gen) != INVALID_TIME && s.sched.history[i].op.time < CutoffOf(s.sched.gen)
  {
    hide Inv, Run, TimeUnset;
    var g := TimeLimit(limit, INVALID_TIME, inner);
    StartInv(n, clock, g);
    ValidateTimeUnset(g, Threads(n));
    CurbedRun(Initial(n, clock, g), limit, acts, s);
  }

  // ----- The cutoff comes from the first operation offered -----

  /** What the generator inside the limit answers to the question. */
  ghost function Inside(s: System, limit: int, ch: Oracle): OpResult
    requires Inv(s) && IsLimited(s.sched.gen, limit)
  {
    InvValid(s);
    Op(s.sched.gen.gen.gen, s.sched.Context(s.clock), At(At(ch, 0), 0))
  }

  /** The action asks, and the generator inside offers an operation. */
  ghost predicate Offered(s: System, limit: int, a: Action)
    requires Inv(s) && IsLimited(s.sched.gen, limit)
  {
    a.Poll? && Inside(s, limit, a.ch).NotNil() && Inside(s, limit, a.ch).op.Real()
  }

  /** A cutoff that is not set is set by the step that gets an operation offered, and by no other. */
  lemma LimitedSets(s: System, a: Action, limit: int)
    requires Inv(s) && Enabled(s, a) && IsLimited(s.sched.gen, limit) && CutoffOf(s.sched.gen) == INVALID_TIME
    ensures IsLimited(Apply(s, a).sched.gen, limit)
    ensures CutoffOf(Apply(s, a).sched.gen) ==
            if Offered(s, limit, a) then Inside(s, limit, a.ch).op.time + limit else INVALID_TIME
  {
    hide Inv, Op, Update, EffectOf, Apply, Enabled, IsLimited, Fit;
    LimitedStep(s, a, limit);
    StepEffect(s, a);
    EffectKinds(s, a);
    InvValid(s);
    var g := s.sched.gen;
    match EffectOf(s, a)
    case Quiet =>
    case Kept(ch) => LimitedAnswer(g, limit, s.sched.Context(s.clock), ch);
    case Completion(event, ctx) => LimitedUpdate(g, limit, ctx, event);
    case Dispatch(ch, ctx) =>
      LimitedAnswer(g, limit, s.sched.Context(s.clock), ch);
      LimitedUpdate(Answered(s, ch).next, limit, ctx, Answered(s, ch).op);
  }

  /** In no step of the run is an operation offered. */
  ghost predicate NoneOffered(s: System, limit: int, acts: seq<Action>)
    requires Inv(s) && IsLimited(s.sched.gen, limit)
    decreases |acts|
  {
    if |acts| == 0 || !Enabled(s, acts[0]) then true
    else
      LimitedStep(s, acts[0], limit);
      !Offered(s, limit, acts[0]) && NoneOffered(Apply(s, acts[0]), limit, acts[1..])
  }

  /** The generator inside is as fit as the whole. */
  lemma InnerFit(s: System, limit: int)
    requires Inv(s) && IsLimited(s.sched.gen, limit) && TimeUnset(s.sched.gen, Threads(s.n))
    ensures s.sched.Context(s.clock).Valid() && s.sched.workers.Keys == Threads(s.n)
    ensures NEMESIS in s.sched.workers && s.sched.workers[NEMESIS] == NEMESIS
    ensures Disciplined(s.sched.gen.gen.gen, Threads(s.n)) && TimeUnset(s.sched.gen.gen.gen, Threads(s.n))
  {
    hide Attended, Recorded, Located, Drained, HasLeaf;
    InvValid(s);
    var g := s.sched.gen;
    forall o, sc, ls | HasLeaf(g.gen.gen, Threads(s.n), o, sc, ls)
        ensures HasLeaf(g, Threads(s.n), o, sc, [limit] + ls) {
      LimitedLeaf(g, Threads(s.n), o, sc, ls);
    }
  }

  lemma LimitedLeaf(g: Gen, scope: set<Thread>, o: Operation, sc: set<Thread>, ls: seq<int>)
    requires g.Validate? && g.gen.TimeLimit? && HasLeaf(g.gen.gen, scope, o, sc, ls)
    ensures HasLeaf(g, scope, o, sc, [g.gen.limit] + ls)
  {
    var all := [g.gen.limit] + ls;
    assert all[1..] == ls;
    assert HasLeaf(g.gen, scope, o, sc, all);
  }

  /** The time offered is not in the past. */
  lemma InsideTime(s: System, limit: int, ch: Oracle)
    requires Inv(s) && IsLimited(s.sched.gen, limit) && TimeUnset(s.sched.gen, Threads(s.n))
    requires Inside(s, limit, ch).op.Real()
    ensures Inside(s, limit, ch).op.time >= s.clock
  {
    hide Op, Inv, TimeUnset, Disciplined, Due, StaggerFree;
    InnerFit(s, limit);
    var t, o, sc, ls := Sound(s.sched.gen.gen.gen, s.sched.Context(s.clock), At(At(ch, 0), 0));
  }

  /** A cutoff that came to be set in the course of a run is the time of the first operation offered
      in that run, and the limit. */
  lemma {:induction false} CutoffComesFrom(s: System, limit: int, acts: seq<Action>, s': System)
    returns (k: nat, first: System)
    requires Inv(s) && Run(s, acts, s') && IsLimited(s.sched.gen, limit) && TimeUnset(s.sched.gen, Threads(s.n))
    requires limit >= 0 && s.clock >= 0 && CutoffOf(s.sched.gen) == INVALID_TIME
    requires IsLimited(s'.sched.gen, limit) && CutoffOf(s'.sched.gen) != INVALID_TIME
    ensures k < |acts| && Run(s, acts[..k], first) && NoneOffered(s, limit, acts[..k])
    ensures Inv(first) && IsLimited(first.sched.gen, limit) && Offered(first, limit, acts[k])
    ensures CutoffOf(s'.sched.gen) == Inside(first, limit, acts[k].ch).op.time + limit
    decreases |acts|
  {
    hide Inv, Enabled, Apply, WellFormed, TimeUnset, Offered, Inside, AddedBefore;
    assert |acts| > 0;
    var s1 := Apply(s, acts[0]);
    LimitedSets(s, acts[0], limit);
    if CutoffOf(s1.sched.gen) == INVALID_TIME {
      GenKeepsTimeUnset(s, acts[0]);
      ClockGrows(s, acts[0]);
      var j;
      j, first := CutoffComesFrom(s1, limit, acts[1..], s');
      k := j + 1;
      assert acts[..k][1..] == acts[1..][..j] && acts[..k][0] == acts[0];
      if Offered(s, limit, acts[0]) {
        OfferedReal(s, limit, acts[0]);
        InsideTime(s, limit, acts[0].ch);
      }
    } else {
      k, first := 0, s;
      assert acts[..0] == [];
      CutoffIsFinal(s1, limit, acts[1..], s');
    }
  }

  lemma OfferedReal(s: System, limit: int, a: Action)
    requires Inv(s) && IsLimited(s.sched.gen, limit) && Offered(s, limit, a)
    ensures a.Poll? && Inside(s, limit, a.ch).op.Real()
  {
  }

  lemma ClockGrows(s: System, a: Action)
    requires Inv(s) && Enabled(s, a)
    ensures Apply(s, a).clock >= s.clock && Apply(s, a).n == s.n
  {
    hide Inv, Apply, EffectOf, Effected;
    StepEffect(s, a);
  }

  /** The time limit over whole runs: as soon as anything has been handed out there is a first question
      to which the generator inside offered an operation, and everything handed out is earlier than the
      time of that operation and the limit. */
  lemma LimitFromFirstOffer(n: nat, clock: int, limit: int, inner: Gen, acts: seq<Action>, s: System, i: nat)
    returns (k: nat, first: System)
    requires clock >= 0 && limit >= 0 && Fit(TimeLimit(limit, INVALID_TIME, inner), Threads(n))
    requires TimeUnset(TimeLimit(limit, INVALID_TIME, inner), Threads(n))
    requires Reachable(n, clock, TimeLimit(limit, INVALID_TIME, inner), acts, s)
    requires i < |s.sched.history| && s.sched.history[i].Dispatched?
    ensures var g := TimeLimit(limit, INVALID_TIME, inner);
            && k < |acts| && Reachable(n, clock, g, acts[..k], first)
            && Inv(first) && IsLimited(first.sched.gen, limit) && Offered(first, limit, acts[k])
            && Inv(Initial(n, clock, g)) && IsLimited(Initial(n, clock, g).sched.gen, limit)
            && NoneOffered(Initial(n, clock, g), limit, acts[..k])
            && forall j | 0 <= j < |s.sched.history| && s.sched.history[j].Dispatched? ::
                 s.sched.history[j].op.time < Inside(first, limit, acts[k].ch).op.time + limit
  {
    hide Inv, Run, TimeUnset, Inside, Offered, NoneOffered;
    var g := TimeLimit(limit, INVALID_TIME, inner);
    StartInv(n, clock, g);
    ValidateTimeUnset(g, Threads(n));
    LimitHolds(n, clock, limit, inner, acts, s);
    k, first := CutoffComesFrom(Initial(n, clock, g), limit, acts, s);
  }

  // ----- The limit hands out whatever it is offered in time -----

  /** The operation offered comes with a successor and before the cutoff, if there is one yet. */
  ghost predicate InTime(s: System, limit: int, ch: Oracle)
    requires Inv(s) && IsLimited(s.sched.gen, limit)
  {
    && Inside(s, limit, ch).NotNil()
    && if CutoffOf(s.sched.gen) == INVALID_TIME then limit > 0
       else Inside(s, limit, ch).op.time < CutoffOf(s.sched.gen)
  }

  lemma InTimeAnswers(s: System, limit: int, ch: Oracle)
    requires Inv(s) && IsLimited(s.sched.gen, limit) && Inside(s, limit, ch).op.Real()
    ensures Answered(s, ch).op == if InTime(s, limit, ch) then Inside(s, limit, ch).op else NIL
  {
    hide Inv, Op;
    InvValid(s);
    var g, ctx := s.sched.gen, s.sched.Context(s.clock);
    ValidateAnswers(g.gen, ctx, ch);
    LimitAnswers(limit, g.gen.cutoff, g.gen.gen, ctx, At(ch, 0));
  }

  /** In every state a question hands out the operation that the generator inside offers if and only if it
      is in time and due. */
  lemma LimitHandsOutIff(s: System, limit: int, ch: Oracle)
    requires Inv(s) && s.sched.running && IsLimited(s.sched.gen, limit) && Inside(s, limit, ch).op.Dispatchable()
    ensures Enabled(s, Poll(ch))
    ensures var op := Inside(s, limit, ch).op;
            Apply(s, Poll(ch)).sched.history == s.sched.history +
              if InTime(s, limit, ch) && op.time <= s.clock then [Dispatched(op)] else []
  {
    hide Inv, Apply, Enabled, IsLimited, Inside, InTime, Answered;
    InTimeAnswers(s, limit, ch);
    var t := HandsOutIff(s, ch);
  }

  // ----- Without Stagger the limit is a window -----

  /** The cutoff is at most the limit away from the clock, and from everything handed out so far. */
  ghost predicate Near(s: System, limit: int)
    requires IsLimited(s.sched.gen, limit)
  {
    && (CutoffOf(s.sched.gen) == INVALID_TIME || CutoffOf(s.sched.gen) <= s.clock + limit)
    && forall i | 0 <= i < |s.sched.history| && s.sched.history[i].Dispatched? ::
         CutoffOf(s.sched.gen) <= s.sched.history[i].op.time + limit
  }

  ghost predicate Windowed(s: System, limit: int) {
    Curbed(s, limit) && StaggerFree(s.sched.gen) && Near(s, limit)
  }

  /** What the inner generator offers is offered for now. */
  lemma InnerIsNow(s: System, ch: Oracle, limit: int)
    requires Inv(s) && IsLimited(s.sched.gen, limit) && StaggerFree(s.sched.gen) && TimeUnset(s.sched.gen, Threads(s.n))
    requires s.sched.Context(s.clock).Valid() && Op(s.sched.gen.gen.gen, s.sched.Context(s.clock), ch).op.Real()
    ensures Op(s.sched.gen.gen.gen, s.sched.Context(s.clock), ch).op.time == s.clock
  {
    hide Op, Inv, TimeUnset, Disciplined, Due;
    InnerFit(s, limit);
    var t, o, sc, ls := Sound(s.sched.gen.gen.gen, s.sched.Context(s.clock), ch);
  }

  lemma AnsweredNear(s: System, ch: Oracle, limit: int)
    requires Inv(s) && IsLimited(s.sched.gen, limit) && StaggerFree(s.sched.gen) && TimeUnset(s.sched.gen, Threads(s.n))
    requires Near(s, limit)
    ensures var r := Answered(s, ch);
            && StaggerFree(r.after) && IsLimited(r.after, limit)
            && (CutoffOf(r.after) == INVALID_TIME || CutoffOf(r.after) <= s.clock + limit)
            && (r.op.Real() ==> r.op.time == s.clock && StaggerFree(r.next) && IsLimited(r.next, limit)
                                && CutoffOf(r.next) == CutoffOf(r.after))
  {
    hide Op, Inv, TimeUnset, Fit;
    InvValid(s);
    var g, ctx := s.sched.gen, s.sched.Context(s.clock);
    LimitedAnswer(g, limit, ctx, ch);
    if Op(g.gen.gen, ctx, At(At(ch, 0), 0)).op.Real() {
      InnerIsNow(s, At(At(ch, 0), 0), limit);
    }
    NextStaggerFree(g, ctx, ch);
    SameStaggerFree(Op(g, ctx, ch).after, g);
  }

  lemma WindowedStep(s: System, a: Action, limit: int)
    requires Inv(s) && Enabled(s, a) && Windowed(s, limit)
    ensures Windowed(Apply(s, a), limit)
  {
    hide Inv, Op, Update, EffectOf, Apply, Enabled, IsLimited, TimeUnset, Answered, Fit;
    CurbedStep(s, a, limit);
    LimitedStep(s, a, limit);
    StepEffect(s, a);
    InvValid(s);
    match EffectOf(s, a)
    case Quiet =>
    case Kept(ch) => AnsweredNear(s, ch, limit);
    case Completion(event, ctx) => UpdateIsFaithful(s.sched.gen, ctx, event);
    case Dispatch(ch, ctx) =>
      AnsweredNear(s, ch, limit);
      UpdateIsFaithful(Answered(s, ch).next, ctx, Answered(s, ch).op);
  }

  lemma {:induction false} WindowedRun(s: System, limit: int, acts: seq<Action>, s': System)
    requires Inv(s) && Run(s, acts, s') && Windowed(s, limit)
    ensures Windowed(s', limit)
    decreases |acts|
  {
    hide Inv, Enabled, Apply, Windowed;
    if |acts| > 0 {
      WindowedStep(s, acts[0], limit);
      WindowedRun(Apply(s, acts[0]), limit, acts[1..], s');
    }
  }

  /** In a time-limited test without Stagger any two operations handed out are less than the limit
      apart, whatever the interleaving: in particular all come before the first one's time and the limit. */
  lemma LimitIsAWindow(n: nat, clock: int, limit: int, inner: Gen, acts: seq<Action>, s: System, i: nat, j: nat)
    requires clock >= 0 && Fit(TimeLimit(limit, INVALID_TIME, inner), Threads(n)) && StaggerFree(inner)
    requires TimeUnset(TimeLimit(limit, INVALID_TIME, inner), Threads(n))
    requires Reachable(n, clock, TimeLimit(limit, INVALID_TIME, inner), acts, s)
    requires i < |s.sched.history| && s.sched.history[i].Dispatched?
    requires j < |s.sched.history| && s.sched.history[j].Dispatched?
    ensures s.sched.history[j].op.time < s.sched.history[i].op.time + limit
  {
    hide Inv, Run, TimeUnset;
    var g := TimeLimit(limit, INVALID_TIME, inner);
    StartInv(n, clock, g);
    ValidateTimeUnset(g, Threads(n));
    assert StaggerFree(g);
    WindowedRun(Initial(n, clock, g), limit, acts, s);
  }

  /** And it is a window that is open throughout: in every run a question hands out the operation that the
      generator inside offers if and only if the clock has not reached the cutoff. */
  lemma LimitIsExact(n: nat, clock: int, limit: int, inner: Gen, acts: seq<Action>, s: System, ch: Oracle)
    requires clock >= 0 && Fit(TimeLimit(limit, INVALID_TIME, inner), Threads(n)) && StaggerFree(inner)
    requires TimeUnset(TimeLimit(limit, INVALID_TIME, inner), Threads(n))
    requires Reachable(n, clock, TimeLimit(limit, INVALID_TIME, inner), acts, s) && s.sched.running
    requires Inv(s) && IsLimited(s.sched.gen, limit)
    requires Inside(s, limit, ch).NotNil() && Inside(s, limit, ch).op.Dispatchable()
    ensures Enabled(s, Poll(ch))
    ensures Apply(s, Poll(ch)).sched.history == s.sched.history +
            if (if CutoffOf(s.sched.gen) == INVALID_TIME then limit > 0 else s.clock < CutoffOf(s.sched.gen))
            then [Dispatched(Inside(s, limit, ch).op)] else []
  {
    hide Inv, Op, Run, TimeUnset, Apply, Enabled;
    var g := TimeLimit(limit, INVALID_TIME, inner);
    StartInv(n, clock, g);
    ValidateTimeUnset(g, Threads(n));
    assert StaggerFree(g);
    WindowedRun(Initial(n, clock, g), limit, acts, s);
    InvValid(s);
    InnerIsNow(s, At(At(ch, 0), 0), limit);
    LimitHandsOutIff(s, limit, ch);
  }

  // ----- Limits at any depth -----

  /** A step that hands nothing out, whether it asked the generator in vain or took a completion,
      keeps every cutoff that is set, however deep. */
  lemma SettledStep(s: System, a: Action)
    requires Inv(s) && Enabled(s, a)
    ensures EffectOf(s, a).Dispatch? ==> |Sent(Apply(s, a).sched.history)| == |Sent(s.sched.history)| + 1
    ensures !EffectOf(s, a).Dispatch? ==>
              && Sent(Apply(s, a).sched.history) == Sent(s.sched.history)
              && Settled(s.sched.gen, Apply(s, a).sched.gen)
  {
    hide Inv, Op, Update, EffectOf, Apply, Enabled, Settled, Fit, Sent;
    StepEffect(s, a);
    InvValid(s);
    var c := s.sched;
    match EffectOf(s, a)
    case Quiet => SettledSelf(c.gen);
    case Kept(ch) => OpSettled(c.gen, c.Context(s.clock), ch);
    case Completion(event, ctx) =>
      UpdateSettled(c.gen, ctx, event);
      SentNext(c.history, Completed(event));
    case Dispatch(ch, ctx) => SentNext(c.history, Dispatched(Answered(s, ch).op));
  }

  /** Between two dispatches no cutoff is lost, however often the generator is asked and however many
      completions come in. */
  lemma {:induction false} CutoffsSurvive(s: System, acts: seq<Action>, s': System)
    requires Inv(s) && Run(s, acts, s')
    ensures |Sent(s'.sched.history)| >= |Sent(s.sched.history)|
    ensures Sent(s'.sched.history) == Sent(s.sched.history) ==> Settled(s.sched.gen, s'.sched.gen)
    decreases |acts|
  {
    hide Inv, Enabled, Apply, EffectOf, Settled, Sent;
    if |acts| > 0 {
      var s1 := Apply(s, acts[0]);
      SettledStep(s, acts[0]);
      CutoffsSurvive(s1, acts[1..], s');
      if Sent(s'.sched.history) == Sent(s.sched.history) {
        SettledTrans(s.sched.gen, s1.sched.gen, s'.sched.gen);
      }
    } else {
      SettledSelf(s.sched.gen);
    }
  }
}
