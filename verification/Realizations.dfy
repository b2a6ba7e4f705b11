/** Which traces there are runs for: every interleaving of finite generators is what some run of their
    `Any` hands out. */
module Realizations {
  import opened Operations
  import opened Contexts
  import opened Selection
  import opened Generators
  import opened Evaluation
  import opened Leaves
  import opened Streams
  import opened Traces
  import opened Fairness
  import opened Cutoffs
  import opened Alternatives
  import opened Histories
  import opened Scheduling
  import opened Protocol
  import opened SchedulerSteps
  import opened Runs
  import opened Safety
  import opened Effects
  import opened Provenance
  import opened Delivery
  import opened Conformance
  import opened Timing
  import opened Completion
  import opened Lineage

  ghost predicate AllPlain(gs: seq<Gen>) {
    forall i | 0 <= i < |gs| :: Plain(gs[i])
  }

  /** The test is a choice between `n` finite generators whose operations are for now and for some thread. */
  ghost predicate Poised(s: System, n: nat) {
    Alternative(s.sched.gen, n) && AllPlain(s.sched.gen.gen.gens) && Eager(s.sched.gen, Threads(s.n))
  }

  ghost function Children(s: System, n: nat): (gs: seq<Gen>)
    requires Poised(s, n)
    ensures |gs| == n && AllWellFormed(gs) && AllPlain(gs)
  {
    s.sched.gen.gen.gens
  }

  // ----- What the children answer when nothing is outstanding -----

  ghost predicate Idle(s: System, n: nat) {
    s.sched.running && s.sched.outstanding == 0 && Poised(s, n) && Due(s.sched.gen, s.clock)
  }

  lemma ChildFit(s: System, n: nat, i: nat)
    requires Inv(s) && Poised(s, n) && i < n
    ensures s.sched.Context(s.clock).Valid() && s.sched.workers.Keys == Threads(s.n)
    ensures var c := Children(s, n)[i]; Disciplined(c, Threads(s.n)) && Eager(c, Threads(s.n))
  {
    hide Inv, HasLeaf, WellFormed, Within, Disciplined, TimeUnset, Schedulable, Plain;
    InvValid(s);
    ChildWithin(s.sched.gen, n, i);
    WithinKeeps(Children(s, n)[i], s.sched.gen, Threads(s.n));
  }

  lemma DueChild(g: Gen, n: nat, i: nat, now: int)
    requires Alternative(g, n) && i < n && Due(g, now)
    ensures Due(g.gen.gens[i], now)
  {
    assert Due(g.gen, now);
  }

  /** An operation for now, or a last one that is dropped, or none. */
  lemma ChildAnswers(s: System, n: nat, i: nat, ch: Oracle)
    requires Inv(s) && Idle(s, n) && i < n && s.sched.Context(s.clock).Valid()
    ensures var c := Children(s, n)[i]; var r := Op(c, s.sched.Context(s.clock), ch);
            && Advances(c, r) && (r.op.kind.Nil? || (r.op.Real() && r.op.time == s.clock))
  {
    hide Inv, Op, HasLeaf, Within, Disciplined, TimeUnset, Schedulable, Plain, Advances, Due, StaggerFree, Guarded;
    ChildFit(s, n, i);
    var c, ctx := Children(s, n)[i], s.sched.Context(s.clock);
    ChildReady(s, n, i);
    OpAdvances(c, ctx, ch);
    NemesisKnown(s);
    if Op(c, ctx, ch).op.kind.Pending? {
      PendingMeansBusy(c, ctx, ch);
      NobodyBusy(s);
    } else if Op(c, ctx, ch).op.Real() {
      DueChild(s.sched.gen, n, i, s.clock);
      var t, o, sc, ls := Sound(c, ctx, ch);
    }
  }

  lemma ChildReady(s: System, n: nat, i: nat)
    requires Poised(s, n) && i < n
    ensures Ready(Children(s, n)[i]) && Plain(Children(s, n)[i])
  {
    hide Plain, WellFormed;
    assert WellFormed(Children(s, n)[i]);
  }

  // ----- One operation of a chosen child -----

  /** The child can go on with `p`, and what may follow goes on from its successor. */
  lemma WrappedStep(c: Gen, r: OpResult, p: Request, rest: seq<Request>, m: Mode)
    requires Plain(c) && Advances(c, r) && (r.op.kind.Nil? || r.op.Real()) && CanWrap(c, [p] + rest, m)
    ensures r.NotNil() && r.op.Real() && r.op.AsIs() == p && CanWrap(r.next, rest, m)
  {
    hide Plain, Stream, CanWrap;
    PlainWrapped(c, [p] + rest, m);
    var s := Stream(c);
    WrappedHead(s, p, rest, m);
    PlainWrapped(r.next, rest, m);
    WrappedTail(s, Stream(r.next), p, rest, m);
  }

  lemma WrappedHead(s: Emits, p: Request, rest: seq<Request>, m: Mode)
    requires Unique(s.Wrapped(), [p] + rest, m) && (s.closes ==> s.ops != [])
    ensures |s.ops| > 0 && s.ops[0].FilledIn() == p && (s.closes ==> |s.ops| > 1)
  {
    assert Requests(s.Wrapped().ops)[0] == ([p] + rest)[0];
  }

  lemma WrappedTail(s: Emits, t: Emits, p: Request, rest: seq<Request>, m: Mode)
    requires Unique(s.Wrapped(), [p] + rest, m) && |s.ops| > 0 && (s.closes ==> |s.ops| > 1)
    requires t.ops == s.ops[1..] && t.closes == s.closes
    ensures Unique(t.Wrapped(), rest, m)
  {
    var a, b := Requests(s.Wrapped().ops), Requests(t.Wrapped().ops);
    assert b == a[1..];
    assert ([p] + rest)[1..] == rest;
  }

  // ----- Draws that make a child answer -----

  /** The draws of `w`, seen from outside a Validate. */
  ghost function Outside(w: Oracle): Oracle {
    (p: seq<nat>) => if |p| > 0 then w(p[1..]) else 0
  }

  lemma OutsideAgrees(w: Oracle)
    ensures Agree(At(Outside(w), 0), w)
  {
    var inside := At(Outside(w), 0);
    forall p ensures inside(p) == w(p) {
      assert ([0] + p)[1..] == p;
    }
  }

  /** The answer of child `i` to the draws that are always zero. */
  ghost function ChildResult(s: System, n: nat, i: nat): OpResult
    requires Poised(s, n) && i < n && s.sched.Context(s.clock).Valid()
  {
    ChildReady(s, n, i);
    Op(Children(s, n)[i], s.sched.Context(s.clock), At(ANY_ORACLE, i + 1))
  }

  lemma ChildIsTied(s: System, n: nat, idx: nat)
    requires Inv(s) && Idle(s, n) && idx < n && s.sched.Context(s.clock).Valid()
    requires ChildResult(s, n, idx).NotNil()
    ensures var offers := Fairness.Offered(Children(s, n), s.sched.Context(s.clock), ANY_ORACLE);
            |offers| == n && idx in Tied(offers, n)
  {
    hide Inv, Op, WellFormed, Plain, Eager, Due, Advances, Tied;
    var gs, ctx := Children(s, n), s.sched.Context(s.clock);
    AnyOfChildren(s, n);
    OpAny(gs, ctx, ANY_ORACLE);
    var offers := Fairness.Offered(gs, ctx, ANY_ORACLE);
    forall i: nat | i < n ensures Live(offers, i) ==> offers[i].op.time == s.clock {
      ChildAnswers(s, n, i, At(ANY_ORACLE, i + 1));
    }
    ChildAnswers(s, n, idx, At(ANY_ORACLE, idx + 1));
    TiedIfSoonest(offers, idx, s.clock);
  }

  lemma TiedIfSoonest(offers: Offers, idx: nat, time: int)
    requires Live(offers, idx) && offers[idx].op.time == time
    requires forall i: nat | i < |offers| && Live(offers, i) :: offers[i].op.time == time
    ensures idx in Tied(offers, |offers|)
  {
  }

  lemma AnyOfChildren(s: System, n: nat)
    requires Poised(s, n)
    ensures WellFormed(Any(Children(s, n))) && s.sched.gen == Validate(Any(Children(s, n)))
  {
  }

  /** Some draws make the child answer, and leave the others as they are. */
  lemma DrawsFor(s: System, n: nat, idx: nat) returns (ch: Oracle)
    requires Inv(s) && Idle(s, n) && idx < n && s.sched.Context(s.clock).Valid()
    requires ChildResult(s, n, idx).NotNil()
    ensures var r, child := Answered(s, ch), ChildResult(s, n, idx);
            && r.op == child.op && r.next.Validate? && r.next.gen.Any? && |r.next.gen.gens| == n
            && r.next.gen.gens[idx] == child.next
            && forall j | 0 <= j < n && j != idx :: Same(r.next.gen.gens[j], Children(s, n)[j])
  {
    hide Inv, Op, WellFormed, Plain, Eager, Due, Tied, Choice, Same;
    var gs, ctx := Children(s, n), s.sched.Context(s.clock);
    AnyOfChildren(s, n);
    ChildIsTied(s, n, idx);
    var record := AnyCanChoose(gs, ctx, ANY_ORACLE, idx);
    var w := WithTies(ANY_ORACLE, record);
    AnswerOfChoice(gs, ctx, ANY_ORACLE, record);
    ch := Outside(w);
    OutsideAgrees(w);
    OpAgrees(Any(gs), ctx, At(ch, 0), w);
    OpValidate(Any(gs), ctx, ch);
  }

  // ----- Steps of the run -----

  lemma SameAlternative(g: Gen, h: Gen, n: nat)
    requires Alternative(g, n) && Same(h, g)
    ensures Alternative(h, n) && SameAll(h.gen.gens, g.gen.gens)
  {
    assert h.Validate? && Same(h.gen, g.gen);
    assert h.gen.Any? && EraseAll(h.gen.gens) == EraseAll(g.gen.gens);
    SameAllErase(h.gen.gens, g.gen.gens);
    SameKeeps(h, g);
    SameKeeps(h.gen, g.gen);
    AnyChildren(h.gen.gens);
  }

  lemma SameAllPlain(xs: seq<Gen>, ys: seq<Gen>)
    requires SameAll(xs, ys) && AllPlain(ys)
    ensures AllPlain(xs)
  {
    hide Plain, Same;
    forall i | 0 <= i < |xs| ensures Plain(xs[i]) {
      SameStream(xs[i], ys[i]);
    }
  }

  /** What is outstanding comes back and every next time passes; nothing is handed out. */
  lemma Rest(s: System, n: nat) returns (acts: seq<Action>, s': System)
    requires Inv(s) && s.sched.running && Poised(s, n)
    ensures Run(s, acts, s') && Inv(s') && Idle(s', n) && SameAll(Children(s', n), Children(s, n))
    ensures Sent(s'.sched.history) == Sent(s.sched.history) && s'.n == s.n
  {
    hide Inv, Run, Apply, Enabled, Eager, Same, Plain, WellFormed, Due, Load, Sent;
    var s1;
    acts, s1 := Drain(s);
    SameAlternative(s.sched.gen, s1.sched.gen, n);
    SameAllPlain(s1.sched.gen.gen.gens, Children(s, n));
    EagerSame(s1.sched.gen, s.sched.gen, Threads(s.n));
    var now := DueAtLast(s1.sched.gen, s1.clock);
    TickOnly(s1, now);
    s' := Apply(s1, Tick(now));
    RunNothing(s');
    RunCons(s1, Tick(now), [], s');
    RunConcat(s, acts, s1, [Tick(now)] + [], s');
    acts := acts + ([Tick(now)] + []);
  }

  /** The answer is handed out. */
  lemma HandOut(s: System, n: nat, idx: nat, ch: Oracle)
    requires Inv(s) && Idle(s, n) && idx < n && s.sched.Context(s.clock).Valid()
    requires ChildResult(s, n, idx).NotNil()
    requires var r, child := Answered(s, ch), ChildResult(s, n, idx);
             && r.op == child.op && r.next.Validate? && r.next.gen.Any? && |r.next.gen.gens| == n
             && r.next.gen.gens[idx] == child.next
             && forall j | 0 <= j < n && j != idx :: Same(r.next.gen.gens[j], Children(s, n)[j])
    ensures Enabled(s, Poll(ch))
    ensures var s' := Apply(s, Poll(ch));
            && s'.sched.running && s'.n == s.n && Poised(s', n)
            && Sent(s'.sched.history) == Sent(s.sched.history) + [ChildResult(s, n, idx).op.AsIs()]
            && Same(Children(s', n)[idx], ChildResult(s, n, idx).next)
            && forall j | 0 <= j < n && j != idx :: Same(Children(s', n)[j], Children(s, n)[j])
  {
    hide Inv, Op, EffectOf, Apply, PollStep, Enabled, WellFormed, Plain, Eager, Due, Same, Advances, Fit, Effected;
    var a, r := Poll(ch), Answered(s, ch);
    assert Enabled(s, a) by { CanPoll(s, ch); }
    ChildAnswers(s, n, idx, At(ANY_ORACLE, idx + 1));
    PlainDispatchable(Children(s, n)[idx], ChildResult(s, n, idx));
    AskWhenIdle(s, ch);
    EffectKinds(s, a);
    GenEffect(s, a);
    HistoryStep(s, a);
    SentNext(s.sched.history, Dispatched(r.op));
    StepRunning(s, a);
    EagerStep(s, a);
    NextAlternative(s, n, ch);
    var gen := Apply(s, a).sched.gen;
    SameAlternative(r.next, gen, n);
    forall j | 0 <= j < n ensures Plain(gen.gen.gens[j]) {
      SameStream(gen.gen.gens[j], r.next.gen.gens[j]);
      if j != idx {
        SameStream(r.next.gen.gens[j], Children(s, n)[j]);
        ChildReady(s, n, j);
      }
    }
    forall j | 0 <= j < n && j != idx ensures Same(gen.gen.gens[j], Children(s, n)[j]) {
      SameTrans(gen.gen.gens[j], r.next.gen.gens[j], Children(s, n)[j]);
    }
  }

  lemma CanPoll(s: System, ch: Oracle)
    requires Inv(s) && s.sched.running
    ensures Enabled(s, Poll(ch))
  {
    hide Inv;
  }

  lemma PlainDispatchable(c: Gen, r: OpResult)
    requires Advances(c, r)
    ensures Plain(r.next) && (r.op.Real() ==> r.op.Dispatchable())
  {
  }

  lemma NextAlternative(s: System, n: nat, ch: Oracle)
    requires Inv(s) && Poised(s, n)
    ensures var next := Answered(s, ch).next;
            next.Validate? && next.gen.Any? && |next.gen.gens| == n ==> Alternative(next, n)
  {
    hide Inv, Op, WellFormed, Eager, Plain;
    InvValid(s);
    AnswerWellFormed(s.sched.gen, s.sched.Context(s.clock), ch);
  }

  // ----- Every trace -----

  lemma SharedSame(xs: seq<Gen>, ys: seq<Gen>, ps: seq<Request>, owner: seq<nat>, m: Mode)
    requires SameAll(xs, ys) && Shared(ys, ps, owner, m)
    ensures Shared(xs, ps, owner, m)
  {
    hide CanWrap, Same, Part;
    forall i | 0 <= i < |xs| ensures CanWrap(xs[i], Part(ps, owner, i), m) {
      SameCanWrap(xs[i], ys[i], Part(ps, owner, i), m);
    }
  }

  /** The child that is next can answer, and the rest of the trace goes on from the successors. */
  lemma SharedStep(gs: seq<Gen>, idx: nat, r: OpResult, next: seq<Gen>, ps: seq<Request>, owner: seq<nat>, m: Mode)
    requires |ps| > 0 && Shared(gs, ps, owner, m) && owner[0] == idx && idx < |gs| && |next| == |gs|
    requires Plain(gs[idx]) && Advances(gs[idx], r) && (r.op.kind.Nil? || r.op.Real())
    ensures r.NotNil() && r.op.Real() && r.op.AsIs() == ps[0]
    ensures Same(next[idx], r.next) && (forall j | 0 <= j < |gs| && j != idx :: Same(next[j], gs[j])) ==>
              Shared(next, ps[1..], owner[1..], m)
  {
    hide CanWrap, Same, Part, Advances, Plain;
    var p, rest, owners := ps[0], ps[1..], owner[1..];
    assert ps == [p] + rest && owner == [idx] + owners;
    PartNext(p, rest, idx, owners, idx);
    assert CanWrap(gs[idx], Part(ps, owner, idx), m);
    WrappedStep(gs[idx], r, p, Part(rest, owners, idx), m);
    if Same(next[idx], r.next) && forall j | 0 <= j < |gs| && j != idx :: Same(next[j], gs[j]) {
      forall i | 0 <= i < |gs| ensures CanWrap(next[i], Part(rest, owners, i), m) {
        PartNext(p, rest, idx, owners, i);
        assert CanWrap(gs[i], Part(ps, owner, i), m);
        SameCanWrap(next[i], if i == idx then r.next else gs[i], Part(rest, owners, i), m);
      }
    }
  }

  /** A child that is through has no usable answer. */
  lemma WrappedDry(c: Gen, r: OpResult)
    requires Plain(c) && Advances(c, r) && (r.op.kind.Nil? || r.op.Real()) && CanWrap(c, [], Drying)
    ensures !r.NotNil()
  {
    hide Plain, Stream, CanWrap;
    PlainWrapped(c, [], Drying);
    var s := Stream(c);
    assert |Requests(s.Wrapped().ops)| == 0;
  }

  /** With every child through, asking ends the run. */
  lemma EndRun(s: System, n: nat)
    requires Inv(s) && Idle(s, n) && Shared(Children(s, n), [], [], Drying)
    ensures Enabled(s, Poll(ANY_ORACLE))
    ensures var s' := Apply(s, Poll(ANY_ORACLE)); !s'.sched.running && Sent(s'.sched.history) == Sent(s.sched.history)
  {
    hide Inv, Op, EffectOf, Apply, Enabled, WellFormed, Plain, Eager, Due, Same, Advances, Fit, CanWrap, Asked,
        Settled, Sent;
    CanPoll(s, ANY_ORACLE);
    InvValid(s);
    var gs, ctx, inner := Children(s, n), s.sched.Context(s.clock), At(ANY_ORACLE, 0);
    AnyOfChildren(s, n);
    OpValidate(Any(gs), ctx, ANY_ORACLE);
    forall i: nat | i < n ensures !ChildAnswer(gs, ctx, inner, i).NotNil() {
      assert CanWrap(gs[i], Part([], [], i), Drying);
      ChildAnswers(s, n, i, At(inner, i + 1));
      ChildReady(s, n, i);
      WrappedDry(gs[i], ChildAnswer(gs, ctx, inner, i));
    }
    var idx := AnySelects(gs, ctx, inner);
    Verdicts(s.sched, s.clock, ANY_ORACLE);
    ApplyPoll(s, ANY_ORACLE);
    SettledStep(s, Poll(ANY_ORACLE));
    StepRunning(s, Poll(ANY_ORACLE));
    PollStops(s, ANY_ORACLE);
  }

  lemma PollStops(s: System, ch: Oracle)
    requires Inv(s) && Enabled(s, Poll(ch)) && s.sched.Valid() && Asked(s.sched, s.clock, ch).Finish?
    ensures !PollStep(s, ch).sched.running && !EffectOf(s, Poll(ch)).Dispatch?
  {
    hide Inv, Op, Update, ProcessToThread;
  }

  /** One operation of the trace: rest, then ask with the draws that make its child answer. */
  lemma RealizeOne(s: System, n: nat, ps: seq<Request>, owner: seq<nat>, m: Mode)
    returns (acts: seq<Action>, s': System)
    requires Inv(s) && s.sched.running && Poised(s, n) && |ps| > 0 && Shared(Children(s, n), ps, owner, m)
    ensures Run(s, acts, s') && Inv(s') && s'.sched.running && s'.n == s.n && Poised(s', n)
    ensures Sent(s'.sched.history) == Sent(s.sched.history) + [ps[0]]
    ensures Shared(Children(s', n), ps[1..], owner[1..], m)
  {
    hide Inv, Run, Op, Apply, Enabled, Poised, Shared, Same, Plain, Advances, ChildResult, Answered, Sent, CanWrap;
    var s1;
    acts, s1 := Rest(s, n);
    SharedSame(Children(s1, n), Children(s, n), ps, owner, m);
    InvValid(s1);
    SharedOwner(Children(s1, n), ps, owner, m);
    var idx := owner[0];
    ChildReady(s1, n, idx);
    ChildResultAnswers(s1, n, idx);
    SharedStep(Children(s1, n), idx, ChildResult(s1, n, idx), Children(s1, n), ps, owner, m);
    var ch := DrawsFor(s1, n, idx);
    HandOut(s1, n, idx, ch);
    s' := Apply(s1, Poll(ch));
    SharedStep(Children(s1, n), idx, ChildResult(s1, n, idx), Children(s', n), ps, owner, m);
    RunNothing(s');
    RunCons(s1, Poll(ch), [], s');
    RunConcat(s, acts, s1, [Poll(ch)] + [], s');
    acts := acts + ([Poll(ch)] + []);
  }

  lemma SharedOwner(gs: seq<Gen>, ps: seq<Request>, owner: seq<nat>, m: Mode)
    requires Shared(gs, ps, owner, m) && |ps| > 0
    ensures |owner| == |ps| && owner[0] < |gs|
  {
  }

  lemma ChildResultAnswers(s: System, n: nat, i: nat)
    requires Inv(s) && Idle(s, n) && i < n && s.sched.Context(s.clock).Valid()
    ensures var r := ChildResult(s, n, i); Advances(Children(s, n)[i], r) && (r.op.kind.Nil? || r.op.Real())
  {
    hide Inv, Op, Plain, WellFormed, Eager, Due, Advances;
    ChildAnswers(s, n, i, At(ANY_ORACLE, i + 1));
  }

  lemma {:induction false} Realize(s: System, n: nat, ps: seq<Request>, owner: seq<nat>, m: Mode)
    returns (acts: seq<Action>, s': System)
    requires Inv(s) && s.sched.running && Poised(s, n) && Shared(Children(s, n), ps, owner, m)
    ensures Run(s, acts, s') && Sent(s'.sched.history) == Sent(s.sched.history) + ps
    ensures m.Drying? ==> !s'.sched.running
    decreases |ps|
  {
    hide Inv, Run, Apply, Enabled, Poised, Shared, Same, Sent, Due;
    if |ps| > 0 {
      SharedOwner(Children(s, n), ps, owner, m);
      var s1;
      acts, s1 := RealizeOne(s, n, ps, owner, m);
      var more;
      more, s' := Realize(s1, n, ps[1..], owner[1..], m);
      RunConcat(s, acts, s1, more, s');
      acts := acts + more;
      assert Sent(s.sched.history) + [ps[0]] + ps[1..] == Sent(s.sched.history) + ps;
    } else if m.Drying? {
      var s1;
      acts, s1 := Rest(s, n);
      SharedSame(Children(s1, n), Children(s, n), ps, owner, m);
      SharedNone(Children(s1, n), ps, owner, m);
      EndRun(s1, n);
      s' := Apply(s1, Poll(ANY_ORACLE));
      RunNothing(s');
      RunCons(s1, Poll(ANY_ORACLE), [], s');
      RunConcat(s, acts, s1, [Poll(ANY_ORACLE)] + [], s');
      acts := acts + ([Poll(ANY_ORACLE)] + []);
    } else {
      RunNothing(s);
      acts, s' := [], s;
    }
  }

  lemma SharedNone(gs: seq<Gen>, ps: seq<Request>, owner: seq<nat>, m: Mode)
    requires Shared(gs, ps, owner, m) && ps == []
    ensures Shared(gs, [], [], m)
  {
  }

  lemma PoisedAtStart(n: nat, clock: int, gs: seq<Gen>)
    requires Fit(Any(gs), Threads(n)) && Eager(Any(gs), Threads(n)) && AllPlain(gs)
    ensures Poised(Initial(n, clock, Any(gs)), |gs|)
  {
    hide Plain, HasLeaf;
    AnyChildren(gs);
    ValidateWithin(Any(gs));
    EagerWithin(Validate(Any(gs)), Any(gs), Threads(n));
  }

  /** The converse of `RunsAreTraces` for a choice between finite generators, staggers included, with open
      times and a thread for each operation: whatever it can hand out it does hand out in some run, every
      interleaving of its children, and a complete one in a run that finishes. */
  lemma TracesAreRuns(n: nat, clock: int, gs: seq<Gen>, ps: seq<Request>, m: Mode)
    returns (acts: seq<Action>, s: System)
    requires Fit(Any(gs), Threads(n)) && Eager(Any(gs), Threads(n)) && AllPlain(gs)
    requires Can(Any(gs), ps, m) && !m.Closing?
    ensures Reachable(n, clock, Any(gs), acts, s) && Sent(s.sched.history) == ps
    ensures m.Drying? ==> !s.sched.running
  {
    hide Inv, Run, Fit, Eager, Can, Shared, Poised, Plain;
    StartInv(n, clock, Any(gs));
    PoisedAtStart(n, clock, gs);
    AnyCan(gs, ps, m);
    var owner :| Owners(ps, owner, |gs|) && Shared(gs, ps, owner, m);
    var s0 := Initial(n, clock, Any(gs));
    acts, s := Realize(s0, |gs|, ps, owner, m);
    assert [] + ps == ps;
  }

  /** Together: the complete traces of such a choice are exactly what its finished runs hand out. */
  lemma FinishedRunsAreCompleteTraces(n: nat, clock: int, gs: seq<Gen>, ps: seq<Request>)
    requires Fit(Any(gs), Threads(n)) && Eager(Any(gs), Threads(n)) && AllPlain(gs) && ExitFree(Any(gs), Threads(n))
    ensures Can(Any(gs), ps, Drying) <==>
            exists acts, s :: Reachable(n, clock, Any(gs), acts, s) && !s.sched.running && Sent(s.sched.history) == ps
  {
    hide Reachable, Fit, Eager, Can, Plain, ExitFree, Sent;
    if Can(Any(gs), ps, Drying) {
      var acts, s := TracesAreRuns(n, clock, gs, ps, Drying);
    }
    if exists acts, s :: Reachable(n, clock, Any(gs), acts, s) && !s.sched.running && Sent(s.sched.history) == ps {
      var acts, s :| Reachable(n, clock, Any(gs), acts, s) && !s.sched.running && Sent(s.sched.history) == ps;
      RunsAreTraces(n, clock, Any(gs), acts, s);
      AnyNeverCloses(gs, ps);
    }
  }
}
