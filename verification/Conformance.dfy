/** Over whole runs: what is handed out is a trace of the test's generator. */
module Conformance {
  import opened Operations
  import opened Contexts
  import opened Generators
  import opened Evaluation
  import opened Leaves
  import opened Streams
  import opened Traces
  import opened Histories
  import opened Scheduling
  import opened Protocol
  import opened SchedulerSteps
  import opened Runs
  import opened Safety
  import opened Effects
  import opened Provenance
  import opened Delivery

  // ----- Traces and streams agree -----

  /** A plain generator has one complete trace, its stream, and its traces are the prefixes of that. */
  ghost predicate Unique(s: Emits, ps: seq<Request>, m: Mode) {
    match m
    case Going => ps <= Requests(s.ops) && (s.closes ==> ps != Requests(s.ops))
    case Closing => s.closes && ps == Requests(s.ops)
    case Drying => !s.closes && ps == Requests(s.ops)
  }

  lemma {:induction false} PlainTraces(g: Gen, ps: seq<Request>, m: Mode)
    requires Plain(g)
    ensures Can(g, ps, m) <==> Unique(Stream(g), ps, m)
    decreases g, 0
  {
    match g
    case Null =>
    case OpGen(o) => assert Requests([o]) == [o.FilledIn()];
    case ListGen(gs) => PlainTracesAll(gs, ps, m);
    case Validate(c) => PlainTraces(c, ps, m);
    case OnThreads(c, _) => PlainWrapped(c, ps, m);
    case Stagger(_, _, c) => PlainWrapped(c, ps, m);
  }

  lemma {:induction false} PlainWrapped(g: Gen, ps: seq<Request>, m: Mode)
    requires Plain(g)
    ensures CanWrap(g, ps, m) <==> Unique(Stream(g).Wrapped(), ps, m)
    decreases g, 1
  {
    hide Can, Plain, Stream;
    var s := Stream(g);
    PlainTraces(g, ps, Going);
    PlainTraces(g, ps, Drying);
    forall p ensures Can(g, ps + [p], Closing) <==> s.closes && ps + [p] == Requests(s.ops) {
      PlainTraces(g, ps + [p], Closing);
    }
    if s.closes {
      var all := Requests(s.ops);
      var last := all[|all| - 1];
      assert all == all[..|all| - 1] + [last];
      assert Requests(s.Wrapped().ops) == all[..|all| - 1];
      assert Unique(s.Wrapped(), ps, Drying) ==> Can(g, ps + [last], Closing);
    }
  }

  lemma RequestsConcat(a: seq<Operation>, b: seq<Operation>)
    ensures Requests(a + b) == Requests(a) + Requests(b)
  {
  }

  /** What the first element can hand out, the list can. */
  lemma FirstUnique(gs: seq<Gen>, ps: seq<Request>)
    requires |gs| > 1 && Unique(Stream(gs[0]), ps, Going)
    ensures Unique(StreamAll(gs), ps, Going)
  {
    hide Stream, Requests;
    var s, rest := Stream(gs[0]), StreamAll(gs[1..]);
    RequestsConcat(s.ops, rest.ops);
    assert rest.closes ==> |Requests(rest.ops)| > 0 by {
      RequestsSize(rest.ops);
    }
  }

  lemma RequestsSize(ops: seq<Operation>)
    ensures |Requests(ops)| == |ops|
  {
  }

  /** All of the first element, and then what the others can hand out. */
  lemma RestUnique(gs: seq<Gen>, ps: seq<Request>, k: int, m: Mode)
    requires |gs| > 1 && Cut(ps, k) && ps[..k] == Requests(Stream(gs[0]).ops) && Unique(StreamAll(gs[1..]), ps[k..], m)
    ensures Unique(StreamAll(gs), ps, m)
  {
    hide Stream, Requests;
    var all, rest := Requests(Stream(gs[0]).ops), Requests(StreamAll(gs[1..]).ops);
    RequestsConcat(Stream(gs[0]).ops, StreamAll(gs[1..]).ops);
    assert ps == all + ps[k..];
    Prefixes(all, rest, ps[k..]);
  }

  lemma Prefixes(all: seq<Request>, rest: seq<Request>, ps: seq<Request>)
    ensures ps <= rest ==> all + ps <= all + rest
    ensures all + ps == all + rest ==> ps == rest
  {
    assert (all + ps)[|all|..] == ps && (all + rest)[|all|..] == rest;
  }

  lemma {:induction false} PlainTracesAll(gs: seq<Gen>, ps: seq<Request>, m: Mode)
    requires forall i | 0 <= i < |gs| :: Plain(gs[i])
    ensures CanAll(gs, ps, m) <==> Unique(StreamAll(gs), ps, m)
    decreases gs, 1
  {
    hide Can, Plain, Stream;
    if |gs| == 1 {
      PlainTraces(gs[0], ps, m);
      assert StreamAll(gs).ops == Stream(gs[0]).ops;
    } else if |gs| > 1 {
      hide StreamAll;
      PlainTraces(gs[0], ps, Going);
      if CanAll(gs, ps, m) {
        if m.Going? && Can(gs[0], ps, Going) {
          FirstUnique(gs, ps);
        } else {
          var k := SplitOf(gs, ps, m);
          PlainTraces(gs[0], ps[..k], Closing);
          PlainTraces(gs[0], ps[..k], Drying);
          PlainTracesAll(gs[1..], ps[k..], m);
          RestUnique(gs, ps, k, m);
        }
      }
      if Unique(StreamAll(gs), ps, m) {
        PlainSplit(gs, ps, m);
      }
    }
  }

  lemma {:induction false} PlainSplit(gs: seq<Gen>, ps: seq<Request>, m: Mode)
    requires |gs| > 1 && (forall i | 0 <= i < |gs| :: Plain(gs[i])) && Unique(StreamAll(gs), ps, m)
    ensures CanAll(gs, ps, m)
    decreases gs, 0
  {
    hide Can, Plain, Stream, CanAll;
    var s, rest := Stream(gs[0]), StreamAll(gs[1..]);
    RequestsConcat(s.ops, rest.ops);
    var k := |s.ops|;
    if |ps| < k {
      PlainTraces(gs[0], ps, Going);
      FirstGoing(gs, ps);
    } else {
      assert ps[..k] == Requests(s.ops);
      PlainTraces(gs[0], ps[..k], Closing);
      PlainTraces(gs[0], ps[..k], Drying);
      PlainTracesAll(gs[1..], ps[k..], m);
      Split(gs, ps, k, m);
    }
  }

  // ----- Runs follow traces -----

  /** No leaf is an exit operation: the run ends only when the generator is exhausted. */
  ghost predicate ExitFree(g: Gen, scope: set<Thread>) {
    forall o, sc, ls | HasLeaf(g, scope, o, sc, ls) :: !o.kind.Exit?
  }

  /** What was handed out, continued by any trace of the generator as it is now, is a trace of `g`. */
  ghost predicate Continues(g: Gen, sent: seq<Request>, now: Gen) {
    && (now.Null? ==> Can(g, sent, Closing))
    && (!now.Null? ==> forall ps, m | Can(now, ps, m) :: Can(g, sent + ps, m))
  }

  lemma ContinuesSame(g: Gen, sent: seq<Request>, now: Gen, now': Gen)
    requires Continues(g, sent, now) && Same(now', now)
    ensures Continues(g, sent, now')
  {
    hide Can;
    forall ps, m ensures Can(now', ps, m) == Can(now, ps, m) {
      SameCan(now', now, ps, m);
    }
  }

  lemma ContinuesDispatch(g: Gen, sent: seq<Request>, now: Gen, r: OpResult)
    requires Continues(g, sent, now) && Leads(now, r) && r.op.Real()
    ensures !now.Null? ==> Continues(g, sent + [r.op.AsIs()], r.next)
  {
    hide Can;
    if !now.Null? && !r.next.Null? {
      forall ps, m | Can(r.next, ps, m) ensures Can(g, sent + [r.op.AsIs()] + ps, m) {
        assert Can(now, [r.op.AsIs()] + ps, m);
        assert sent + ([r.op.AsIs()] + ps) == sent + [r.op.AsIs()] + ps;
      }
    }
  }

  lemma ContinuesNil(g: Gen, sent: seq<Request>, now: Gen, r: OpResult)
    requires Continues(g, sent, now) && Leads(now, r) && r.op.kind.Nil?
    ensures Over(g, sent)
  {
    hide Can;
    assert sent + [] == sent;
  }

  lemma ContinuesGoing(g: Gen, sent: seq<Request>, now: Gen)
    requires Continues(g, sent, now)
    ensures Can(g, sent, Going) || Over(g, sent)
  {
    hide Can;
    CanNothing(now);
    assert sent + [] == sent;
  }

  ghost predicate Follows(g: Gen, s: System) {
    && Traced(g, s)
    && Continues(g, Sent(s.sched.history), s.sched.gen)
    && (!s.sched.running ==> ExitFree(g, Threads(s.n)) ==> Over(g, Sent(s.sched.history)))
  }

  lemma AnswerLeads(s: System, ch: Oracle)
    requires Inv(s)
    ensures Leads(s.sched.gen, Answered(s, ch))
    ensures Answered(s, ch).op.Real() ==> !s.sched.gen.Null?
  {
    hide Inv, Leads, Fit;
    InvValid(s);
    var r := Answered(s, ch);
    assert s.sched.gen.Null? ==> r.op == NIL;
    hide Op;
    OpLeads(s.sched.gen, s.sched.Context(s.clock), ch);
  }

  lemma AnswerNotExit(g: Gen, s: System, ch: Oracle)
    requires Inv(s) && Within(s.sched.gen, g) && ExitFree(g, Threads(s.n))
    ensures !Answered(s, ch).op.kind.Exit?
  {
    hide Inv, Op, HasLeaf;
    InvValid(s);
    if Answered(s, ch).op.kind.Exit? {
      var o, sc, t, ls := Origin(s.sched.gen, s.sched.Context(s.clock), ch);
      LeafOfWithin(s.sched.gen, g, Threads(s.n), o, sc, ls);
    }
  }

  lemma FollowsStep(g: Gen, s: System, a: Action)
    requires Inv(s) && Enabled(s, a) && Follows(g, s)
    ensures Follows(g, Apply(s, a))
  {
    hide Inv, Op, Update, EffectOf, Apply, Same, Answered, Enabled, ExitFree, Over, Sent, Leads, FromLeaf, Within,
        Continues, Fit;
    TracedStep(g, s, a);
    StepEffect(s, a);
    GenEffect(s, a);
    var c, c' := s.sched, Apply(s, a).sched;
    match EffectOf(s, a)
    case Quiet =>
    case Kept(ch) =>
      ContinuesSame(g, Sent(c.history), c.gen, c'.gen);
      AnswerLeads(s, ch);
      if !c'.running && ExitFree(g, Threads(s.n)) {
        AnswerNotExit(g, s, ch);
        ContinuesNil(g, Sent(c.history), c.gen, Answered(s, ch));
      }
    case Completion(event, ctx) =>
      SentNext(c.history, Completed(event));
      assert Sent(c'.history) == Sent(c.history);
      ContinuesSame(g, Sent(c.history), c.gen, c'.gen);
    case Dispatch(ch, ctx) =>
      var r := Answered(s, ch);
      SentNext(c.history, Dispatched(r.op));
      AnswerLeads(s, ch);
      ContinuesDispatch(g, Sent(c.history), c.gen, r);
      ContinuesSame(g, Sent(c'.history), r.next, c'.gen);
  }

  lemma {:induction false} FollowsRun(g: Gen, s: System, acts: seq<Action>, s': System)
    requires Inv(s) && Run(s, acts, s') && Follows(g, s)
    ensures Follows(g, s')
    decreases |acts|
  {
    hide Inv, Enabled, Follows, Apply;
    if |acts| > 0 {
      FollowsStep(g, s, acts[0]);
      FollowsRun(g, Apply(s, acts[0]), acts[1..], s');
    }
  }

  lemma ValidateContinues(g: Gen)
    ensures Continues(g, [], Validate(g))
  {
    forall ps, m | Can(Validate(g), ps, m) ensures Can(g, [] + ps, m) {
      assert [] + ps == ps;
    }
  }

  /** Whatever the nesting, the interleaving, the clock and the random choices: what has been handed
      out is a trace of the generator, and a finished run has handed out a complete one. */
  lemma RunsAreTraces(n: nat, clock: int, g: Gen, acts: seq<Action>, s: System)
    requires Fit(g, Threads(n)) && Reachable(n, clock, g, acts, s)
    ensures Can(g, Sent(s.sched.history), Going) || Over(g, Sent(s.sched.history))
    ensures !s.sched.running && ExitFree(g, Threads(n)) ==> Over(g, Sent(s.sched.history))
  {
    hide Inv, Run, Fit, Can, Over, ExitFree, Within;
    StartInv(n, clock, g);
    ReachableInv(n, clock, g, acts, s);
    ValidateWithin(g);
    ValidateContinues(g);
    FollowsRun(g, Initial(n, clock, g), acts, s);
    ContinuesGoing(g, Sent(s.sched.history), s.sched.gen);
  }

  /** A time-limited test hands out a trace of the generator inside. */
  lemma LimitCutsAPrefix(n: nat, clock: int, limit: int, cutoff: int, c: Gen, acts: seq<Action>, s: System)
    requires Fit(TimeLimit(limit, cutoff, c), Threads(n)) && Reachable(n, clock, TimeLimit(limit, cutoff, c), acts, s)
    ensures Can(c, Sent(s.sched.history), Going)
    ensures Plain(c) ==> Sent(s.sched.history) <= Requests(Stream(c).ops)
  {
    hide Reachable, Fit, Plain, Stream;
    var g := TimeLimit(limit, cutoff, c);
    RunsAreTraces(n, clock, g, acts, s);
    TimeLimitCan(limit, cutoff, c, Sent(s.sched.history), Going);
    TimeLimitCan(limit, cutoff, c, Sent(s.sched.history), Closing);
    TimeLimitCan(limit, cutoff, c, Sent(s.sched.history), Drying);
    if Plain(c) {
      PlainTraces(c, Sent(s.sched.history), Going);
    }
  }

  /** An `Any` interleaves its children: what belongs to each is, in order, a trace of that child as a
      wrapper lets it through, and a complete one in a finished run.  For a plain child that is a prefix
      of its stream, and in a finished run all of it but an operation that closes it. */
  lemma AnyInterleaves(n: nat, clock: int, gs: seq<Gen>, acts: seq<Action>, s: System)
    returns (owner: seq<nat>, m: Mode)
    requires Fit(Any(gs), Threads(n)) && Reachable(n, clock, Any(gs), acts, s)
    ensures Owners(Sent(s.sched.history), owner, |gs|)
    ensures forall i | 0 <= i < |gs| :: CanWrap(gs[i], Part(Sent(s.sched.history), owner, i), m)
    ensures forall i | 0 <= i < |gs| && Plain(gs[i]) ::
              Part(Sent(s.sched.history), owner, i) <= Requests(Stream(gs[i]).ops)
    ensures !s.sched.running && ExitFree(Any(gs), Threads(n)) ==> m == Drying
    ensures m == Drying ==> forall i | 0 <= i < |gs| && Plain(gs[i]) ::
              Part(Sent(s.sched.history), owner, i) == Requests(Stream(gs[i]).Wrapped().ops)
  {
    hide Reachable, Fit, Plain, Stream, Can, ExitFree, Shared, Part;
    RunsAreTraces(n, clock, Any(gs), acts, s);
    var sent := Sent(s.sched.history);
    AnyNeverCloses(gs, sent);
    m := if Can(Any(gs), sent, Drying) then Drying else Going;
    owner := OwnersOf(gs, sent, m);
    forall i | 0 <= i < |gs| && Plain(gs[i])
      ensures Part(sent, owner, i) <= Requests(Stream(gs[i]).ops)
      ensures m == Drying ==> Part(sent, owner, i) == Requests(Stream(gs[i]).Wrapped().ops)
    {
      PlainWrapped(gs[i], Part(sent, owner, i), m);
      WrappedPrefix(Stream(gs[i]));
    }
  }

  /** With no child at all `Any` answers nil; otherwise it has a successor for every operation. */
  lemma AnyNeverCloses(gs: seq<Gen>, ps: seq<Request>)
    ensures Can(Any(gs), ps, Closing) ==> Can(Any(gs), ps, Drying)
  {
    hide Can, Part;
    AnyCan(gs, ps, Closing);
    AnyCan(gs, ps, Drying);
    if Can(Any(gs), ps, Closing) {
      var owner :| Owners(ps, owner, |gs|) && Shared(gs, ps, owner, Closing);
      assert Shared(gs, ps, owner, Drying);
    }
  }

  lemma OwnersOf(gs: seq<Gen>, ps: seq<Request>, m: Mode) returns (owner: seq<nat>)
    requires Can(Any(gs), ps, m)
    ensures Owners(ps, owner, |gs|) && forall i | 0 <= i < |gs| :: CanWrap(gs[i], Part(ps, owner, i), m)
  {
    hide Can, CanWrap, Part;
    AnyCan(gs, ps, m);
    owner :| Owners(ps, owner, |gs|) && Shared(gs, ps, owner, m);
  }

  lemma WrappedPrefix(s: Emits)
    ensures Requests(s.Wrapped().ops) <= Requests(s.ops)
  {
  }

  /** A `Mix` interleaves its children too, each contributing a trace of its own. */
  lemma MixInterleaves(n: nat, clock: int, idx: int, gs: seq<Gen>, acts: seq<Action>, s: System)
    returns (owner: seq<nat>)
    requires Fit(Mix(idx, gs), Threads(n)) && Reachable(n, clock, Mix(idx, gs), acts, s)
    ensures Owners(Sent(s.sched.history), owner, |gs|)
    ensures forall i | 0 <= i < |gs| :: Can(gs[i], Part(Sent(s.sched.history), owner, i), Going)
    ensures ExitFree(Mix(idx, gs), Threads(n)) ==> s.sched.running
  {
    hide Reachable, Fit, Can, ExitFree, Shared, Part;
    RunsAreTraces(n, clock, Mix(idx, gs), acts, s);
    var sent := Sent(s.sched.history);
    MixCan(idx, gs, sent, Going);
    MixCan(idx, gs, sent, Closing);
    MixCan(idx, gs, sent, Drying);
    owner :| Owners(sent, owner, |gs|) && Shared(gs, sent, owner, Going);
    SharedParts(gs, sent, owner);
  }

  lemma SharedParts(gs: seq<Gen>, ps: seq<Request>, owner: seq<nat>)
    requires Shared(gs, ps, owner, Going)
    ensures Owners(ps, owner, |gs|) && forall i | 0 <= i < |gs| :: Can(gs[i], Part(ps, owner, i), Going)
  {
    hide Can, Part;
    forall i | 0 <= i < |gs| ensures Can(gs[i], Part(ps, owner, i), Going) {
      assert CanWrap(gs[i], Part(ps, owner, i), Going);
    }
  }

  // ----- Wrappers and the last operation -----

  lemma WrappedLosesIff(s: Emits)
    requires s.closes ==> s.ops != []
    ensures Requests(s.Wrapped().ops) == Requests(s.ops) <==> !s.closes
  {
    assert s.closes ==> |Requests(s.Wrapped().ops)| == |Requests(s.ops)| - 1;
  }

  /** A finished run of a filter around a plain generator has handed out all of it if and only if the
      generator does not end with an operation that closes it; otherwise all but that one. */
  lemma FilterLosesIff(n: nat, clock: int, c: Gen, f: int -> bool, acts: seq<Action>, s: System)
    requires Fit(OnThreads(c, f), Threads(n)) && Plain(c) && Reachable(n, clock, OnThreads(c, f), acts, s)
    requires !s.sched.running
    ensures Sent(s.sched.history) == Requests(Stream(c).ops) <==> !Stream(c).closes
    ensures Stream(c).closes ==> Sent(s.sched.history) == Requests(Stream(c).ops[..|Stream(c).ops| - 1])
  {
    hide Reachable, Fit;
    HandsOutTheStream(n, clock, OnThreads(c, f), acts, s);
    WrappedLosesIff(Stream(c));
  }

  /** The same for a stagger. */
  lemma StaggerLosesIff(n: nat, clock: int, dt: int, next: int, c: Gen, acts: seq<Action>, s: System)
    requires Fit(Stagger(dt, next, c), Threads(n)) && Plain(c) && Reachable(n, clock, Stagger(dt, next, c), acts, s)
    requires !s.sched.running
    ensures Sent(s.sched.history) == Requests(Stream(c).ops) <==> !Stream(c).closes
    ensures Stream(c).closes ==> Sent(s.sched.history) == Requests(Stream(c).ops[..|Stream(c).ops| - 1])
  {
    hide Reachable, Fit;
    HandsOutTheStream(n, clock, Stagger(dt, next, c), acts, s);
    WrappedLosesIff(Stream(c));
  }

  /** The same for each plain child of an `Any`, whatever the others are. */
  lemma AnyLosesIff(n: nat, clock: int, gs: seq<Gen>, acts: seq<Action>, s: System) returns (owner: seq<nat>)
    requires Fit(Any(gs), Threads(n)) && Reachable(n, clock, Any(gs), acts, s)
    requires !s.sched.running && ExitFree(Any(gs), Threads(n))
    ensures Owners(Sent(s.sched.history), owner, |gs|)
    ensures forall i | 0 <= i < |gs| && Plain(gs[i]) ::
              Part(Sent(s.sched.history), owner, i) == Requests(Stream(gs[i]).ops) <==> !Stream(gs[i]).closes
  {
    hide Reachable, Fit, Plain, Stream, ExitFree, Part, CanWrap;
    var m;
    owner, m := AnyInterleaves(n, clock, gs, acts, s);
    forall i | 0 <= i < |gs| && Plain(gs[i])
      ensures Part(Sent(s.sched.history), owner, i) == Requests(Stream(gs[i]).ops) <==> !Stream(gs[i]).closes
    {
      WrappedLosesIff(Stream(gs[i]));
    }
  }

  /** A time limit never hands out the operation that closes the generator inside, at no moment of no run. */
  lemma LimitLosesLast(n: nat, clock: int, limit: int, cutoff: int, c: Gen, acts: seq<Action>, s: System)
    requires Fit(TimeLimit(limit, cutoff, c), Threads(n)) && Reachable(n, clock, TimeLimit(limit, cutoff, c), acts, s)
    requires Plain(c) && Stream(c).closes
    ensures Sent(s.sched.history) < Requests(Stream(c).ops)
  {
    hide Reachable, Fit, Plain, Stream;
    LimitCutsAPrefix(n, clock, limit, cutoff, c, acts, s);
    PlainTraces(c, Sent(s.sched.history), Going);
  }

  /** Nor does a mix, of any of its children. */
  lemma MixLosesLast(n: nat, clock: int, idx: int, gs: seq<Gen>, acts: seq<Action>, s: System) returns (owner: seq<nat>)
    requires Fit(Mix(idx, gs), Threads(n)) && Reachable(n, clock, Mix(idx, gs), acts, s)
    ensures Owners(Sent(s.sched.history), owner, |gs|)
    ensures forall i | 0 <= i < |gs| && Plain(gs[i]) && Stream(gs[i]).closes ::
              Part(Sent(s.sched.history), owner, i) < Requests(Stream(gs[i]).ops)
  {
    hide Reachable, Fit, Plain, Stream, Part, Can;
    owner := MixInterleaves(n, clock, idx, gs, acts, s);
    forall i | 0 <= i < |gs| && Plain(gs[i]) && Stream(gs[i]).closes
      ensures Part(Sent(s.sched.history), owner, i) < Requests(Stream(gs[i]).ops)
    {
      PlainTraces(gs[i], Part(Sent(s.sched.history), owner, i), Going);
    }
  }

  /** For example, a finished run of a list of operations restricted to some threads has handed out all
      but the last. */
  lemma FilterDropsLast(n: nat, clock: int, os: seq<Operation>, f: int -> bool, acts: seq<Action>, s: System)
    requires |os| > 0 && forall i | 0 <= i < |os| :: os[i].Dispatchable()
    requires Fit(OnThreads(ListGen(Ops(os)), f), Threads(n))
    requires Reachable(n, clock, OnThreads(ListGen(Ops(os)), f), acts, s) && !s.sched.running
    ensures Sent(s.sched.history) == Requests(os[..|os| - 1])
  {
    hide Reachable, Fit;
    ListOfOperations(os);
    FilterLosesIff(n, clock, ListGen(Ops(os)), f, acts, s);
  }
}
