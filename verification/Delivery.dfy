/** Over whole runs of a finite generator: what is handed out, and in how many steps. */
module Delivery {
  import opened Operations
  import opened Contexts
  import opened Generators
  import opened Evaluation
  import opened Leaves
  import opened Streams
  import opened Histories
  import opened Workers
  import opened Scheduling
  import opened Protocol
  import opened SchedulerSteps
  import opened Runs
  import opened Safety
  import opened Effects

  function Requests(ops: seq<Operation>): (ps: seq<Request>)
    ensures |ps| == |ops| && forall i | 0 <= i < |ops| :: ps[i] == ops[i].FilledIn()
  {
    seq(|ops|, i requires 0 <= i < |ops| => ops[i].FilledIn())
  }

  /** What has been handed out, followed by what the generator still holds, is all of it. */
  ghost predicate Account(all: seq<Request>, h: seq<Entry>, g: Gen) {
    Plain(g) && Sent(h) + Requests(Stream(g).ops) == all
  }

  lemma AccountSame(all: seq<Request>, h: seq<Entry>, g: Gen, g': Gen)
    requires Account(all, h, g) && Same(g', g)
    ensures Account(all, h, g') && Stream(g') == Stream(g)
  {
    SameStream(g', g);
  }

  lemma FirstRequest(sent: seq<Request>, ops: seq<Operation>)
    requires |ops| > 0
    ensures sent + Requests(ops) == (sent + [ops[0].FilledIn()]) + Requests(ops[1..])
  {
  }

  lemma AccountDispatch(all: seq<Request>, h: seq<Entry>, g: Gen, r: OpResult, g': Gen)
    requires Account(all, h, g) && Advances(g, r) && r.op.Real() && Same(g', r.next)
    ensures Account(all, h + [Dispatched(r.op)], g')
  {
    hide Stream, Plain, Same, Sent, Requests;
    SameStream(g', r.next);
    SentNext(h, Dispatched(r.op));
    FirstRequest(Sent(h), Stream(g).ops);
  }

  /** The account balances, and when the run has finished nothing is left. */
  ghost predicate Owed(all: seq<Request>, s: System) {
    && Account(all, s.sched.history, s.sched.gen)
    && (!s.sched.running ==> Stream(s.sched.gen).ops == [])
  }

  lemma OwedStep(all: seq<Request>, s: System, a: Action)
    requires Inv(s) && Enabled(s, a) && Owed(all, s)
    ensures Owed(all, Apply(s, a))
  {
    hide Inv, Op, Update, EffectOf, Apply, Plain, Stream, Fit, Same, Enabled, Answered, Advances, Sent;
    StepEffect(s, a);
    GenEffect(s, a);
    var c, c' := s.sched, Apply(s, a).sched;
    match EffectOf(s, a)
    case Quiet =>
    case Kept(ch) =>
      AccountSame(all, c.history, c.gen, c'.gen);
      AnsweredAdvances(s, ch);
    case Completion(event, ctx) =>
      AccountSame(all, c.history, c.gen, c'.gen);
      AccountCompletion(all, c.history, c'.gen, event);
    case Dispatch(ch, ctx) =>
      AnsweredAdvances(s, ch);
      AccountDispatch(all, c.history, c.gen, Answered(s, ch), c'.gen);
  }

  lemma AnsweredAdvances(s: System, ch: Oracle)
    requires Inv(s) && Plain(s.sched.gen)
    ensures Advances(s.sched.gen, Answered(s, ch))
    ensures Answered(s, ch).op.kind.Nil? || Answered(s, ch).op.kind.Exit? ==> Stream(s.sched.gen).ops == []
    ensures Answered(s, ch).op.Real() ==> |Stream(Answered(s, ch).next).ops| == |Stream(s.sched.gen).ops| - 1
    ensures Plain(Answered(s, ch).next)
  {
    hide Inv, Op, Plain, Stream;
    InvValid(s);
    OpAdvances(s.sched.gen, s.sched.Context(s.clock), ch);
  }

  lemma AccountCompletion(all: seq<Request>, h: seq<Entry>, g: Gen, event: Operation)
    requires Account(all, h, g)
    ensures Account(all, h + [Completed(event)], g)
  {
    SentNext(h, Completed(event));
  }

  lemma {:induction false} OwedRun(all: seq<Request>, s: System, acts: seq<Action>, s': System)
    requires Inv(s) && Run(s, acts, s') && Owed(all, s)
    ensures Owed(all, s')
    decreases |acts|
  {
    hide Inv, Enabled, Owed, Apply;
    if |acts| > 0 {
      OwedStep(all, s, acts[0]);
      OwedRun(all, Apply(s, acts[0]), acts[1..], s');
    }
  }

  lemma ValidateStream(g: Gen)
    requires Plain(g)
    ensures Plain(Validate(g)) && Stream(Validate(g)) == Stream(g)
  {
  }

  /** At any time what was handed out is a prefix of the generator's stream, and in a finished run
      all of it, in order, each operation once. */
  lemma HandsOutTheStream(n: nat, clock: int, g: Gen, acts: seq<Action>, s: System)
    requires Fit(g, Threads(n)) && Plain(g) && Reachable(n, clock, g, acts, s)
    ensures Sent(s.sched.history) <= Requests(Stream(g).ops)
    ensures !s.sched.running ==> Sent(s.sched.history) == Requests(Stream(g).ops)
  {
    hide Inv, Run, Plain, Stream, Fit;
    StartInv(n, clock, g);
    ValidateStream(g);
    var all := Requests(Stream(g).ops);
    assert Sent([]) + all == all;
    OwedRun(all, Initial(n, clock, g), acts, s);
    assert !s.sched.running ==> Requests(Stream(s.sched.gen).ops) == [];
  }

  /** A list of operations that leave their process open is fit for any threads. */
  lemma OperationsFit(os: seq<Operation>, scope: set<Thread>)
    requires |os| > 0 && forall i | 0 <= i < |os| :: os[i].process == INVALID_PROCESS
    ensures Fit(ListGen(Ops(os)), scope)
  {
    var g := ListGen(Ops(os));
    forall o, sc, ls | HasLeaf(g, scope, o, sc, ls) ensures o.process == INVALID_PROCESS {
      var i :| 0 <= i < |os| && HasLeaf(g.gens[i], scope, o, sc, ls);
      assert g.gens[i] == OpGen(os[i]);
    }
    assert forall i | 0 <= i < |os| :: WellFormed(Ops(os)[i]);
    ListIntro(Ops(os));
  }

  /** Exactly once and in order: a finished run of a list of operations hands out exactly those,
      however often the generator was asked in vain, and every one of them has come back. */
  lemma ExactlyOnce(n: nat, clock: int, os: seq<Operation>, acts: seq<Action>, s: System)
    requires |os| > 0 && forall i | 0 <= i < |os| :: os[i].Dispatchable() && os[i].process == INVALID_PROCESS
    requires Fit(ListGen(Ops(os)), Threads(n)) && Reachable(n, clock, ListGen(Ops(os)), acts, s) && !s.sched.running
    ensures Sent(s.sched.history) == Requests(os)
    ensures Alternates(s.sched.history) && forall p: int :: Open(s.sched.history, p) == 0
  {
    hide Reachable, Fit, Alternates;
    ListOfOperations(os);
    HandsOutTheStream(n, clock, ListGen(Ops(os)), acts, s);
    WellFormedHistory(n, clock, ListGen(Ops(os)), acts, s);
  }

  // ----- Counting steps -----

  /** The total length of the queues of the threads. */
  ghost function SumLen(m: map<Thread, seq<Operation>>, ts: set<Thread>): nat
    requires ts <= m.Keys
    decreases |ts|
  {
    if ts == {} then 0
    else
      var t := Least(ts);
      |m[t]| + SumLen(m, ts - {t})
  }

  lemma {:induction false} SumSame(m: map<Thread, seq<Operation>>, m': map<Thread, seq<Operation>>, ts: set<Thread>)
    requires ts <= m.Keys && ts <= m'.Keys && forall t | t in ts :: |m[t]| == |m'[t]|
    ensures SumLen(m, ts) == SumLen(m', ts)
    decreases |ts|
  {
    if ts != {} {
      SumSame(m, m', ts - {Least(ts)});
    }
  }

  lemma {:induction false} SumUpdate(m: map<Thread, seq<Operation>>, ts: set<Thread>, t: Thread, q: seq<Operation>)
    requires ts <= m.Keys && t in ts
    ensures SumLen(m[t := q], ts) == SumLen(m, ts) - |m[t]| + |q|
    decreases |ts|
  {
    var u := Least(ts);
    if u == t {
      SumSame(m, m[t := q], ts - {t});
    } else {
      SumUpdate(m, ts - {u}, t, q);
    }
  }

  lemma {:induction false} SumZero(m: map<Thread, seq<Operation>>, ts: set<Thread>)
    requires ts <= m.Keys && forall t | t in ts :: m[t] == []
    ensures SumLen(m, ts) == 0
    decreases |ts|
  {
    if ts != {} {
      SumZero(m, ts - {Least(ts)});
    }
  }

  /** The steps still to be made with what has been handed out: three for an operation in an in-queue,
      two for one in a worker's hands and one for a completion. */
  ghost function Load(s: System): nat {
    3 * SumLen(s.inq, s.inq.Keys) + 2 * SumLen(s.hand, s.hand.Keys) + |s.completions|
  }

  /** All steps still to be made: four for each operation not yet handed out, and the load. */
  ghost function Work(s: System): nat {
    if !s.sched.running then 0 else 4 * |Stream(s.sched.gen).ops| + Load(s)
  }

  /** Steps that move an operation along; the others are the clock, asking in vain and shutting down. */
  ghost predicate Productive(s: System, a: Action)
    requires Inv(s) && Enabled(s, a)
  {
    a.Deliver? || a.Take? || a.Reply? || (a.Poll? && EffectOf(s, a).Dispatch?)
  }

  lemma LoadTake(s: System, t: Thread)
    requires Inv(s) && Enabled(s, Take(t)) && s.sched.running
    ensures Load(TakeStep(s, t)) == Load(s) - 1
  {
    hide Inv, AfterInvoke;
    KeysOf(s);
    SumUpdate(s.inq, s.inq.Keys, t, s.inq[t][1..]);
    SumUpdate(s.hand, s.hand.Keys, t, [s.inq[t][0]]);
    var s' := TakeStep(s, t);
    assert s'.inq.Keys == s.inq.Keys && s'.hand.Keys == s.hand.Keys;
    WorkOne(s, t);
  }

  lemma KeysOf(s: System)
    requires Inv(s)
    ensures s.inq.Keys == s.hand.Keys == s.sched.workers.Keys
  {
    hide Recorded, Attended, Located, Disciplined, Ready, Allocated, Drained;
  }

  lemma WorkOne(s: System, t: Thread)
    requires Inv(s) && s.sched.running && t in s.inq
    ensures t in s.hand && |s.inq[t]| + |s.hand[t]| <= 1
  {
    hide Inv;
    KeysOf(s);
    Conservation(s, t);
  }

  lemma LoadReply(s: System, t: Thread, result: Operation)
    requires Inv(s) && Enabled(s, Reply(t, result)) && s.sched.running
    ensures Load(ReplyStep(s, t, result)) == Load(s) - 1
  {
    hide Inv;
    KeysOf(s);
    SumUpdate(s.hand, s.hand.Keys, t, []);
    WorkOne(s, t);
    assert ReplyStep(s, t, result).hand.Keys == s.hand.Keys;
  }

  lemma LoadDeliver(s: System, i: nat)
    requires Inv(s) && Enabled(s, Deliver(i))
    ensures Load(DeliverStep(s, i)) == Load(s) - 1
  {
    hide Inv, Update, ProcessToThread, NextProcess;
    InvValid(s);
  }

  lemma LoadSend(s: System, ch: Oracle)
    requires Inv(s) && Enabled(s, Poll(ch)) && EffectOf(s, Poll(ch)).Dispatch?
    ensures Load(PollStep(s, ch)) == Load(s) + 3
  {
    hide Inv, Op, Update, Ready;
    InvValid(s);
    KeysOf(s);
    var t := AskedThread(s, ch);
    AskedEffect(s.sched, s.clock, ch);
    hide Asked;
    WorkOne(s, t);
    var v := Asked(s.sched, s.clock, ch);
    SumUpdate(s.inq, s.inq.Keys, t, s.inq[t] + [v.op]);
    assert PollStep(s, ch).inq.Keys == s.inq.Keys;
  }

  lemma LoadKept(s: System, ch: Oracle)
    requires Inv(s) && Enabled(s, Poll(ch)) && !EffectOf(s, Poll(ch)).Dispatch?
    ensures PollStep(s, ch).sched.running ==> Load(PollStep(s, ch)) == Load(s)
    ensures !PollStep(s, ch).sched.running ==> Load(s) == 0
  {
    hide Inv, Op, Update, Ready;
    InvValid(s);
    KeysOf(s);
    AskedEffect(s.sched, s.clock, ch);
    if Asked(s.sched, s.clock, ch).Finish? {
      NothingOutstanding(s);
      SumZero(s.inq, s.inq.Keys);
      SumZero(s.hand, s.hand.Keys);
    }
  }

  /** While the scheduler runs: a dispatch adds three to the load, moving an operation takes one off,
      and nothing else changes it; the run ends only with none. */
  lemma LoadStep(s: System, a: Action)
    requires Inv(s) && Enabled(s, a) && s.sched.running
    ensures Productive(s, a) && !EffectOf(s, a).Dispatch? ==> Load(Apply(s, a)) == Load(s) - 1
    ensures EffectOf(s, a).Dispatch? ==> Load(Apply(s, a)) == Load(s) + 3
    ensures !Productive(s, a) && Apply(s, a).sched.running ==> Load(Apply(s, a)) == Load(s)
    ensures !Apply(s, a).sched.running ==> Load(s) == 0
  {
    hide Inv, Op, Update, Enabled, Load, TakeStep, DeliverStep, PollStep, ReplyStep, StopStep, EffectOf, Effected;
    EffectKinds(s, a);
    StepRunning(s, a);
    match a
    case Tick(_) => LoadTick(s, a);
    case Deliver(i) => LoadDeliver(s, i);
    case Poll(ch) =>
      if EffectOf(s, a).Dispatch? {
        LoadSend(s, ch);
      } else {
        LoadKept(s, ch);
      }
    case Take(t) => LoadTake(s, t);
    case Reply(t, result) => LoadReply(s, t, result);
    case Stop(_) => StopFinished(s, a);
  }

  lemma LoadTick(s: System, a: Action)
    requires Inv(s) && Enabled(s, a) && a.Tick?
    ensures Load(Apply(s, a)) == Load(s) && Apply(s, a).sched == s.sched
  {
    hide Inv;
  }

  lemma RestOnceFinished(s: System, a: Action)
    requires Inv(s) && Enabled(s, a) && !s.sched.running
    ensures a.Tick? || a.Stop?
  {
    hide Recorded, Attended, Disciplined, Ready, Allocated;
  }

  lemma StopFinished(s: System, a: Action)
    requires Inv(s) && Enabled(s, a) && a.Stop?
    ensures !s.sched.running
  {
    hide Recorded, Attended, Disciplined, Ready, Allocated, Homed, Waiting;
    assert s.sched.running ==> Post(a.thread, s.sched.free, s.sched.workers, s.inq, s.hand, s.completions);
  }

  /** Each productive step does one unit of work, the others none. */
  lemma WorkStep(s: System, a: Action)
    requires Inv(s) && Enabled(s, a) && Plain(s.sched.gen)
    ensures Plain(Apply(s, a).sched.gen)
    ensures Work(Apply(s, a)) == Work(s) - if Productive(s, a) then 1 else 0
  {
    hide Inv, Stream, Plain, Op, Update, Enabled, Load, Apply, EffectOf, Effected;
    WorkStream(s, a);
    EffectKinds(s, a);
    StepRunning(s, a);
    if s.sched.running {
      LoadStep(s, a);
    }
  }

  /** The scheduler does not start again, and ends only by asking. */
  lemma StepRunning(s: System, a: Action)
    requires Inv(s) && Enabled(s, a)
    ensures !s.sched.running ==> (a.Tick? || a.Stop?) && !Apply(s, a).sched.running
    ensures s.sched.running && !Apply(s, a).sched.running ==> a.Poll? && !EffectOf(s, a).Dispatch?
  {
    hide Inv, Op, Update, Apply, EffectOf, Answered, Fit;
    StepEffect(s, a);
    EffectKinds(s, a);
    if !s.sched.running {
      RestOnceFinished(s, a);
    }
  }

  lemma WorkStream(s: System, a: Action)
    requires Inv(s) && Enabled(s, a) && Plain(s.sched.gen)
    ensures Plain(Apply(s, a).sched.gen)
    ensures EffectOf(s, a).Dispatch? ==> |Stream(Apply(s, a).sched.gen).ops| == |Stream(s.sched.gen).ops| - 1
    ensures !EffectOf(s, a).Dispatch? ==> Stream(Apply(s, a).sched.gen) == Stream(s.sched.gen)
    ensures a.Poll? && !EffectOf(s, a).Dispatch? && !Apply(s, a).sched.running ==> Stream(s.sched.gen).ops == []
  {
    hide Inv, Op, Update, EffectOf, Apply, Plain, Stream, Fit, Same, Enabled, Answered, Advances, Sent;
    StepEffect(s, a);
    GenEffect(s, a);
    EffectKinds(s, a);
    var gen := Apply(s, a).sched.gen;
    match EffectOf(s, a)
    case Quiet => SameStream(gen, s.sched.gen);
    case Kept(ch) =>
      SameStream(gen, s.sched.gen);
      AnsweredAdvances(s, ch);
    case Completion(_, _) => SameStream(gen, s.sched.gen);
    case Dispatch(ch, _) =>
      AnsweredAdvances(s, ch);
      SameStream(gen, Answered(s, ch).next);
  }

  /** The number of productive steps in a run. */
  ghost function Effort(s: System, acts: seq<Action>): nat
    requires Inv(s)
    decreases |acts|
  {
    if |acts| == 0 || !Enabled(s, acts[0]) then 0
    else (if Productive(s, acts[0]) then 1 else 0) + Effort(Apply(s, acts[0]), acts[1..])
  }

  ghost function TotalEffort(n: nat, clock: int, g: Gen, acts: seq<Action>): nat
    requires Fit(g, Threads(n))
  {
    StartInv(n, clock, g);
    Effort(Initial(n, clock, g), acts)
  }

  lemma {:induction false} EffortRun(s: System, acts: seq<Action>, s': System)
    requires Inv(s) && Run(s, acts, s') && Plain(s.sched.gen)
    ensures Effort(s, acts) == Work(s) - Work(s')
    decreases |acts|
  {
    hide Inv, Enabled, Apply, Work, Productive, Plain;
    if |acts| > 0 {
      WorkStep(s, acts[0]);
      EffortRun(Apply(s, acts[0]), acts[1..], s');
    }
  }

  /** Draining: no run of a finite generator makes more than four productive steps for each operation
      of its stream, and a finished run makes exactly that many. */
  lemma FourStepsEach(n: nat, clock: int, g: Gen, acts: seq<Action>, s: System)
    requires Fit(g, Threads(n)) && Plain(g) && Reachable(n, clock, g, acts, s)
    ensures TotalEffort(n, clock, g, acts) <= 4 * |Stream(g).ops|
    ensures !s.sched.running ==> TotalEffort(n, clock, g, acts) == 4 * |Stream(g).ops|
  {
    hide Inv, Run, Plain, Stream, Fit, Effort;
    StartInv(n, clock, g);
    ValidateStream(g);
    var s0 := Initial(n, clock, g);
    EffortRun(s0, acts, s);
    SumZero(s0.inq, s0.inq.Keys);
    SumZero(s0.hand, s0.hand.Keys);
  }
}
