/** The steps of the scheduler keep the invariant of the system. */
module SchedulerSteps {
  import opened Operations
  import opened Contexts
  import opened Generators
  import opened Evaluation
  import opened Leaves
  import opened Histories
  import opened Workers
  import opened Scheduling
  import opened Protocol

  // ----- The generator stays well-formed and disciplined -----

  /** Well-formed, and disciplined for the threads. */
  ghost predicate Fit(g: Gen, scope: set<Thread>) {
    Ready(g) && Disciplined(g, scope)
  }

  lemma SameFit(a: Gen, b: Gen, scope: set<Thread>)
    requires Same(a, b) && Fit(b, scope)
    ensures Fit(a, scope)
  {
    SameKeeps(a, b);
    SameWithin(a, b);
    WithinKeeps(a, b, scope);
  }

  lemma UpdateFit(g: Gen, ctx: Context, event: Operation, scope: set<Thread>)
    requires Fit(g, scope)
    ensures Fit(Update(g, ctx, event), scope)
  {
    UpdateSame(g, ctx, event);
    SameFit(Update(g, ctx, event), g, scope);
  }

  lemma OpFit(g: Gen, ctx: Context, ch: Oracle, scope: set<Thread>)
    requires Fit(g, scope) && ctx.Valid()
    ensures Fit(Op(g, ctx, ch).next, scope) && Fit(Op(g, ctx, ch).after, scope)
  {
    hide Op;
    var r := Op(g, ctx, ch);
    NextWithin(g, ctx, ch);
    WithinKeeps(r.next, g, scope);
    SameFit(r.after, g, scope);
  }

  /** The invariant makes the scheduler's preconditions hold. */
  lemma SchedValid(s: System)
    requires Shape(s)
    ensures s.sched.Valid() && Injective(s.sched.workers) && Fit(s.sched.gen, s.sched.workers.Keys)
    ensures forall now :: s.sched.Context(now).Valid()
  {
    forall t | t in s.sched.workers ensures s.sched.workers[t] != INVALID_PROCESS {
      AllocatedInverts(s.n, s.sched.workers, t);
    }
    AllocatedInverts(s.n, s.sched.workers, NEMESIS);
  }

  // ----- A completion is delivered -----

  function RemoveAt(q: seq<Operation>, i: nat): seq<Operation>
    requires i < |q|
  {
    q[..i] + q[i + 1..]
  }

  ghost function Delivered(s: System, i: nat): System
    requires i < |s.completions| && s.sched.Valid()
    requires ProcessToThread(s.sched.workers, s.completions[i].process) in s.sched.workers
  {
    s.(sched := Received(s.sched, s.completions[i], s.clock), completions := RemoveAt(s.completions, i))
  }

  /** Only the thread `t` may have moved to another process, and only upwards. */
  ghost predicate Moved(workers: map<Thread, int>, workers': map<Thread, int>, t: Thread) {
    && workers'.Keys == workers.Keys && t in workers
    && workers'[t] >= workers[t]
    && forall u | u in workers && u != t :: workers'[u] == workers[u]
  }

  lemma RemainingWait(q: seq<Operation>, i: nat, process: int)
    requires i < |q| && q[i].process != process && Waiting(q, process)
    ensures Waiting(RemoveAt(q, i), process)
  {
    var j :| 0 <= j < |q| && q[j].process == process;
    var k := if j < i then j else j - 1;
    assert RemoveAt(q, i)[k] == q[j];
  }

  lemma DeliverPost(free: set<Thread>, workers: map<Thread, int>, workers': map<Thread, int>,
                    inq: map<Thread, seq<Operation>>, hand: map<Thread, seq<Operation>>,
                    completions: seq<Operation>, i: nat, t: Thread, u: Thread)
    requires inq.Keys == workers.Keys && hand.Keys == workers.Keys && Injective(workers)
    requires i < |completions| && u in workers && Post(u, free, workers, inq, hand, completions)
    requires Home(t, completions[i].process, free, workers, inq, hand) && Moved(workers, workers', t)
    ensures Post(u, free + {t}, workers', inq, hand, RemoveAt(completions, i))
  {
    if u != t && u !in free && Waiting(completions, workers[u]) {
      RemainingWait(completions, i, workers[u]);
    }
  }

  lemma DeliverHomed(free: set<Thread>, workers: map<Thread, int>, workers': map<Thread, int>,
                     inq: map<Thread, seq<Operation>>, hand: map<Thread, seq<Operation>>,
                     completions: seq<Operation>, i: nat, t: Thread)
    requires inq.Keys == workers.Keys && hand.Keys == workers.Keys
    requires Homed(free, workers, inq, hand, completions) && i < |completions|
    requires Home(t, completions[i].process, free, workers, inq, hand) && Moved(workers, workers', t)
    ensures Homed(free + {t}, workers', inq, hand, RemoveAt(completions, i))
  {
    var rest := RemoveAt(completions, i);
    forall k | 0 <= k < |rest| ensures HasHome(rest[k].process, free + {t}, workers', inq, hand) {
      var j := if k < i then k else k + 1;
      assert rest[k] == completions[j] && completions[j].process != completions[i].process;
      assert HasHome(completions[j].process, free, workers, inq, hand);
      var u :| Home(u, completions[j].process, free, workers, inq, hand);
      assert Home(u, rest[k].process, free + {t}, workers', inq, hand);
    }
    forall k, l | 0 <= k < l < |rest| ensures rest[k].process != rest[l].process {
      assert rest[k] == completions[if k < i then k else k + 1] && rest[l] == completions[if l < i then l else l + 1];
    }
  }

  lemma DeliverLocated(free: set<Thread>, workers: map<Thread, int>, workers': map<Thread, int>,
                       inq: map<Thread, seq<Operation>>, hand: map<Thread, seq<Operation>>,
                       completions: seq<Operation>, i: nat, t: Thread)
    requires inq.Keys == workers.Keys && hand.Keys == workers.Keys && Injective(workers)
    requires Located(free, workers, inq, hand, completions) && i < |completions|
    requires Home(t, completions[i].process, free, workers, inq, hand) && Moved(workers, workers', t)
    ensures Located(free + {t}, workers', inq, hand, RemoveAt(completions, i))
  {
    hide Post, Homed, Home, RemoveAt, Injective;
    forall u | u in workers' ensures Post(u, free + {t}, workers', inq, hand, RemoveAt(completions, i)) {
      DeliverPost(free, workers, workers', inq, hand, completions, i, t, u);
    }
    DeliverHomed(free, workers, workers', inq, hand, completions, i, t);
  }

  /** The open processes after a thread has become free, or busy. */
  ghost predicate OpenAre(h: seq<Entry>, free: set<Thread>, workers: map<Thread, int>) {
    forall p: int :: Open(h, p) == if Busy(p, free, workers) then 1 else 0
  }

  ghost predicate Busy(p: int, free: set<Thread>, workers: map<Thread, int>) {
    exists t :: t in workers && t !in free && workers[t] == p
  }

  lemma DeliverOpen(h: seq<Entry>, free: set<Thread>, workers: map<Thread, int>, workers': map<Thread, int>,
      t: Thread, e: Entry)
    requires OpenAre(h, free, workers) && Injective(workers) && Moved(workers, workers', t) && t !in free
    requires e.Completed? && e.op.process == workers[t]
    ensures OpenAre(h + [e], free + {t}, workers') && Open(h, workers[t]) == 1
  {
    assert Busy(workers[t], free, workers);
    forall p: int ensures Open(h + [e], p) == if Busy(p, free + {t}, workers') then 1 else 0 {
      OpenNext(h, e, p);
      assert Busy(p, free + {t}, workers') <==> Busy(p, free, workers) && p != workers[t] by {
        if Busy(p, free, workers) && p != workers[t] {
          var u :| u in workers && u !in free && workers[u] == p;
          assert u in workers' && u !in free + {t} && workers'[u] == p;
        }
        if Busy(p, free + {t}, workers') {
          var u :| u in workers' && u !in free + {t} && workers'[u] == p;
          assert u in workers && u !in free && workers[u] == p;
        }
      }
    }
  }

  ghost predicate Levels(n: nat, workers: map<Thread, int>, h: seq<Entry>) {
    forall i, t | 0 <= i < |h| && t in workers && ThreadOf(n, h[i].op.process) == t ::
      h[i].op.process <= workers[t] && (Crash(h[i]) ==> h[i].op.process < workers[t])
  }

  lemma RecordedParts(n: nat, free: set<Thread>, workers: map<Thread, int>, h: seq<Entry>)
    ensures Recorded(n, free, workers, h) <==>
            Alternates(h) && NoReuse(h) && OpenAre(h, free, workers) && Levels(n, workers, h)
  {
    hide Alternates, NoReuse;
    assert forall p: int :: Busy(p, free, workers) <==> exists t :: t in workers && t !in free && workers[t] == p;
  }

  lemma DeliverRecorded(n: nat, free: set<Thread>, workers: map<Thread, int>, workers': map<Thread, int>,
                        h: seq<Entry>, t: Thread, e: Entry)
    requires Recorded(n, free, workers, h) && Injective(workers) && Moved(workers, workers', t) && t !in free
    requires e.Completed? && e.op.process == workers[t] && ThreadOf(n, workers[t]) == t
    requires Crash(e) ==> workers[t] < workers'[t]
    ensures Recorded(n, free + {t}, workers', h + [e])
  {
    RecordedParts(n, free, workers, h);
    RecordedParts(n, free + {t}, workers', h + [e]);
    hide Recorded;
    DeliverOpen(h, free, workers, workers', t, e);
    AlternatesNext(h, e);
    assert forall i | 0 <= i < |h| :: (h + [e])[i] == h[i];
    assert NoReuse(h + [e]);
    assert Levels(n, workers', h + [e]);
  }

  lemma DeliverAttended(n: nat, workers: map<Thread, int>, workers': map<Thread, int>, clients: map<Thread,
      WorkerState>,
                        stopped: set<Thread>, t: Thread)
    requires Attended(n, workers, clients, stopped) && Moved(workers, workers', t)
    ensures Attended(n, workers', clients, stopped)
  {
    hide Alive, Counted, Dedicated;
    forall u | u in clients ensures Tended(clients[u], workers'[u], u in stopped) {
      assert Tended(clients[u], workers[u], u in stopped);
    }
  }

  lemma OneLessBusy(keys: set<Thread>, free: set<Thread>, t: Thread)
    requires t in keys && t !in free
    ensures |keys - (free + {t})| == |keys - free| - 1
  {
    assert keys - (free + {t}) == (keys - free) - {t};
  }

  /** The thread whose operation a completion carries. */
  lemma CompletionHome(s: System, i: nat) returns (t: Thread)
    requires Inv(s) && Enabled(s, Deliver(i))
    ensures Home(t, s.completions[i].process, s.sched.free, s.sched.workers, s.inq, s.hand)
    ensures ProcessToThread(s.sched.workers, s.completions[i].process) == t
    ensures ThreadOf(s.n, s.completions[i].process) == t
  {
    var c := s.sched;
    assert HasHome(s.completions[i].process, c.free, c.workers, s.inq, s.hand);
    t :| Home(t, s.completions[i].process, c.free, c.workers, s.inq, s.hand);
    AllocatedInverts(s.n, c.workers, t);
  }

  lemma ReceivedMoves(n: nat, c: Sched, op: Operation, now: int, t: Thread)
    requires c.Valid() && Allocated(n, c.workers) && t in c.workers
    requires op.process == c.workers[t] && ProcessToThread(c.workers, op.process) == t
    ensures Moved(c.workers, Received(c, op, now).workers, t) && Allocated(n, Received(c, op, now).workers)
    ensures Crash(Completed(op.(time := now))) ==> c.workers[t] < Received(c, op, now).workers[t]
  {
    if op.process != NEMESIS && op.kind.Info? {
      NextProcessKeepsAllocation(n, c.workers, t);
    }
  }

  lemma DeliverKeeps(s: System, i: nat)
    requires Inv(s) && Enabled(s, Deliver(i))
    ensures s.sched.Valid() && ProcessToThread(s.sched.workers, s.completions[i].process) in s.sched.workers
    ensures Inv(Delivered(s, i))
  {
    hide Recorded, Attended, Located, Disciplined, Ready, Allocated, Alternates, ProcessToThread, NextProcess, Update;
    SchedValid(s);
    var t := CompletionHome(s, i);
    var c, op := s.sched, s.completions[i];
    var c' := Received(c, op, s.clock);
    ReceivedMoves(s.n, c, op, s.clock, t);
    DeliverLocated(c.free, c.workers, c'.workers, s.inq, s.hand, s.completions, i, t);
    DeliverRecorded(s.n, c.free, c.workers, c'.workers, c.history, t, Completed(op.(time := s.clock)));
    DeliverAttended(s.n, c.workers, c'.workers, s.clients, s.stopped, t);
    OneLessBusy(c.workers.Keys, c.free, t);
    UpdateFit(c.gen, Context(s.clock, c.free + {t}, c.workers), op.(time := s.clock), c.workers.Keys);
  }

  // ----- The generator is asked -----

  ghost function Polled(s: System, ch: Oracle): System
    requires s.sched.Valid()
  {
    var v := Asked(s.sched, s.clock, ch);
    s.(sched := v.sched, inq := Posted(s.inq, v))
  }

  /** An operation is handed out to a free thread, which holds its process. */
  lemma AskedThread(s: System, ch: Oracle) returns (t: Thread)
    requires Inv(s) && s.sched.running && s.sched.Valid() && Asked(s.sched, s.clock, ch).Send?
    ensures Asked(s.sched, s.clock, ch).thread == t && t in s.sched.free
    ensures Asked(s.sched, s.clock, ch).op.process == s.sched.workers[t]
    ensures ThreadOf(s.n, s.sched.workers[t]) == t
    ensures Asked(s.sched, s.clock, ch).op == Op(s.sched.gen, s.sched.Context(s.clock), ch).op
    ensures Asked(s.sched, s.clock, ch).op.Dispatchable() && Asked(s.sched, s.clock, ch).op.time <= s.clock
  {
    hide Op;
    var c := s.sched;
    SchedValid(s);
    var o, sc, ls;
    t, o, sc, ls := Sound(c.gen, c.Context(s.clock), ch);
    AllocatedInverts(s.n, c.workers, t);
  }

  lemma SendPost(free: set<Thread>, workers: map<Thread, int>, inq: map<Thread, seq<Operation>>,
                 hand: map<Thread, seq<Operation>>, completions: seq<Operation>, t: Thread, op: Operation, u: Thread)
    requires inq.Keys == workers.Keys && hand.Keys == workers.Keys && u in workers && t in workers && t in free
    requires Post(u, free, workers, inq, hand, completions) && Post(t, free, workers, inq, hand, completions)
    requires op.process == workers[t] && op.Dispatchable()
    ensures Post(u, free - {t}, workers, inq[t := inq[t] + [op]], hand, completions)
  {
  }

  lemma SendHomed(free: set<Thread>, workers: map<Thread, int>, inq: map<Thread, seq<Operation>>,
                  hand: map<Thread, seq<Operation>>, completions: seq<Operation>, t: Thread, op: Operation)
    requires inq.Keys == workers.Keys && hand.Keys == workers.Keys && t in workers && t in free
    requires Homed(free, workers, inq, hand, completions)
    ensures Homed(free - {t}, workers, inq[t := inq[t] + [op]], hand, completions)
  {
    var inq' := inq[t := inq[t] + [op]];
    forall i | 0 <= i < |completions| ensures HasHome(completions[i].process, free - {t}, workers, inq', hand) {
      assert HasHome(completions[i].process, free, workers, inq, hand);
      var u :| Home(u, completions[i].process, free, workers, inq, hand);
      assert Home(u, completions[i].process, free - {t}, workers, inq', hand);
    }
  }

  lemma SendLocated(free: set<Thread>, workers: map<Thread, int>, inq: map<Thread, seq<Operation>>,
                    hand: map<Thread, seq<Operation>>, completions: seq<Operation>, t: Thread, op: Operation)
    requires inq.Keys == workers.Keys && hand.Keys == workers.Keys && t in workers && t in free
    requires Located(free, workers, inq, hand, completions) && op.process == workers[t] && op.Dispatchable()
    ensures Located(free - {t}, workers, inq[t := inq[t] + [op]], hand, completions)
  {
    hide Post, Homed;
    forall u | u in workers ensures Post(u, free - {t}, workers, inq[t := inq[t] + [op]], hand, completions) {
      SendPost(free, workers, inq, hand, completions, t, op, u);
    }
    SendHomed(free, workers, inq, hand, completions, t, op);
  }

  lemma SendOpen(h: seq<Entry>, free: set<Thread>, workers: map<Thread, int>, t: Thread, e: Entry)
    requires OpenAre(h, free, workers) && Injective(workers) && t in workers && t in free
    requires e.Dispatched? && e.op.process == workers[t]
    ensures OpenAre(h + [e], free - {t}, workers) && Open(h, workers[t]) == 0
  {
    assert !Busy(workers[t], free, workers);
    forall p: int ensures Open(h + [e], p) == if Busy(p, free - {t}, workers) then 1 else 0 {
      OpenNext(h, e, p);
      assert Busy(p, free - {t}, workers) <==> Busy(p, free, workers) || p == workers[t] by {
        if Busy(p, free, workers) {
          var u :| u in workers && u !in free && workers[u] == p;
          assert u in workers && u !in free - {t} && workers[u] == p;
        }
        if p == workers[t] {
          assert t in workers && t !in free - {t} && workers[t] == p;
        }
      }
    }
  }

  lemma SendRecorded(n: nat, free: set<Thread>, workers: map<Thread, int>, h: seq<Entry>, t: Thread, e: Entry)
    requires Recorded(n, free, workers, h) && Injective(workers) && t in workers && t in free
    requires e.Dispatched? && e.op.process == workers[t] && ThreadOf(n, workers[t]) == t
    ensures Recorded(n, free - {t}, workers, h + [e])
  {
    RecordedParts(n, free, workers, h);
    RecordedParts(n, free - {t}, workers, h + [e]);
    hide Recorded;
    SendOpen(h, free, workers, t, e);
    AlternatesNext(h, e);
    assert forall i | 0 <= i < |h| :: (h + [e])[i] == h[i];
    assert Levels(n, workers, h + [e]);
    assert NoReuse(h + [e]) by {
      assert forall i | 0 <= i < |h| && h[i].op.process == workers[t] :: ThreadOf(n, h[i].op.process) == t;
    }
  }

  lemma OneMoreBusy(keys: set<Thread>, free: set<Thread>, t: Thread)
    requires t in keys && t in free
    ensures |keys - (free - {t})| == |keys - free| + 1
  {
    assert keys - (free - {t}) == (keys - free) + {t};
  }

  /** What handing out an operation does to the scheduler. */
  lemma SendSched(s: System, ch: Oracle, t: Thread)
    requires Inv(s) && s.sched.running && s.sched.Valid() && Asked(s.sched, s.clock, ch).Send?
    requires Asked(s.sched, s.clock, ch).thread == t && t in s.sched.free
    ensures var c, v := s.sched, Asked(s.sched, s.clock, ch);
            && v.sched == Sched(v.op.time, c.free - {t}, c.workers, c.outstanding + 1, 0,
                                c.history + [Dispatched(v.op)], v.sched.gen, true)
            && Fit(v.sched.gen, c.workers.Keys)
  {
    hide Recorded, Attended, Located, Disciplined, Ready, Allocated, ProcessToThread, Op, Update;
    SchedValid(s);
    var c := s.sched;
    var v := Asked(c, s.clock, ch);
    OpFit(c.gen, c.Context(s.clock), ch, c.workers.Keys);
    UpdateFit(Op(c.gen, c.Context(s.clock), ch).next, Context(v.op.time, c.free - {t}, c.workers), v.op,
        c.workers.Keys);
  }

  lemma SentInv(s: System, c': Sched, t: Thread, op: Operation)
    requires Inv(s) && s.sched.running && t in s.sched.free && t in s.inq
    requires op.process == s.sched.workers[t] && ThreadOf(s.n, s.sched.workers[t]) == t
    requires op.Dispatchable() && op.time <= s.clock && Fit(c'.gen, s.sched.workers.Keys)
    requires c' == Sched(op.time, s.sched.free - {t}, s.sched.workers, s.sched.outstanding + 1, 0,
                         s.sched.history + [Dispatched(op)], c'.gen, true)
    ensures Inv(s.(sched := c', inq := s.inq[t := s.inq[t] + [op]]))
  {
    hide Recorded, Attended, Located, Disciplined, Ready, Allocated, Drained;
    SchedValid(s);
    var c := s.sched;
    SendLocated(c.free, c.workers, s.inq, s.hand, s.completions, t, op);
    SendRecorded(s.n, c.free, c.workers, c.history, t, Dispatched(op));
    OneMoreBusy(c.workers.Keys, c.free, t);
  }

  lemma SendKeeps(s: System, ch: Oracle)
    requires Inv(s) && s.sched.running && s.sched.Valid() && Asked(s.sched, s.clock, ch).Send?
    ensures Inv(Polled(s, ch))
  {
    var t := AskedThread(s, ch);
    SendSched(s, ch, t);
    var v := Asked(s.sched, s.clock, ch);
    assert t in s.inq;
    hide Inv, Asked, Fit;
    SentInv(s, v.sched, t, v.op);
  }

  /** Only the generator, the time and the timeout have changed. */
  lemma WaitInv(s: System, c': Sched)
    requires Inv(s) && s.sched.running && Fit(c'.gen, s.sched.workers.Keys)
    requires c' == s.sched.(time := s.clock, gen := c'.gen, pollTimeout := c'.pollTimeout)
    ensures Inv(s.(sched := c'))
  {
    hide Recorded, Attended, Located, Disciplined, Ready, Allocated, Drained;
  }

  lemma AfterFit(s: System, ch: Oracle)
    requires Inv(s) && s.sched.Valid()
    ensures Fit(Op(s.sched.gen, s.sched.Context(s.clock), ch).after, s.sched.workers.Keys)
  {
    SchedValid(s);
    OpFit(s.sched.gen, s.sched.Context(s.clock), ch, s.sched.workers.Keys);
  }

  lemma WaitKeeps(s: System, ch: Oracle)
    requires Inv(s) && s.sched.running && s.sched.Valid() && Asked(s.sched, s.clock, ch).Wait?
    ensures Inv(Polled(s, ch))
  {
    hide Inv, Fit, Op, Update, ProcessToThread;
    AfterFit(s, ch);
    WaitInv(s, Asked(s.sched, s.clock, ch).sched);
  }

  /** When nothing is outstanding all threads are free, and queues, hands and completions are empty. */
  lemma NothingOutstanding(s: System)
    requires Inv(s) && s.sched.running && s.sched.outstanding <= 0
    ensures s.sched.outstanding == 0 && s.sched.free == s.sched.workers.Keys && s.completions == []
    ensures forall t | t in s.sched.workers :: s.inq[t] == [] && s.hand[t] == []
  {
    var c := s.sched;
    assert c.workers.Keys - c.free == {};
    assert forall t | t in c.workers :: t in c.free;
    forall t | t in c.workers ensures s.inq[t] == [] && s.hand[t] == [] {
      assert Post(t, c.free, c.workers, s.inq, s.hand, s.completions);
    }
    assert |s.completions| > 0 ==> HasHome(s.completions[0].process, c.free, c.workers, s.inq, s.hand);
  }

  lemma FinishKeeps(s: System, ch: Oracle)
    requires Inv(s) && s.sched.running && s.sched.Valid() && Asked(s.sched, s.clock, ch).Finish?
    ensures Inv(Polled(s, ch))
  {
    hide Recorded, Attended, Located, Disciplined, Ready, Allocated, ProcessToThread, Op, Update;
    AfterFit(s, ch);
    NothingOutstanding(s);
    var s' := Polled(s, ch);
    assert s'.inq.Keys == s.inq.Keys && forall t | t in s'.inq :: s'.inq[t] == [EXIT];
    assert s' == s.(sched := s'.sched, inq := s'.inq);
  }

  lemma PollKeeps(s: System, ch: Oracle)
    requires Inv(s) && Enabled(s, Poll(ch))
    ensures s.sched.Valid() && Inv(Polled(s, ch))
  {
    hide Inv;
    assert Shape(s) && s.sched.running by {
      InvParts(s);
    }
    SchedValid(s);
    match Asked(s.sched, s.clock, ch)
    case Wait(_) => WaitKeeps(s, ch);
    case Send(_, _, _) => SendKeeps(s, ch);
    case Finish(_) => FinishKeeps(s, ch);
  }

  lemma InvParts(s: System)
    requires Inv(s)
    ensures Shape(s)
  {
  }
}
