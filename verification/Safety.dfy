/** What holds in every state of every run, read off the invariant. */
module Safety {
  import opened Operations
  import opened Contexts
  import opened Generators
  import opened Evaluation
  import opened Leaves
  import opened Histories
  import opened Workers
  import opened Scheduling
  import opened Protocol
  import opened SchedulerSteps
  import opened Runs

  lemma StartInv(n: nat, clock: int, g: Gen)
    requires Fit(g, Threads(n))
    ensures Inv(Initial(n, clock, g))
  {
    hide Inv;
    InitialInv(n, clock, g);
  }

  /** Reached from the start with `n` clients and generator `g` by some interleaving. */
  ghost predicate Reachable(n: nat, clock: int, g: Gen, acts: seq<Action>, s: System)
    requires Fit(g, Threads(n))
  {
    StartInv(n, clock, g);
    Run(Initial(n, clock, g), acts, s)
  }

  lemma ReachableInv(n: nat, clock: int, g: Gen, acts: seq<Action>, s: System)
    requires Fit(g, Threads(n)) && Reachable(n, clock, g, acts, s)
    ensures Inv(s) && s.n == n
  {
    hide Inv, Fit, Run;
    StartInv(n, clock, g);
    RunInv(Initial(n, clock, g), acts, s);
  }

  // ----- Conservation -----

  /** The number of operations of the process in the queue. */
  function Count(q: seq<Operation>, process: int): nat {
    if |q| == 0 then 0 else (if q[0].process == process then 1 else 0) + Count(q[1..], process)
  }

  lemma {:induction false} CountNone(q: seq<Operation>, process: int)
    requires forall i | 0 <= i < |q| :: q[i].process != process
    ensures Count(q, process) == 0
  {
    if |q| > 0 {
      CountNone(q[1..], process);
    }
  }

  lemma {:induction false} CountOne(q: seq<Operation>, i: nat)
    requires i < |q| && forall j, k | 0 <= j < k < |q| :: q[j].process != q[k].process
    ensures Count(q, q[i].process) == 1
  {
    if i == 0 {
      CountNone(q[1..], q[0].process);
    } else {
      CountOne(q[1..], i - 1);
    }
  }

  /** Distinct processes held by the threads of a set are no more than the set. */
  lemma {:induction false} DistinctBound(q: seq<Operation>, ts: set<Thread>, workers: map<Thread, int>)
    requires ts <= workers.Keys
    requires forall i | 0 <= i < |q| :: Held(q[i].process, ts, workers)
    requires forall i, j | 0 <= i < j < |q| :: q[i].process != q[j].process
    ensures |q| <= |ts|
    decreases |q|
  {
    if |q| > 0 {
      assert Held(q[0].process, ts, workers);
      var t :| t in ts && workers[t] == q[0].process;
      forall i | 0 <= i < |q[1..]| ensures Held(q[1..][i].process, ts - {t}, workers) {
        assert Held(q[i + 1].process, ts, workers);
        var u :| u in ts && workers[u] == q[i + 1].process;
        assert u in ts - {t};
      }
      DistinctBound(q[1..], ts - {t}, workers);
    }
  }

  ghost predicate Held(process: int, ts: set<Thread>, workers: map<Thread, int>)
    requires ts <= workers.Keys
  {
    exists t :: t in ts && workers[t] == process
  }

  /** The parts of the invariant that concern a running scheduler. */
  lemma RunningParts(s: System)
    requires Inv(s) && s.sched.running
    ensures s.inq.Keys == s.hand.Keys == s.sched.workers.Keys == Threads(s.n) && s.sched.free <= s.sched.workers.Keys
    ensures s.sched.outstanding == |s.sched.workers.Keys - s.sched.free|
    ensures Injective(s.sched.workers) && s.stopped == {}
    ensures Located(s.sched.free, s.sched.workers, s.inq, s.hand, s.completions)
  {
    hide Attended, Recorded, Disciplined, Ready, Located, Drained;
    AllocatedInverts(s.n, s.sched.workers, NEMESIS);
  }

  lemma LocatedOnce(free: set<Thread>, workers: map<Thread, int>, inq: map<Thread, seq<Operation>>,
                    hand: map<Thread, seq<Operation>>, completions: seq<Operation>, t: Thread)
    requires inq.Keys == workers.Keys && hand.Keys == workers.Keys && Injective(workers) && t in workers
    requires Located(free, workers, inq, hand, completions)
    ensures |inq[t]| + |hand[t]| + Count(completions, workers[t]) == if t in free then 0 else 1
    ensures forall o | o in inq[t] + hand[t] :: o.process == workers[t]
  {
    assert Post(t, free, workers, inq, hand, completions);
    var p := workers[t];
    if Waiting(completions, p) {
      var i :| 0 <= i < |completions| && completions[i].process == p;
      CountOne(completions, i);
      assert HasHome(completions[i].process, free, workers, inq, hand);
      var u :| Home(u, p, free, workers, inq, hand);
      assert u == t;
    } else {
      CountNone(completions, p);
    }
  }

  /** While the scheduler runs, each thread has one operation in the in-queue, the hands and the
      completions together if it is busy and none if it is free. */
  lemma Conservation(s: System, t: Thread)
    requires Inv(s) && s.sched.running && t in s.sched.workers
    ensures t in s.inq && t in s.hand
    ensures |s.inq[t]| + |s.hand[t]| + Count(s.completions, s.sched.workers[t]) == if t in s.sched.free then 0 else 1
    ensures forall o | o in s.inq[t] + s.hand[t] :: o.process == s.sched.workers[t]
  {
    hide Inv, Located;
    RunningParts(s);
    LocatedOnce(s.sched.free, s.sched.workers, s.inq, s.hand, s.completions, t);
  }

  /** The counter is the number of busy threads, and it bounds the completions queue: the capacity
      of `n + 1` is never exceeded. */
  lemma QueueBounds(s: System)
    requires Inv(s) && s.sched.running
    ensures s.sched.outstanding == |Threads(s.n) - s.sched.free| <= s.n + 1
    ensures |s.completions| <= s.sched.outstanding
  {
    hide Inv;
    RunningParts(s);
    var c := s.sched;
    var busy := c.workers.Keys - c.free;
    SubsetSize(busy, Threads(s.n));
    forall i | 0 <= i < |s.completions| ensures Held(s.completions[i].process, busy, c.workers) {
      assert HasHome(s.completions[i].process, c.free, c.workers, s.inq, s.hand);
      var t :| Home(t, s.completions[i].process, c.free, c.workers, s.inq, s.hand);
      assert t in busy;
    }
    DistinctBound(s.completions, busy, c.workers);
  }

  /** Conservation over every interleaving: at every moment of every run the counter is the number of
      busy threads, each busy thread has one operation in one place and each free one none, no in-queue
      holds more than one and the completions fit their queue. */
  lemma OneOperationEach(n: nat, clock: int, g: Gen, acts: seq<Action>, s: System)
    requires Fit(g, Threads(n)) && Reachable(n, clock, g, acts, s) && s.sched.running
    ensures s.inq.Keys == s.hand.Keys == s.sched.workers.Keys == Threads(n)
    ensures s.sched.outstanding == |Threads(n) - s.sched.free|
    ensures |s.completions| <= s.sched.outstanding <= n + 1
    ensures forall t | t in s.sched.workers ::
              && |s.inq[t]| + |s.hand[t]| + Count(s.completions, s.sched.workers[t]) ==
                  (if t in s.sched.free then 0 else 1)
              && forall o | o in s.inq[t] + s.hand[t] :: o.process == s.sched.workers[t]
  {
    hide Reachable, Inv, Fit, Located, Injective, Count;
    ReachableInv(n, clock, g, acts, s);
    RunningParts(s);
    QueueBounds(s);
    forall t | t in s.sched.workers
      ensures |s.inq[t]| + |s.hand[t]| + Count(s.completions, s.sched.workers[t]) ==
              (if t in s.sched.free then 0 else 1)
      ensures forall o | o in s.inq[t] + s.hand[t] :: o.process == s.sched.workers[t]
    {
      Conservation(s, t);
    }
  }

  lemma {:induction false} SubsetSize(a: set<Thread>, b: set<Thread>)
    requires a <= b
    ensures |a| <= |b|
    decreases |a|
  {
    if a != {} {
      var t :| t in a;
      SubsetSize(a - {t}, b - {t});
    }
  }

  // ----- History -----

  /** In every prefix of every run the history alternates and no crashed process is used again; when
      the exit branch has fired no operation is open, none is queued and none is in a worker's hands. */
  lemma WellFormedHistory(n: nat, clock: int, g: Gen, acts: seq<Action>, s: System)
    requires Fit(g, Threads(n)) && Reachable(n, clock, g, acts, s)
    ensures Alternates(s.sched.history) && NoReuse(s.sched.history)
    ensures !s.sched.running ==> forall p: int :: Open(s.sched.history, p) == 0
    ensures !s.sched.running ==> s.completions == [] && s.sched.outstanding == 0
    ensures !s.sched.running ==> forall t | t in s.hand :: s.hand[t] == []
    ensures !s.sched.running ==> forall t, o | t in s.inq && o in s.inq[t] :: o == EXIT
  {
    hide Reachable, Inv, Fit, OpenAre, Alternates, NoReuse;
    ReachableInv(n, clock, g, acts, s);
    InvHistory(s);
    if !s.sched.running {
      FinishedClean(s);
    }
  }

  lemma InvHistory(s: System)
    requires Inv(s)
    ensures Alternates(s.sched.history) && NoReuse(s.sched.history)
    ensures OpenAre(s.sched.history, s.sched.free, s.sched.workers)
  {
    hide Attended, Located, Disciplined, Ready, Drained, Alternates, NoReuse, Shape;
    RecordedParts(s.n, s.sched.free, s.sched.workers, s.sched.history);
  }

  lemma FinishedClean(s: System)
    requires Inv(s) && !s.sched.running
    ensures forall p: int :: Open(s.sched.history, p) == 0
    ensures s.completions == [] && s.sched.outstanding == 0
    ensures forall t | t in s.hand :: s.hand[t] == []
    ensures forall t, o | t in s.inq && o in s.inq[t] :: o == EXIT
  {
    hide Recorded, Attended, Located, Disciplined, Ready, Alternates, NoReuse, Allocated;
    InvHistory(s);
    var c := s.sched;
    assert c.workers.Keys - c.free == {};
    assert forall t | t in c.workers :: t in c.free;
    assert forall p: int :: !Busy(p, c.free, c.workers);
    assert forall p: int :: Open(c.history, p) == 0;
  }

  /** In a finished run every dispatch has exactly one completion, the next entry of its process. */
  lemma EveryDispatchCompletes(n: nat, clock: int, g: Gen, acts: seq<Action>, s: System, i: nat) returns (j: nat)
    requires Fit(g, Threads(n)) && Reachable(n, clock, g, acts, s) && !s.sched.running
    requires i < |s.sched.history| && s.sched.history[i].Dispatched?
    ensures NextOf(s.sched.history, i, j) && s.sched.history[j].Completed?
  {
    hide Reachable, Fit, Alternates, NoReuse;
    WellFormedHistory(n, clock, g, acts, s);
    j := CompletionOf(s.sched.history, i);
  }

  /** At every moment of every run a completion is preceded by its own dispatch, with no other entry of
      its process between. */
  lemma EveryCompletionWasDispatched(n: nat, clock: int, g: Gen, acts: seq<Action>, s: System, j: nat) returns (i: nat)
    requires Fit(g, Threads(n)) && Reachable(n, clock, g, acts, s)
    requires j < |s.sched.history| && s.sched.history[j].Completed?
    ensures NextOf(s.sched.history, i, j) && s.sched.history[i].Dispatched?
  {
    hide Reachable, Fit, Alternates, NoReuse;
    WellFormedHistory(n, clock, g, acts, s);
    i := DispatchOf(s.sched.history, j);
  }

  // ----- Processes -----

  /** In every reachable state a client thread holds `t + k * n` and the nemesis its own number, so
      that looking a process up inverts the allocation. */
  lemma ProcessAllocation(n: nat, clock: int, g: Gen, acts: seq<Action>, s: System, t: Thread)
    requires Fit(g, Threads(n)) && Reachable(n, clock, g, acts, s) && t in s.sched.workers
    ensures t == NEMESIS ==> s.sched.workers[t] == NEMESIS
    ensures t != NEMESIS ==> 0 <= t < n && exists k: nat :: s.sched.workers[t] == t + k * n
    ensures Injective(s.sched.workers) && ProcessToThread(s.sched.workers, s.sched.workers[t]) == t
  {
    hide Reachable, Attended, Recorded, Disciplined, Ready, Located, Drained, Fit;
    ReachableInv(n, clock, g, acts, s);
    AllocatedInverts(n, s.sched.workers, t);
    if t != NEMESIS {
      var k := AllocatedMultiples(n, s.sched.workers, t);
    }
  }

  // ----- Clients -----

  /** Over whole runs a client object serves one process and a process one client object, every call
      goes to an open client, and a worker that has stopped has closed each of its clients once. */
  lemma DedicatedClients(n: nat, clock: int, g: Gen, acts: seq<Action>, s: System, t: Thread)
    requires Fit(g, Threads(n)) && Reachable(n, clock, g, acts, s) && 0 <= t < n
    ensures t in s.clients
    ensures forall i, j | 0 <= i < |s.clients[t].log| && 0 <= j < |s.clients[t].log|
                          && s.clients[t].log[i].Invoked? && s.clients[t].log[j].Invoked? ::
              s.clients[t].log[i].id == s.clients[t].log[j].id <==>
                  s.clients[t].log[i].process == s.clients[t].log[j].process
    ensures forall i | 0 <= i < |s.clients[t].log| && s.clients[t].log[i].Invoked? ::
              Opened(s.clients[t].log[i].id) in s.clients[t].log[..i] &&
                  Closed(s.clients[t].log[i].id) !in s.clients[t].log[..i]
    ensures t in s.stopped ==> forall id: nat | id < s.clients[t].created ::
              multiset(s.clients[t].log)[Opened(id)] == multiset(s.clients[t].log)[Closed(id)] == 1
  {
    hide Reachable, Inv, Fit;
    ReachableInv(n, clock, g, acts, s);
    TendedAt(s, t);
    var w := s.clients[t];
    forall i | 0 <= i < |w.log| && w.log[i].Invoked?
      ensures Opened(w.log[i].id) in w.log[..i] && Closed(w.log[i].id) !in w.log[..i]
    {
      assert CallAt(w, w.log, i);
    }
  }

  lemma TendedAt(s: System, t: Thread)
    requires Inv(s) && 0 <= t < s.n
    ensures t in s.clients && Counted(s.clients[t]) && Dedicated(s.clients[t])
    ensures t in s.stopped ==> s.clients[t].client.None?
  {
    hide Recorded, Disciplined, Ready, Located, Drained, Counted, Dedicated;
    assert Tended(s.clients[t], s.sched.workers[t], t in s.stopped);
  }

  /** After a crash the next operation on the thread goes to a client that never served the crashed process. */
  lemma FreshClientAfterCrash(s: System, t: Thread, i: nat)
    requires Inv(s) && Enabled(s, Take(t)) && t in s.clients
    requires i < |s.sched.history| && Crash(s.sched.history[i]) && ThreadOf(s.n, s.sched.history[i].op.process) == t
    ensures var log := TakeStep(s, t).clients[t].log;
            && |log| > 0 && log[|log| - 1].Invoked?
            && log[|log| - 1].process == s.sched.workers[t] > s.sched.history[i].op.process
            && forall k | 0 <= k < |log| && log[k].Invoked? && log[k].process == s.sched.history[i].op.process ::
                 log[k].id != log[|log| - 1].id
  {
    var c := s.sched;
    TakenFrom(s, t);
    hide TakeStep;
    assert c.workers[t] > c.history[i].op.process by {
      hide Attended, Located, Disciplined, Ready, Drained, Alternates, NoReuse, Allocated;
    }
    hide Inv;
    assert Dedicated(TakeStep(s, t).clients[t]);
  }

  lemma TakenFrom(s: System, t: Thread)
    requires Inv(s) && Enabled(s, Take(t)) && t in s.clients
    ensures s.sched.running && t in s.sched.workers && t in TakeStep(s, t).clients
    ensures Dedicated(TakeStep(s, t).clients[t])
    ensures var log := TakeStep(s, t).clients[t].log;
            && |log| > 0 && log[|log| - 1].Invoked? && log[|log| - 1].process == s.sched.workers[t]
  {
    hide Recorded, Disciplined, Ready, Alternates, NoReuse, Homed, Waiting, Counted, Dedicated;
    var s', c := TakeStep(s, t), s.sched;
    assert c.running;
    assert Post(t, c.free, c.workers, s.inq, s.hand, s.completions);
    assert Tended(s'.clients[t], c.workers[t], false);
  }

  // ----- No deadlock -----

  /** Some thread of the system other than the scheduler's asking can move. */
  ghost predicate Busywork(s: System, a: Action)
    requires Inv(s)
  {
    (a.Deliver? || a.Take? || a.Reply?) && Enabled(s, a)
  }

  /** A busy thread, and where its operation is. */
  lemma BusyPlace(s: System) returns (t: Thread)
    requires Inv(s) && s.sched.running && s.sched.outstanding > 0
    ensures t in s.inq && t in s.hand && t in s.sched.workers && s.stopped == {}
    ensures |s.hand[t]| > 0 || |s.inq[t]| > 0 || Waiting(s.completions, s.sched.workers[t])
    ensures |s.inq[t]| > 0 ==> !s.inq[t][0].kind.Exit?
  {
    hide Inv, Homed, Injective, Waiting;
    RunningParts(s);
    var c := s.sched;
    t :| t in c.workers.Keys - c.free;
    assert Post(t, c.free, c.workers, s.inq, s.hand, s.completions);
  }

  /** An outstanding operation can always move on. */
  lemma OutstandingMoves(s: System) returns (a: Action)
    requires Inv(s) && s.sched.running && s.sched.outstanding > 0
    ensures Busywork(s, a)
  {
    hide Inv;
    var t := BusyPlace(s);
    if |s.hand[t]| > 0 {
      a := Reply(t, s.hand[t][0]);
    } else if |s.inq[t]| > 0 {
      a := Take(t);
    } else {
      var i :| 0 <= i < |s.completions| && s.completions[i].process == s.sched.workers[t];
      a := Deliver(i);
    }
  }

  /** The scheduler never waits in vain: unless it hands out an operation, finishes, or waits for the
      time of an operation to come, some operation is outstanding and can move on. */
  lemma NoDeadlock(s: System, ch: Oracle) returns (a: Action)
    requires Inv(s) && s.sched.running && s.sched.Valid() && Schedulable(s.sched.gen, s.sched.workers.Keys)
    requires Asked(s.sched, s.clock, ch).Wait?
    requires Op(s.sched.gen, s.sched.Context(s.clock), ch).op.Real() ==>
               Op(s.sched.gen, s.sched.Context(s.clock), ch).op.time <= s.clock
    ensures Busywork(s, a)
  {
    hide Op, Inv, Located, Ready, Schedulable;
    RunningParts(s);
    assert Shape(s) by {
      InvParts(s);
    }
    hide Shape;
    SchedValid(s);
    var c := s.sched;
    if Op(c.gen, c.Context(s.clock), ch).op.kind.Pending? {
      PendingMeansBusy(c.gen, c.Context(s.clock), ch);
    }
    assert c.outstanding > 0;
    a := OutstandingMoves(s);
  }
}
