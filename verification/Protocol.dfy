/** The scheduler, the workers, their queues and the clock as one transition system
    (src/jepsen/Runner.cpp: runCases, with src/jepsen/Worker.cpp: runAsync).

    Each action is one step of one party; a run is any interleaving of enabled actions. */
module Protocol {
  import opened Operations
  import opened Contexts
  import opened Generators
  import opened Leaves
  import opened Histories
  import opened Workers
  import opened Scheduling

  datatype System = System(
    n: nat,                              // the number of client threads
    clock: int,
    sched: Sched,
    inq: map<Thread, seq<Operation>>,    // the in-queue of each worker
    hand: map<Thread, seq<Operation>>,   // the operation a worker is busy with, if any
    completions: seq<Operation>,         // the shared queue of completions
    clients: map<Thread, WorkerState>,   // the client objects of each client worker
    stopped: set<Thread>)                // workers that have left their loop

  datatype Action =
    | Tick(now: int)                            // the clock advances
    | Deliver(i: nat)                           // the scheduler takes a completion, in any order
    | Poll(ch: Oracle)                          // the scheduler finds none and asks the generator
    | Take(thread: Thread)                      // a worker takes an operation and calls its client
    | Reply(thread: Thread, result: Operation)  // the client returns and the worker queues the result
    | Stop(thread: Thread)                      // a worker takes the exit operation

  // ----- The invariant -----

  /** The thread runs the process, is busy, and has nothing queued or in hand. */
  ghost predicate Home(t: Thread, process: int, free: set<Thread>, workers: map<Thread, int>,
                       inq: map<Thread, seq<Operation>>, hand: map<Thread, seq<Operation>>)
    requires inq.Keys == workers.Keys && hand.Keys == workers.Keys
  {
    t in workers && workers[t] == process && t !in free && inq[t] == [] && hand[t] == []
  }

  ghost predicate HasHome(process: int, free: set<Thread>, workers: map<Thread, int>,
                          inq: map<Thread, seq<Operation>>, hand: map<Thread, seq<Operation>>)
    requires inq.Keys == workers.Keys && hand.Keys == workers.Keys
  {
    exists t :: Home(t, process, free, workers, inq, hand)
  }

  ghost predicate Waiting(completions: seq<Operation>, process: int) {
    exists i :: 0 <= i < |completions| && completions[i].process == process
  }

  /** The thread's own queue and hands: at most one operation, with its process, and only if it is
      busy; and if it is busy the operation is here or among the completions. */
  ghost predicate Post(t: Thread, free: set<Thread>, workers: map<Thread, int>, inq: map<Thread, seq<Operation>>,
                       hand: map<Thread, seq<Operation>>, completions: seq<Operation>)
    requires inq.Keys == workers.Keys && hand.Keys == workers.Keys && t in workers
  {
    && |inq[t]| + |hand[t]| <= 1
    && (|inq[t]| > 0 ==> t !in free && inq[t][0].process == workers[t] && !inq[t][0].kind.Exit?)
    && (|hand[t]| > 0 ==> t !in free && hand[t][0].process == workers[t])
    && (t !in free ==> |inq[t]| > 0 || |hand[t]| > 0 || Waiting(completions, workers[t]))
  }

  /** The completions belong to distinct busy threads that have nothing else. */
  ghost predicate Homed(free: set<Thread>, workers: map<Thread, int>, inq: map<Thread, seq<Operation>>,
                        hand: map<Thread, seq<Operation>>, completions: seq<Operation>)
    requires inq.Keys == workers.Keys && hand.Keys == workers.Keys
  {
    && (forall i | 0 <= i < |completions| :: HasHome(completions[i].process, free, workers, inq, hand))
    && (forall i, j | 0 <= i < j < |completions| :: completions[i].process != completions[j].process)
  }

  /** Every busy thread has exactly one operation, with its own process, in exactly one place: its
      in-queue, its worker's hands or the completions.  Free threads have none. */
  ghost predicate Located(free: set<Thread>, workers: map<Thread, int>, inq: map<Thread, seq<Operation>>,
                          hand: map<Thread, seq<Operation>>, completions: seq<Operation>)
    requires inq.Keys == workers.Keys && hand.Keys == workers.Keys
  {
    && (forall t | t in workers :: Post(t, free, workers, inq, hand, completions))
    && Homed(free, workers, inq, hand, completions)
  }

  /** The history alternates; the open processes are those of the busy threads; processes only go up,
      and a crashed one has been left behind. */
  ghost predicate Recorded(n: nat, free: set<Thread>, workers: map<Thread, int>, h: seq<Entry>) {
    && Alternates(h) && NoReuse(h)
    && (forall p: int :: Open(h, p) == if exists t :: t in workers && t !in free && workers[t] == p then 1 else 0)
    && (forall i, t | 0 <= i < |h| && t in workers && ThreadOf(n, h[i].op.process) == t ::
          h[i].op.process <= workers[t] && (Crash(h[i]) ==> h[i].op.process < workers[t]))
  }

  /** The clients of one worker: in order, all closed if it has stopped, not ahead of its process. */
  ghost predicate Tended(w: WorkerState, process: int, stopped: bool) {
    && (!stopped ==> Alive(w))
    && (stopped ==> Counted(w) && Dedicated(w) && w.client.None?)
    && w.process <= process
  }

  ghost predicate Attended(n: nat, workers: map<Thread, int>, clients: map<Thread, WorkerState>, stopped: set<Thread>) {
    && clients.Keys == ClientThreads(n) && workers.Keys == Threads(n)
    && forall t | t in clients :: Tended(clients[t], workers[t], t in stopped)
  }

  ghost predicate Shape(s: System) {
    var c := s.sched;
    && Allocated(s.n, c.workers)
    && s.inq.Keys == c.workers.Keys && s.hand.Keys == c.workers.Keys
    && c.free <= c.workers.Keys
    && c.outstanding == |c.workers.Keys - c.free|
    && Ready(c.gen) && Disciplined(c.gen, c.workers.Keys)
    && c.time <= s.clock
  }

  /** After the exit branch: nothing is outstanding, and each worker has only the exit operation to take. */
  ghost predicate Drained(s: System)
    requires Shape(s)
  {
    && s.sched.outstanding == 0 && s.completions == []
    && s.stopped <= s.sched.workers.Keys
    && forall t | t in s.sched.workers :: s.hand[t] == [] && s.inq[t] == if t in s.stopped then [] else [EXIT]
  }

  ghost predicate Inv(s: System) {
    && Shape(s)
    && Recorded(s.n, s.sched.free, s.sched.workers, s.sched.history)
    && Attended(s.n, s.sched.workers, s.clients, s.stopped)
    && (s.sched.running ==> s.stopped == {} && Located(s.sched.free, s.sched.workers, s.inq, s.hand, s.completions))
    && (!s.sched.running ==> Drained(s))
  }

  // ----- Actions -----

  predicate Enabled(s: System, a: Action)
    requires Inv(s)
  {
    match a
    case Tick(now) => now >= s.clock
    case Deliver(i) => s.sched.running && i < |s.completions|
    case Poll(_) => s.sched.running
    case Take(t) => t in s.inq && t !in s.stopped && s.hand[t] == [] && |s.inq[t]| > 0 && !s.inq[t][0].kind.Exit?
    case Reply(t, result) => t in s.hand && |s.hand[t]| > 0 && result.process == s.hand[t][0].process
    case Stop(t) => t in s.inq && t !in s.stopped && s.hand[t] == [] && |s.inq[t]| > 0 && s.inq[t][0].kind.Exit?
  }

  /** The state before the loop: workers made and started, all threads free. */
  function Initial(n: nat, clock: int, g: Gen): System {
    var workers := map t | t in Threads(n) :: t as int;
    var none := map t | t in Threads(n) :: [];
    System(n, clock,
           Sched(clock, Threads(n), workers, 0, 0, [], Validate(g), true),
           none, none, [], map t | t in ClientThreads(n) :: NEW_WORKER, {})
  }

  lemma EmptyRecorded(n: nat, workers: map<Thread, int>)
    ensures Recorded(n, workers.Keys, workers, [])
  {
    var h: seq<Entry> := [];
    forall k: nat, p: int | k <= |h| ensures 0 <= Open(h[..k], p) <= 1 {
      assert h[..k] == [];
    }
  }

  lemma ValidateDisciplined(g: Gen, scope: set<Thread>)
    requires Disciplined(g, scope)
    ensures Disciplined(Validate(g), scope)
  {
  }

  lemma InitialLocated(n: nat, workers: map<Thread, int>, none: map<Thread, seq<Operation>>)
    requires workers.Keys == none.Keys == Threads(n) && forall t | t in none :: none[t] == []
    ensures Located(Threads(n), workers, none, none, [])
  {
    forall t | t in workers ensures Post(t, Threads(n), workers, none, none, []) {
    }
  }

  lemma InitialAttended(n: nat, workers: map<Thread, int>, clients: map<Thread, WorkerState>)
    requires workers.Keys == Threads(n) && clients.Keys == ClientThreads(n)
    requires forall t | t in clients :: clients[t] == NEW_WORKER && workers[t] == t
    ensures Attended(n, workers, clients, {})
  {
    NewWorkerAlive();
  }

  lemma InitialInv(n: nat, clock: int, g: Gen)
    requires Ready(g) && Disciplined(g, Threads(n))
    ensures Inv(Initial(n, clock, g))
  {
    hide HasLeaf, Disciplined, WellFormed, Recorded, Located, Attended;
    var s := Initial(n, clock, g);
    InitialAllocation(n);
    assert s.sched.workers == map t | t in Threads(n) :: t;
    assert s.sched.workers.Keys == Threads(n);
    assert s.sched.workers.Keys - s.sched.free == {};
    ValidateDisciplined(g, Threads(n));
    ValidateReady(g);
    EmptyRecorded(n, s.sched.workers);
    InitialLocated(n, s.sched.workers, s.inq);
    InitialAttended(n, s.sched.workers, s.clients);
  }

  lemma ValidateReady(g: Gen)
    requires Ready(g)
    ensures Ready(Validate(g))
  {
  }

  // ----- Steps of the workers keep the invariant -----

  function Taken(s: System, t: Thread): System
    requires t in s.inq && |s.inq[t]| > 0
    requires t in s.clients ==> (s.clients[t].process != INVALID_PROCESS ==> s.clients[t].client.Some?)
  {
    var op := s.inq[t][0];
    s.(inq := s.inq[t := s.inq[t][1..]],
       hand := s.hand[t := [op]],
       clients := if t in s.clients then s.clients[t := AfterInvoke(s.clients[t], op.process)] else s.clients)
  }

  lemma TakeLocated(free: set<Thread>, workers: map<Thread, int>, inq: map<Thread, seq<Operation>>,
                    hand: map<Thread, seq<Operation>>, completions: seq<Operation>, t: Thread)
    requires inq.Keys == workers.Keys && hand.Keys == workers.Keys
    requires Located(free, workers, inq, hand, completions) && t in workers && |inq[t]| > 0
    ensures Located(free, workers, inq[t := inq[t][1..]], hand[t := [inq[t][0]]], completions)
  {
    var inq', hand' := inq[t := inq[t][1..]], hand[t := [inq[t][0]]];
    forall u | u in workers ensures Post(u, free, workers, inq', hand', completions) {
      assert Post(u, free, workers, inq, hand, completions);
    }
    assert Post(t, free, workers, inq, hand, completions);
    HomedElsewhere(free, workers, inq, hand, inq', hand', completions, t);
  }

  /** A change at a thread that is not home to a completion does not concern the completions. */
  lemma HomedElsewhere(free: set<Thread>, workers: map<Thread, int>, inq: map<Thread, seq<Operation>>,
                       hand: map<Thread, seq<Operation>>, inq': map<Thread, seq<Operation>>,
                       hand': map<Thread, seq<Operation>>, completions: seq<Operation>, t: Thread)
    requires inq.Keys == hand.Keys == inq'.Keys == hand'.Keys == workers.Keys && t in workers
    requires forall u | u in workers && u != t :: inq'[u] == inq[u] && hand'[u] == hand[u]
    requires |inq[t]| + |hand[t]| > 0
    requires Homed(free, workers, inq, hand, completions)
    ensures Homed(free, workers, inq', hand', completions)
  {
    forall i | 0 <= i < |completions| ensures HasHome(completions[i].process, free, workers, inq', hand') {
      assert HasHome(completions[i].process, free, workers, inq, hand);
      var u :| Home(u, completions[i].process, free, workers, inq, hand);
      assert Home(u, completions[i].process, free, workers, inq', hand');
    }
  }

  lemma TakeAttended(n: nat, workers: map<Thread, int>, clients: map<Thread, WorkerState>, t: Thread)
    requires Attended(n, workers, clients, {}) && t in clients && Allocated(n, workers)
    ensures clients[t].process != INVALID_PROCESS ==> clients[t].client.Some?
    ensures Attended(n, workers, clients[t := AfterInvoke(clients[t], workers[t])], {})
  {
    hide Counted, Dedicated;
    assert Tended(clients[t], workers[t], false);
    assert workers[t] >= 0;
    InvokeAlive(clients[t], workers[t]);
    assert AfterInvoke(clients[t], workers[t]).process == workers[t];
  }

  /** An operation in an in-queue, other than the exit, is the thread's own and the scheduler runs. */
  lemma QueuedHere(s: System, t: Thread)
    requires Inv(s) && t in s.inq && |s.inq[t]| > 0 && !s.inq[t][0].kind.Exit?
    ensures s.sched.running && s.stopped == {} && t in s.sched.workers && s.inq[t][0].process == s.sched.workers[t]
  {
    hide Recorded, Disciplined, Ready, Allocated, Homed, Attended, Waiting;
    var c := s.sched;
    assert c.running;
    assert Post(t, c.free, c.workers, s.inq, s.hand, s.completions);
  }

  lemma TakeKeeps(s: System, t: Thread)
    requires Inv(s) && Enabled(s, Take(t))
    ensures t in s.inq && |s.inq[t]| > 0
    ensures t in s.clients ==> (s.clients[t].process != INVALID_PROCESS ==> s.clients[t].client.Some?)
    ensures Inv(Taken(s, t))
  {
    hide Recorded, Disciplined, Ready, Allocated, Located, Attended, AfterInvoke, Drained;
    QueuedHere(s, t);
    var c := s.sched;
    TakeLocated(c.free, c.workers, s.inq, s.hand, s.completions, t);
    if t in s.clients {
      TakeAttended(s.n, c.workers, s.clients, t);
    }
  }

  function Replied(s: System, t: Thread, result: Operation): System {
    s.(hand := s.hand[t := []], completions := s.completions + [result])
  }

  lemma ReplyLocated(free: set<Thread>, workers: map<Thread, int>, inq: map<Thread, seq<Operation>>,
                     hand: map<Thread, seq<Operation>>, completions: seq<Operation>, t: Thread, result: Operation)
    requires inq.Keys == workers.Keys && hand.Keys == workers.Keys && Injective(workers)
    requires Located(free, workers, inq, hand, completions) && t in workers && |hand[t]| > 0
    requires result.process == hand[t][0].process
    ensures Located(free, workers, inq, hand[t := []], completions + [result])
  {
    var hand', queue := hand[t := []], completions + [result];
    assert Post(t, free, workers, inq, hand, completions);
    assert Home(t, result.process, free, workers, inq, hand');
    HomedElsewhere(free, workers, inq, hand, inq, hand', completions, t);
    forall i | 0 <= i < |completions| ensures completions[i].process != result.process {
      assert HasHome(completions[i].process, free, workers, inq, hand);
      var u :| Home(u, completions[i].process, free, workers, inq, hand);
    }
    assert queue[|completions|] == result;
    assert forall i | 0 <= i < |completions| :: queue[i] == completions[i];
    forall u | u in workers ensures Post(u, free, workers, inq, hand', queue) {
      assert Post(u, free, workers, inq, hand, completions);
      WaitingNext(completions, result, workers[u]);
    }
    forall i | 0 <= i < |queue| ensures HasHome(queue[i].process, free, workers, inq, hand') {
    }
  }

  lemma WaitingNext(completions: seq<Operation>, result: Operation, process: int)
    ensures Waiting(completions + [result], process) <==> Waiting(completions, process) || result.process == process
  {
    var queue := completions + [result];
    if Waiting(completions, process) {
      var i :| 0 <= i < |completions| && completions[i].process == process;
      assert queue[i].process == process;
    }
    if result.process == process {
      assert queue[|completions|].process == process;
    }
  }

  lemma ReplyKeeps(s: System, t: Thread, result: Operation)
    requires Inv(s) && Enabled(s, Reply(t, result))
    ensures Inv(Replied(s, t, result))
  {
    hide Recorded, Disciplined, Ready, Attended, Located, Allocated, Injective;
    var c := s.sched;
    AllocatedInverts(s.n, c.workers, t);
    assert c.running;
    ReplyLocated(c.free, c.workers, s.inq, s.hand, s.completions, t, result);
  }

  function Halted(s: System, t: Thread): System
    requires t in s.inq && |s.inq[t]| > 0
  {
    s.(inq := s.inq[t := s.inq[t][1..]],
       stopped := s.stopped + {t},
       clients := if t in s.clients then s.clients[t := AfterClose(s.clients[t])] else s.clients)
  }

  lemma StopAttended(n: nat, workers: map<Thread, int>, clients: map<Thread, WorkerState>, stopped: set<Thread>,
      t: Thread)
    requires Attended(n, workers, clients, stopped) && t in workers && t !in stopped
    ensures Attended(n, workers, if t in clients then clients[t := AfterClose(clients[t])] else clients, stopped + {t})
  {
    hide Tended, AfterClose;
    var clients' := if t in clients then clients[t := AfterClose(clients[t])] else clients;
    forall u | u in clients' ensures Tended(clients'[u], workers[u], u in stopped + {t}) {
      assert Tended(clients[u], workers[u], u in stopped);
      if u == t {
        CloseTended(clients[u], workers[u]);
      }
    }
  }

  lemma CloseTended(w: WorkerState, process: int)
    requires Tended(w, process, false)
    ensures Tended(AfterClose(w), process, true)
  {
    hide Counted, Dedicated;
    CloseCounted(w);
    CloseDedicated(w);
  }

  lemma StopKeeps(s: System, t: Thread)
    requires Inv(s) && Enabled(s, Stop(t))
    ensures Inv(Halted(s, t))
  {
    hide Recorded, Disciplined, Ready, Allocated, Homed, Waiting, Attended;
    var c := s.sched;
    assert c.running ==> Post(t, c.free, c.workers, s.inq, s.hand, s.completions);
    assert !c.running;
    StopAttended(s.n, c.workers, s.clients, s.stopped, t);
  }
}
