/** The worker side: one client object per process, served from a queue
    (src/jepsen/Worker.h, src/jepsen/Worker.cpp). */
module Workers {
  import opened Operations

  datatype Option<T> = None | Some(value: T)

  /** What happens to the client objects of one worker; `id` numbers them in order of creation. */
  datatype ClientEvent = Opened(id: nat) | Invoked(id: nat, process: int) | Closed(id: nat)

  /** The fields of a client worker, with the number of clients it has opened and their history. */
  datatype WorkerState = WorkerState(process: int, client: Option<nat>, created: nat, log: seq<ClientEvent>)

  const NEW_WORKER := WorkerState(INVALID_PROCESS, None, 0, [])

  function AfterClose(w: WorkerState): WorkerState {
    if w.client.Some? then w.(client := None, log := w.log + [Closed(w.client.value)]) else w
  }

  /** A new client, opened for the process. */
  function Reopen(w: WorkerState, process: int): WorkerState {
    var c := AfterClose(w);
    WorkerState(process, Some(c.created), c.created + 1, c.log + [Opened(c.created)])
  }

  /** A change of process closes the client and opens a new one before the call. */
  function AfterInvoke(w: WorkerState, process: int): WorkerState
    requires w.process != INVALID_PROCESS ==> w.client.Some?
  {
    var v := if w.process == INVALID_PROCESS || w.process != process then Reopen(w, process) else w;
    v.(log := v.log + [Invoked(v.client.value, process)])
  }

  // ----- Client lifecycle -----

  /** Clients are opened in order, each once; each but the current one has been closed once. */
  ghost predicate Counted(w: WorkerState) {
    && (w.client.Some? ==> w.created == w.client.value + 1)
    && (forall id: nat :: multiset(w.log)[Opened(id)] == if id < w.created then 1 else 0)
    && (forall id: nat :: multiset(w.log)[Closed(id)] == if id < w.created && w.client != Some(id) then 1 else 0)
  }

  /** A call at `i` goes to a client that is open; the latest client serves the latest process. */
  ghost predicate CallAt(w: WorkerState, log: seq<ClientEvent>, i: nat)
    requires i < |log| && log[i].Invoked?
  {
    && Opened(log[i].id) in log[..i] && Closed(log[i].id) !in log[..i]
    && log[i].id < w.created && log[i].process <= w.process
    && (log[i].id == w.created - 1 <==> log[i].process == w.process)
  }

  /** Every call is such, a client serves one process only and a process one client only. */
  ghost predicate Dedicated(w: WorkerState) {
    && (forall i | 0 <= i < |w.log| && w.log[i].Invoked? :: CallAt(w, w.log, i))
    && (forall i, j | 0 <= i < |w.log| && 0 <= j < |w.log| && w.log[i].Invoked? && w.log[j].Invoked? ::
          w.log[i].id == w.log[j].id <==> w.log[i].process == w.log[j].process)
  }

  ghost predicate Alive(w: WorkerState) {
    && Counted(w) && Dedicated(w)
    && (w.process == INVALID_PROCESS ==> w.created == 0 && w.log == [])
    && (w.process != INVALID_PROCESS ==> w.client.Some?)
  }

  lemma NewWorkerAlive()
    ensures Alive(NEW_WORKER)
  {
  }

  lemma CloseCounted(w: WorkerState)
    requires Counted(w)
    ensures Counted(AfterClose(w)) && AfterClose(w).client.None?
  {
  }

  lemma CloseDedicated(w: WorkerState)
    requires Dedicated(w)
    ensures Dedicated(AfterClose(w))
  {
    var v := AfterClose(w);
    forall i | 0 <= i < |v.log| && v.log[i].Invoked?
        ensures i < |w.log| && v.log[i] == w.log[i] && CallAt(v, v.log, i) {
      assert v.log[..i] == w.log[..i];
      assert CallAt(w, w.log, i);
    }
  }

  /** At exit the current client is closed, so that every opened client has been closed exactly once. */
  lemma ClosedOnce(w: WorkerState, id: nat)
    requires Alive(w) && id < w.created
    ensures multiset(AfterClose(w).log)[Opened(id)] == multiset(AfterClose(w).log)[Closed(id)] == 1
  {
    CloseCounted(w);
  }

  lemma ReopenCounted(w: WorkerState, process: int)
    requires Counted(w)
    ensures Counted(Reopen(w, process))
  {
    CloseCounted(w);
    var c, v := AfterClose(w), Reopen(w, process);
    assert multiset(v.log) == multiset(c.log) + multiset{Opened(c.created)};
    assert multiset(c.log)[Opened(c.created)] == 0;
  }

  /** The entries of the old log stay what they were, now all for earlier clients and processes. */
  lemma ReopenDedicated(w: WorkerState, process: int)
    requires Alive(w) && (w.process == INVALID_PROCESS || process > w.process)
    ensures Dedicated(Reopen(w, process))
  {
    var v := Reopen(w, process);
    forall i | 0 <= i < |v.log| && v.log[i].Invoked?
        ensures i < |w.log| && v.log[i] == w.log[i] && CallAt(v, v.log, i) {
      assert v.log[..i] == w.log[..i];
      assert CallAt(w, w.log, i);
    }
  }

  lemma CallCounted(w: WorkerState)
    requires Counted(w) && w.client.Some?
    ensures Counted(w.(log := w.log + [Invoked(w.client.value, w.process)]))
  {
    var call := Invoked(w.client.value, w.process);
    assert multiset(w.log + [call]) == multiset(w.log) + multiset{call};
  }

  lemma CallDedicated(w: WorkerState)
    requires Counted(w) && Dedicated(w) && w.client.Some?
    ensures Dedicated(w.(log := w.log + [Invoked(w.client.value, w.process)]))
  {
    var id := w.client.value;
    assert w.created == id + 1 && Opened(id) in w.log && Closed(id) !in w.log by {
      assert multiset(w.log)[Opened(id)] == 1 && multiset(w.log)[Closed(id)] == 0;
    }
    hide Counted;
    var call := Invoked(id, w.process);
    var log := w.log + [call];
    var v := w.(log := log);
    forall i | 0 <= i < |log| && log[i].Invoked? ensures CallAt(v, log, i) {
      if i < |w.log| {
        assert log[..i] == w.log[..i];
        assert CallAt(w, w.log, i);
      } else {
        assert log[..i] == w.log;
      }
    }
    forall i | 0 <= i < |w.log| && log[i].Invoked? ensures log[i].id == id <==> log[i].process == w.process {
      assert CallAt(w, w.log, i);
    }
  }

  lemma CallAlive(w: WorkerState)
    requires Counted(w) && Dedicated(w) && w.client.Some? && w.process != INVALID_PROCESS
    ensures Alive(w.(log := w.log + [Invoked(w.client.value, w.process)]))
  {
    hide Counted, Dedicated;
    CallCounted(w);
    CallDedicated(w);
  }

  /** Serving processes that never go back keeps the lifecycle in order. */
  lemma InvokeAlive(w: WorkerState, process: int)
    requires Alive(w) && process >= w.process && process != INVALID_PROCESS
    ensures Alive(AfterInvoke(w, process))
  {
    hide Counted, Dedicated;
    if w.process == INVALID_PROCESS || w.process != process {
      ReopenCounted(w, process);
      ReopenDedicated(w, process);
      CallAlive(Reopen(w, process));
    } else {
      CallAlive(w);
    }
  }

  /** A client is opened only when all before it have been closed. */
  ghost predicate OneAtATime(w: WorkerState) {
    forall i, id: nat | 0 <= i < |w.log| && w.log[i].Opened? && id < w.log[i].id :: Closed(id) in w.log[..i]
  }

  /** No worker ever has two clients open. */
  lemma InvokeOneAtATime(w: WorkerState, process: int)
    requires Alive(w) && OneAtATime(w)
    ensures OneAtATime(AfterInvoke(w, process)) && OneAtATime(AfterClose(w))
  {
    CloseCounted(w);
    var c, v := AfterClose(w), AfterInvoke(w, process);
    hide Dedicated;
    forall i, id: nat | 0 <= i < |v.log| && v.log[i].Opened? && id < v.log[i].id ensures Closed(id) in v.log[..i] {
      if i < |w.log| {
        assert v.log[..i] == w.log[..i];
      } else {
        assert v.log[..i] == c.log && id < c.created;
        assert multiset(c.log)[Closed(id)] == 1;
      }
    }
    forall i, id: nat | 0 <= i < |c.log| && c.log[i].Opened? && id < c.log[i].id ensures Closed(id) in c.log[..i] {
      assert i < |w.log| && c.log[..i] == w.log[..i];
    }
  }

  /** The calls made, by process. */
  function Calls(log: seq<ClientEvent>): seq<int> {
    if |log| == 0 then []
    else
      var e := log[|log| - 1];
      Calls(log[..|log| - 1]) + (if e.Invoked? then [e.process] else [])
  }

  lemma CallsNext(log: seq<ClientEvent>, e: ClientEvent)
    ensures Calls(log + [e]) == Calls(log) + (if e.Invoked? then [e.process] else [])
  {
    assert (log + [e])[..|log|] == log;
  }

  /** Closing is no call. */
  lemma NoCall(w: WorkerState)
    ensures Calls(AfterClose(w).log) == Calls(w.log)
  {
    if w.client.Some? {
      CallsNext(w.log, Closed(w.client.value));
    }
  }

  /** Serving an operation is one call, for its process. */
  lemma OneCall(w: WorkerState, process: int)
    requires w.process != INVALID_PROCESS ==> w.client.Some?
    ensures Calls(AfterInvoke(w, process).log) == Calls(w.log) + [process]
  {
    NoCall(w);
    var c, r := AfterClose(w), Reopen(w, process);
    CallsNext(c.log, Opened(c.created));
    CallsNext(r.log, Invoked(c.created, process));
    if w.client.Some? {
      CallsNext(w.log, Invoked(w.client.value, process));
    }
  }

  // ----- The worker object -----

  /** The operations in front of the first exit. */
  function BeforeExit(q: seq<Operation>): (ops: seq<Operation>)
    ensures |ops| <= |q| && ops == q[..|ops|]
    ensures forall i | 0 <= i < |ops| :: !ops[i].kind.Exit?
    ensures |ops| < |q| ==> q[|ops|].kind.Exit?
  {
    if |q| == 0 || q[0].kind.Exit? then [] else [q[0]] + BeforeExit(q[1..])
  }

  /** The worker after the first `k` of the operations. */
  function Served(w: WorkerState, ops: seq<Operation>, k: nat): (v: WorkerState)
    requires k <= |ops| && (w.process != INVALID_PROCESS ==> w.client.Some?)
    ensures v.process != INVALID_PROCESS ==> v.client.Some?
  {
    if k == 0 then w else AfterInvoke(Served(w, ops, k - 1), ops[k - 1].process)
  }

  /** The operations of all turns together. */
  function Flat(arrivals: seq<seq<Operation>>): seq<Operation> {
    if |arrivals| == 0 then [] else Flat(arrivals[..|arrivals| - 1]) + arrivals[|arrivals| - 1]
  }

  /** How many operations wait after these turns, if each turn takes one when there is one. */
  function Backlog(n: nat, arrivals: seq<seq<Operation>>): nat {
    if |arrivals| == 0 then n
    else
      var b := Backlog(n, arrivals[..|arrivals| - 1]) + |arrivals[|arrivals| - 1]|;
      if b > 0 then b - 1 else 0
  }

  lemma {:induction false} FlatPrefix(arrivals: seq<seq<Operation>>, k: nat)
    requires k <= |arrivals|
    ensures Flat(arrivals[..k]) <= Flat(arrivals)
    decreases |arrivals|
  {
    if k < |arrivals| {
      var front := arrivals[..|arrivals| - 1];
      assert front[..k] == arrivals[..k];
      FlatPrefix(front, k);
    } else {
      assert arrivals[..k] == arrivals;
    }
  }

  lemma FlatNext(arrivals: seq<seq<Operation>>, k: nat, n: nat)
    requires k < |arrivals|
    ensures Flat(arrivals[..k + 1]) == Flat(arrivals[..k]) + arrivals[k]
    ensures var b := Backlog(n, arrivals[..k]) + |arrivals[k]|;
            Backlog(n, arrivals[..k + 1]) == if b > 0 then b - 1 else 0
  {
    assert arrivals[..k + 1][..k] == arrivals[..k];
  }

  /** After `m` operations of all that will have come, of which `len` have come, the worker, its queue
      and the answers are these; `flag` says whether it is still in its loop. */
  ghost predicate Serving(serve: Operation -> Operation, all: seq<Operation>, w: WorkerState, answered: seq<Operation>,
                          m: nat, len: nat, flag: bool, v: WorkerState, inq: seq<Operation>, out: seq<Operation>)
    requires w.process != INVALID_PROCESS ==> w.client.Some?
  {
    var ops := BeforeExit(all);
    && m <= |ops| && m <= len <= |all|
    && v == Served(w, ops, m)
    && |out| == |answered| + m && out[..|answered|] == answered
    && (forall i | 0 <= i < m :: out[|answered| + i] == serve(ops[i]))
    && (flag ==> inq == all[m..len])
    && (!flag ==> m == |ops| < len && inq == all[m + 1..len])
  }

  lemma ServingStart(serve: Operation -> Operation, all: seq<Operation>, w: WorkerState, q: seq<Operation>,
      answered: seq<Operation>)
    requires w.process != INVALID_PROCESS ==> w.client.Some?
    requires q <= all
    ensures Serving(serve, all, w, answered, 0, |q|, true, w, q, answered)
  {
  }

  lemma ServingArrival(serve: Operation -> Operation, all: seq<Operation>, w: WorkerState, answered: seq<Operation>,
                       m: nat, len: nat, v: WorkerState, inq: seq<Operation>, out: seq<Operation>)
    requires w.process != INVALID_PROCESS ==> w.client.Some?
    requires Serving(serve, all, w, answered, m, len, true, v, inq, out) && len < |all|
    ensures Serving(serve, all, w, answered, m, len + 1, true, v, inq + [all[len]], out)
  {
    hide Served, BeforeExit;
    assert all[m..len + 1] == all[m..len] + [all[len]];
  }

  lemma ServingStep(serve: Operation -> Operation, all: seq<Operation>, w: WorkerState, answered: seq<Operation>,
                    m: nat, len: nat, v: WorkerState, inq: seq<Operation>, out: seq<Operation>)
    requires w.process != INVALID_PROCESS ==> w.client.Some?
    requires Serving(serve, all, w, answered, m, len, true, v, inq, out) && |inq| > 0
    ensures v.process != INVALID_PROCESS ==> v.client.Some?
    ensures inq[0].kind.Exit? ==> Serving(serve, all, w, answered, m, len, false, v, inq[1..], out)
    ensures !inq[0].kind.Exit? ==>
              Serving(serve, all, w, answered, m + 1, len, true, AfterInvoke(v, inq[0].process), inq[1..],
                  out + [serve(inq[0])])
  {
    hide AfterInvoke;
    assert inq[0] == all[m] && inq[1..] == all[m + 1..len];
    assert (out + [serve(inq[0])])[..|answered|] == out[..|answered|];
  }

  class ClientWorker {
    var process: int
    var client: Option<nat>
    var created: nat
    var log: seq<ClientEvent>
    var inq: seq<Operation>
    var out: seq<Operation>

    function State(): WorkerState
      reads this
    {
      WorkerState(process, client, created, log)
    }

    ghost predicate Valid()
      reads this
    {
      process != INVALID_PROCESS ==> client.Some?
    }

    constructor ()
      ensures State() == NEW_WORKER && inq == [] && out == [] && Valid()
    {
      process, client, created, log := INVALID_PROCESS, None, 0, [];
      inq, out := [], [];
    }

    method PutOp(op: Operation)
      modifies this`inq
      ensures inq == old(inq) + [op]
    {
      inq := inq + [op];
    }

    method CloseClient()
      modifies this`client, this`log
      ensures State() == AfterClose(old(State()))
    {
      if client.Some? {
        log := log + [Closed(client.value)];
        client := None;
      }
    }

    method InvokeClient(op: Operation, serve: Operation -> Operation) returns (reply: Operation)
      requires Valid()
      modifies this`process, this`client, this`created, this`log
      ensures Valid() && State() == AfterInvoke(old(State()), op.process)
      ensures reply == serve(op)
    {
      if process == INVALID_PROCESS || process != op.process {
        CloseClient();
        client := Some(created);
        log := log + [Opened(created)];
        created := created + 1;
        process := op.process;
      }
      log := log + [Invoked(client.value, op.process)];
      reply := serve(op);
    }

    /** One turn of the loop: the next operation is taken off the queue and served. */
    method ServeNext(serve: Operation -> Operation) returns (flag: bool)
      requires Valid() && |inq| > 0
      modifies this
      ensures Valid() && inq == old(inq)[1..]
      ensures flag == !old(inq)[0].kind.Exit?
      ensures !flag ==> State() == old(State()) && out == old(out)
      ensures flag ==> State() == AfterInvoke(old(State()), old(inq)[0].process)
      ensures flag ==> out == old(out) + [serve(old(inq)[0])]
    {
      var op := inq[0];
      inq := inq[1..];
      flag := true;
      if op.kind.Exit? {
        flag := false;
      } else {
        var reply := InvokeClient(op, serve);
        out := out + [reply];
      }
    }

    method PutAll(ops: seq<Operation>)
      modifies this`inq
      ensures inq == old(inq) + ops
    {
      for i := 0 to |ops|
        invariant inq == old(inq) + ops[..i]
      {
        PutOp(ops[i]);
      }
    }

    /** The worker thread, from whatever its queue holds, while others put operations in it: before turn
        `i` those of `arrivals[i]` come in, then one is taken if there is one, else the turn is idle.  The
        operations that come before the first exit are answered one by one and in order; at the exit the
        worker closes its client and leaves what comes after.  Until then it takes one in every turn in
        which there is one. */
    method RunAsync(serve: Operation -> Operation, arrivals: seq<seq<Operation>>)
      returns (turns: nat, served: nat, stopped: bool)
      requires Valid()
      modifies this
      ensures turns <= |arrivals| && (!stopped ==> turns == |arrivals|)
      ensures var all := old(inq) + Flat(arrivals);
              var ops := BeforeExit(all);
              var len := |old(inq) + Flat(arrivals[..turns])|;
              && served <= |ops| && served <= len <= |all|
              && |out| == |old(out)| + served && out[..|old(out)|] == old(out)
              && (forall i | 0 <= i < served :: out[|old(out)| + i] == serve(ops[i]))
              && (stopped ==> served == |ops| < len && inq == all[served + 1..len])
              && (stopped ==> State() == AfterClose(Served(old(State()), ops, served)))
              && (!stopped ==> inq == all[served..len] && State() == Served(old(State()), ops, served))
              && (!stopped ==> |inq| == Backlog(|old(inq)|, arrivals))
    {
      hide AfterInvoke, BeforeExit, Serving, Served, AfterClose, Backlog, Flat;
      ghost var all, w, answered, start := inq + Flat(arrivals), State(), out, inq;
      ServingStart(serve, all, w, inq, answered);
      NothingYet(start, arrivals);
      var flag := true;
      turns, served := 0, 0;
      while flag && turns < |arrivals|
        invariant turns <= |arrivals| && Valid()
        invariant Serving(serve, all, w, answered, served, |start + Flat(arrivals[..turns])|, flag, State(), inq, out)
        invariant flag ==> |inq| == Backlog(|start|, arrivals[..turns])
        decreases |arrivals| - turns
      {
        FlatNext(arrivals, turns, |start|);
        ArrivalsServing(serve, start, arrivals, turns, w, answered, served, State(), inq, out);
        PutAll(arrivals[turns]);
        if |inq| > 0 {
          ServingStep(serve, all, w, answered, served, |start + Flat(arrivals[..turns + 1])|, State(), inq, out);
          flag := ServeNext(serve);
          if flag {
            served := served + 1;
          }
        }
        turns := turns + 1;
      }
      ServingMeans(serve, all, w, answered, served, |start + Flat(arrivals[..turns])|, flag, State(), inq, out);
      assert arrivals[..|arrivals|] == arrivals;
      stopped := !flag;
      if stopped {
        CloseClient();
      }
    }
  }

  lemma NothingYet(start: seq<Operation>, arrivals: seq<seq<Operation>>)
    ensures start + Flat(arrivals[..0]) == start && Backlog(|start|, arrivals[..0]) == |start|
  {
  }

  /** Several operations arrive, one after the other. */
  lemma {:induction false} ServingArrivals(serve: Operation -> Operation, all: seq<Operation>, w: WorkerState,
                                           answered: seq<Operation>, m: nat, len: nat, v: WorkerState,
                                           inq: seq<Operation>, out: seq<Operation>, now: seq<Operation>)
    requires w.process != INVALID_PROCESS ==> w.client.Some?
    requires Serving(serve, all, w, answered, m, len, true, v, inq, out)
    requires len + |now| <= |all| && all[len..len + |now|] == now
    ensures Serving(serve, all, w, answered, m, len + |now|, true, v, inq + now, out)
    decreases |now|
  {
    hide Serving;
    if |now| == 0 {
      assert inq + now == inq;
    } else {
      var last := |now| - 1;
      assert all[len..len + last] == now[..last];
      ServingArrivals(serve, all, w, answered, m, len, v, inq, out, now[..last]);
      ServingArrival(serve, all, w, answered, m, len + last, v, inq + now[..last], out);
      assert all[len + last] == now[last];
      assert inq + now == (inq + now[..last]) + [now[last]];
    }
  }

  /** All operations of one turn arrive. */
  lemma ArrivalsServing(serve: Operation -> Operation, start: seq<Operation>, arrivals: seq<seq<Operation>>, k: nat,
                        w: WorkerState, answered: seq<Operation>, m: nat, v: WorkerState,
                        inq: seq<Operation>, out: seq<Operation>)
    requires w.process != INVALID_PROCESS ==> w.client.Some?
    requires k < |arrivals|
    requires Serving(serve, start + Flat(arrivals), w, answered, m, |start + Flat(arrivals[..k])|, true, v, inq, out)
    ensures Serving(serve, start + Flat(arrivals), w, answered, m, |start + Flat(arrivals[..k + 1])|, true, v,
                    inq + arrivals[k], out)
  {
    hide Serving, Flat;
    var len := |start + Flat(arrivals[..k])|;
    FlatSlice(start, arrivals, k);
    ServingArrivals(serve, start + Flat(arrivals), w, answered, m, len, v, inq, out, arrivals[k]);
  }

  lemma FlatSlice(start: seq<Operation>, arrivals: seq<seq<Operation>>, k: nat)
    requires k < |arrivals|
    ensures var all, len := start + Flat(arrivals), |start + Flat(arrivals[..k])|;
            && len + |arrivals[k]| == |start + Flat(arrivals[..k + 1])| <= |all|
            && all[len..len + |arrivals[k]|] == arrivals[k]
  {
    hide Flat;
    FlatNext(arrivals, k, 0);
    FlatPrefix(arrivals, k + 1);
    var front := Flat(arrivals[..k + 1]);
    assert Flat(arrivals) == front + Flat(arrivals)[|front|..];
  }

  lemma ServingMeans(serve: Operation -> Operation, all: seq<Operation>, w: WorkerState, answered: seq<Operation>,
                     m: nat, len: nat, flag: bool, v: WorkerState, inq: seq<Operation>, out: seq<Operation>)
    requires w.process != INVALID_PROCESS ==> w.client.Some?
    requires Serving(serve, all, w, answered, m, len, flag, v, inq, out)
    ensures var ops := BeforeExit(all);
            && m <= |ops| && m <= len <= |all| && v == Served(w, ops, m)
            && |out| == |answered| + m && out[..|answered|] == answered
            && (forall i | 0 <= i < m :: out[|answered| + i] == serve(ops[i]))
            && (flag ==> inq == all[m..len])
            && (!flag ==> m == |ops| < len && inq == all[m + 1..len])
  {
  }
}
