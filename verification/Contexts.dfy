/** The scheduling context: which threads are free and which process each thread runs
    (src/jepsen/Context.h, src/jepsen/Context.cpp). */
module Contexts {
  import opened Operations

  datatype Context = Context(time: int, free: set<Thread>, workers: map<Thread, int>)
  {
    /** Free threads have a worker, and no worker runs the invalid process. */
    ghost predicate Valid() {
      && free <= workers.Keys
      && forall t | t in workers :: workers[t] != INVALID_PROCESS
    }
  }

  // ----- Ordered sets of threads -----

  lemma LeastExists(s: set<Thread>) returns (m: Thread)
    requires s != {}
    ensures m in s && forall y | y in s :: m <= y
    decreases |s|
  {
    var x :| x in s;
    assert forall y | y in s :: y == x || y in s - {x};
    if s - {x} == {} {
      m := x;
    } else {
      m := LeastExists(s - {x});
      if x < m {
        m := x;
      }
    }
  }

  function Least(s: set<Thread>): (m: Thread)
    requires s != {}
    ensures m in s && forall y | y in s :: m <= y
  {
    assert exists m :: m in s && forall y | y in s :: m <= y by {
      var m := LeastExists(s);
    }
    var m :| m in s && forall y | y in s :: m <= y;
    m
  }

  /** The element that an ordered set's iterator reaches after `k` advances. */
  function Nth(s: set<Thread>, k: nat): (x: Thread)
    requires k < |s|
    ensures x in s
    decreases k
  {
    var m := Least(s);
    if k == 0 then m else Nth(s - {m}, k - 1)
  }

  /** Every element is reached by some number of advances. */
  lemma {:induction false} NthReaches(s: set<Thread>, x: Thread) returns (k: nat)
    requires x in s
    ensures k < |s| && Nth(s, k) == x
    decreases |s|
  {
    var m := Least(s);
    if x == m {
      k := 0;
    } else {
      k := NthReaches(s - {m}, x);
      k := k + 1;
    }
  }

  /** And by one number only. */
  lemma {:induction false} NthOnce(s: set<Thread>, i: nat, j: nat)
    requires i < |s| && j < |s| && Nth(s, i) == Nth(s, j)
    ensures i == j
    decreases i
  {
    var m := Least(s);
    if i > 0 && j > 0 {
      NthOnce(s - {m}, i - 1, j - 1);
    }
  }

  // ----- Context operations -----

  /** A random free process; `draw` is the value of the random source. */
  function RandomFreeProcess(ctx: Context, draw: nat): (p: int)
    requires ctx.free <= ctx.workers.Keys
    ensures ctx.free == {} ==> p == INVALID_PROCESS
    ensures ctx.free != {} ==> exists t :: t in ctx.free && ctx.workers[t] == p
  {
    if |ctx.free| != 0 then
      var t := Nth(ctx.free, draw % |ctx.free|);
      ctx.workers[t]
    else
      INVALID_PROCESS
  }

  /** Each process held by a free thread is the answer to some draw: nothing is starved. */
  lemma RandomFreeProcessCovers(ctx: Context, t: Thread) returns (draw: nat)
    requires ctx.Valid() && t in ctx.free
    ensures RandomFreeProcess(ctx, draw) == ctx.workers[t]
  {
    hide Nth;
    draw := NthReaches(ctx.free, t);
  }

  /** When no process is shared, a thread is drawn by one remainder of the draw, when divided by the number
      of free threads, and by no other: all free threads are equally likely. */
  lemma RandomFreeProcessIff(ctx: Context, t: Thread) returns (k: nat)
    requires ctx.Valid() && Injective(ctx.workers) && t in ctx.free
    ensures k < |ctx.free|
    ensures forall draw: nat :: RandomFreeProcess(ctx, draw) == ctx.workers[t] <==> draw % |ctx.free| == k
  {
    hide Nth;
    k := NthReaches(ctx.free, t);
    forall draw: nat ensures RandomFreeProcess(ctx, draw) == ctx.workers[t] <==> draw % |ctx.free| == k {
      var d := draw % |ctx.free|;
      if Nth(ctx.free, d) == t {
        NthOnce(ctx.free, d, k);
      }
    }
  }

  function Holders(workers: map<Thread, int>, process: int): set<Thread> {
    set t | t in workers && workers[t] == process
  }

  /** The least thread that holds the process. */
  function ProcessToThread(workers: map<Thread, int>, process: int): (t: Thread)
    ensures Holders(workers, process) != {} ==> t in workers && workers[t] == process
    ensures Holders(workers, process) == {} ==> t == INVALID_PROCESS
  {
    var hs := Holders(workers, process);
    if hs == {} then INVALID_PROCESS else Least(hs)
  }

  ghost predicate Injective(workers: map<Thread, int>) {
    forall t, u | t in workers && u in workers && workers[t] == workers[u] :: t == u
  }

  /** The search loop visits the map in an unspecified order; when no two threads share
      a process its answer does not depend on that order. */
  method FindThread(workers: map<Thread, int>, process: int) returns (t: Thread)
    ensures t == INVALID_PROCESS || (t in workers && workers[t] == process)
    ensures t == INVALID_PROCESS && INVALID_PROCESS !in workers ==> forall u | u in workers :: workers[u] != process
    ensures Injective(workers) ==> t == ProcessToThread(workers, process)
  {
    var rest := workers.Keys;
    while rest != {}
      invariant rest <= workers.Keys
      invariant forall u | u in workers && u !in rest :: workers[u] != process
      decreases rest
    {
      var u :| u in rest;
      if workers[u] == process {
        assert u in Holders(workers, process);
        return u;
      }
      rest := rest - {u};
    }
    assert Holders(workers, process) == {};
    return INVALID_PROCESS;
  }

  /** The process that replaces a crashed one: the client threads are counted, and the
      old process is moved up by that many. */
  function NextProcess(workers: map<Thread, int>, thread: Thread): (p: int)
    requires thread in workers
  {
    if thread != NEMESIS then
      workers[thread] + |set t | t in workers && workers[t] != NEMESIS|
    else
      thread
  }

  /** The context restricted to the threads that the filter accepts. */
  function OnThreadsContext(filter: int -> bool, ctx: Context): (c: Context)
    ensures ctx.Valid() ==> c.Valid()
    ensures c.free <= ctx.free && c.time == ctx.time
    ensures forall t :: t in c.free <==> t in ctx.free && filter(t)
    ensures forall t :: t in c.workers <==> t in ctx.workers && filter(t)
    ensures forall t | t in c.workers :: c.workers[t] == ctx.workers[t]
  {
    Context(ctx.time, set t | t in ctx.free && filter(t), map t | t in ctx.workers && filter(t) :: ctx.workers[t])
  }

  /** The two loops that build the restricted context element by element. */
  method RestrictContext(filter: int -> bool, ctx: Context) returns (c: Context)
    ensures c == OnThreadsContext(filter, ctx)
  {
    var free: set<Thread> := {};
    var rest := ctx.free;
    while rest != {}
      invariant rest <= ctx.free
      invariant free == set t | t in ctx.free && t !in rest && filter(t)
      decreases rest
    {
      var t :| t in rest;
      if filter(t) {
        free := free + {t};
      }
      rest := rest - {t};
    }
    var workers := ctx.workers;
    rest := ctx.workers.Keys;
    while rest != {}
      invariant rest <= ctx.workers.Keys
      invariant workers == map t | t in ctx.workers && (t in rest || filter(t)) :: ctx.workers[t]
      decreases rest
    {
      var t :| t in rest;
      if !filter(t) {
        workers := workers - {t};
      }
      rest := rest - {t};
    }
    c := Context(ctx.time, free, workers);
  }

  // ----- Allocation of processes to threads -----

  /** The threads of a test with `n` clients. */
  function Threads(n: nat): (ts: set<Thread>)
    ensures NEMESIS in ts && |ts| == n + 1
  {
    var clients := ClientThreads(n);
    {NEMESIS} + clients
  }

  function ClientThreads(n: nat): (ts: set<Thread>)
    ensures forall t :: t in ts <==> 0 <= t < n
    ensures |ts| == n
  {
    if n == 0 then {} else ClientThreads(n - 1) + {n - 1}
  }

  /** The thread that a process belongs to, by arithmetic alone. */
  function ThreadOf(n: nat, process: int): int {
    if process < 0 || n == 0 then process else process % n
  }

  /** The nemesis runs its own process, client `t` runs some `t + k * n`. */
  ghost predicate Allocated(n: nat, workers: map<Thread, int>) {
    && workers.Keys == Threads(n)
    && workers[NEMESIS] == NEMESIS
    && forall t | 0 <= t < n :: workers[t] >= 0 && ThreadOf(n, workers[t]) == t
  }

  lemma Quotient(p: nat, n: nat) returns (k: nat)
    requires n > 0
    ensures p == p % n + k * n
  {
    k := p / n;
  }

  /** Read with multiples: client `t` holds `t + k * n` for some natural `k`. */
  lemma AllocatedMultiples(n: nat, workers: map<Thread, int>, t: Thread) returns (k: nat)
    requires Allocated(n, workers) && 0 <= t < n
    ensures workers[t] == t + k * n
  {
    k := Quotient(workers[t], n);
  }

  /** Allocation is injective, so looking a process up inverts it. */
  lemma AllocatedInverts(n: nat, workers: map<Thread, int>, t: Thread)
    requires Allocated(n, workers) && t in workers
    ensures Injective(workers)
    ensures ThreadOf(n, workers[t]) == t
    ensures ProcessToThread(workers, workers[t]) == t
    ensures workers[t] != INVALID_PROCESS
  {
    assert t in Holders(workers, workers[t]);
    assert forall u | u in workers :: u == NEMESIS || 0 <= u < n;
    assert forall u | u in workers :: ThreadOf(n, workers[u]) == u;
  }

  /** A crashed client thread gets the next process of its own residue class, and the
      allocation stays an allocation. */
  lemma NextProcessKeepsAllocation(n: nat, workers: map<Thread, int>, t: Thread)
    requires Allocated(n, workers) && 0 <= t < n
    ensures NextProcess(workers, t) == workers[t] + n
    ensures Allocated(n, workers[t := NextProcess(workers, t)])
  {
    assert (set u | u in workers && workers[u] != NEMESIS) == ClientThreads(n) by {
      assert forall u | u in workers :: u == NEMESIS || 0 <= u < n;
    }
    var p := workers[t];
    assert (p + n) % n == p % n by {
      ModAdd(p, n);
    }
    assert workers[t := p + n].Keys == Threads(n);
  }

  lemma ModAdd(p: nat, n: nat)
    requires n > 0
    ensures (p + n) % n == p % n
  {
    var q, r := p / n, p % n;
    assert p + n == (q + 1) * n + r;
    DivModUnique(p + n, n, q + 1, r);
  }

  lemma {:induction false} MulAtLeast(d: nat, n: nat)
    requires d >= 1
    ensures d * n >= n
  {
    if d > 1 {
      MulAtLeast(d - 1, n);
      assert d * n == (d - 1) * n + n;
    }
  }

  lemma DivModUnique(a: nat, n: nat, q: nat, r: nat)
    requires n > 0 && r < n && a == q * n + r
    ensures a % n == r
  {
    var d := a / n;
    assert a == d * n + a % n;
    assert (d - q) * n == d * n - q * n;
    assert (q - d) * n == q * n - d * n;
    if d > q {
      MulAtLeast(d - q, n);
    } else if d < q {
      MulAtLeast(q - d, n);
    }
  }

  /** The initial allocation: every thread runs the process of its own number. */
  lemma InitialAllocation(n: nat)
    ensures Allocated(n, map t | t in Threads(n) :: t)
  {
    forall t | 0 <= t < n ensures ThreadOf(n, t) == t {
      DivModUnique(t, n, 0, t);
    }
  }
}
