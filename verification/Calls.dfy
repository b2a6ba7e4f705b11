/** Every operation handed out is paid for: by an operation that the generator holds, which is then gone,
    or by a call of one of its functions, made for this very question. */
module Calls {
  import opened Operations
  import opened Contexts
  import opened Generators
  import opened Evaluation
  import opened Histories
  import opened Scheduling
  import opened Protocol
  import opened SchedulerSteps
  import opened Runs
  import opened Safety
  import opened Effects

  // ----- What a generator holds -----

  /** The operations that a generator holds, as often as it holds them. */
  ghost function Stock(g: Gen): multiset<Operation> {
    match g
    case OpGen(o) => multiset{o}
    case ListGen(gs) => StockAll(gs)
    case Validate(c) => Stock(c)
    case OnThreads(c, _) => Stock(c)
    case TimeLimit(_, _, c) => Stock(c)
    case Stagger(_, _, c) => Stock(c)
    case Mix(_, gs) => StockAll(gs)
    case Any(gs) => StockAll(gs)
    case _ => multiset{}
  }

  ghost function StockAll(gs: seq<Gen>): multiset<Operation> {
    if |gs| == 0 then multiset{} else Stock(gs[0]) + StockAll(gs[1..])
  }

  /** A function, and the filters around it from the outside in. */
  datatype Callee = Callee(filters: seq<int -> bool>, func: (Context, nat) -> Operation)

  /** The functions that a generator holds. */
  ghost function Callees(g: Gen): set<Callee> {
    match g
    case FunGen(f) => {Callee([], f)}
    case ListGen(gs) => CalleesAll(gs)
    case Validate(c) => Callees(c)
    case OnThreads(c, f) => Behind(f, Callees(c))
    case TimeLimit(_, _, c) => Callees(c)
    case Stagger(_, _, c) => Callees(c)
    case Mix(_, gs) => CalleesAll(gs)
    case Any(gs) => CalleesAll(gs)
    case _ => {}
  }

  ghost function CalleesAll(gs: seq<Gen>): set<Callee> {
    if |gs| == 0 then {} else Callees(gs[0]) + CalleesAll(gs[1..])
  }

  /** The functions as seen from outside a filter. */
  ghost function Behind(f: int -> bool, cs: set<Callee>): set<Callee> {
    set c | c in cs :: Callee([f] + c.filters, c.func)
  }

  /** The context behind the filters. */
  function Narrow(ctx: Context, filters: seq<int -> bool>): Context
    decreases |filters|
  {
    if |filters| == 0 then ctx else Narrow(OnThreadsContext(filters[0], ctx), filters[1..])
  }

  /** What the function returns when it is called in this context. */
  ghost predicate Called(c: Callee, ctx: Context, o: Operation) {
    exists draw :: c.func(Narrow(ctx, c.filters), draw) == o
  }

  // ----- Erasure -----

  lemma {:induction false} EraseStock(g: Gen)
    ensures Stock(Erase(g)) == Stock(g)
  {
    hide StockAll;
    match g
    case Null =>
    case OpGen(_) =>
    case FunGen(_) =>
    case ListGen(gs) => EraseAllStock(gs);
    case Validate(c) => EraseStock(c);
    case OnThreads(c, _) => EraseStock(c);
    case TimeLimit(_, _, c) => EraseStock(c);
    case Stagger(_, _, c) => EraseStock(c);
    case Mix(_, gs) => EraseAllStock(gs);
    case Any(gs) => EraseAllStock(gs);
  }

  lemma {:induction false} EraseAllStock(gs: seq<Gen>)
    ensures StockAll(EraseAll(gs)) == StockAll(gs)
  {
    hide Stock;
    if |gs| > 0 {
      EraseStock(gs[0]);
      EraseAllStock(gs[1..]);
      assert EraseAll(gs)[1..] == EraseAll(gs[1..]);
    }
  }

  lemma {:induction false} EraseCallees(g: Gen)
    ensures Callees(Erase(g)) == Callees(g)
  {
    hide Behind, CalleesAll;
    match g
    case Null =>
    case OpGen(_) =>
    case FunGen(_) =>
    case ListGen(gs) => EraseAllCallees(gs);
    case Validate(c) => EraseCallees(c);
    case OnThreads(c, _) => EraseCallees(c);
    case TimeLimit(_, _, c) => EraseCallees(c);
    case Stagger(_, _, c) => EraseCallees(c);
    case Mix(_, gs) => EraseAllCallees(gs);
    case Any(gs) => EraseAllCallees(gs);
  }

  lemma {:induction false} EraseAllCallees(gs: seq<Gen>)
    ensures CalleesAll(EraseAll(gs)) == CalleesAll(gs)
  {
    hide Callees;
    if |gs| > 0 {
      EraseCallees(gs[0]);
      EraseAllCallees(gs[1..]);
      assert EraseAll(gs)[1..] == EraseAll(gs[1..]);
    }
  }

  lemma SameHoldings(a: Gen, b: Gen)
    requires Same(a, b)
    ensures Stock(a) == Stock(b) && Callees(a) == Callees(b)
  {
    hide Stock, Callees, Erase;
    EraseStock(a);
    EraseStock(b);
    EraseCallees(a);
    EraseCallees(b);
  }

  lemma SameAllHoldings(xs: seq<Gen>, ys: seq<Gen>)
    requires SameAll(xs, ys)
    ensures StockAll(xs) == StockAll(ys) && CalleesAll(xs) == CalleesAll(ys)
  {
    SameAllErase(xs, ys);
    EraseAllStock(xs);
    EraseAllStock(ys);
    EraseAllCallees(xs);
    EraseAllCallees(ys);
  }

  lemma {:induction false} StockAllConcat(a: seq<Gen>, b: seq<Gen>)
    ensures StockAll(a + b) == StockAll(a) + StockAll(b) && CalleesAll(a + b) == CalleesAll(a) + CalleesAll(b)
  {
    hide Stock, Callees;
    if |a| == 0 {
      assert a + b == b;
    } else {
      StockAllConcat(a[1..], b);
      assert (a + b)[1..] == a[1..] + b;
    }
  }

  lemma StockAllOne(g: Gen)
    ensures StockAll([g]) == Stock(g) && CalleesAll([g]) == Callees(g)
  {
    assert [g][1..] == [];
  }

  /** A child and the others. */
  lemma HoldingsOfMember(gs: seq<Gen>, i: int)
    requires 0 <= i < |gs|
    ensures StockAll(gs) == Stock(gs[i]) + StockAll(Without(gs, i))
    ensures CalleesAll(gs) == Callees(gs[i]) + CalleesAll(Without(gs, i))
  {
    hide Stock, StockAll, Callees, CalleesAll;
    var a, g, b := gs[..i], gs[i], gs[i + 1..];
    assert gs == a + ([g] + b);
    StockAllConcat(a, [g] + b);
    StockAllConcat([g], b);
    StockAllOne(g);
    StockAllConcat(a, b);
  }

  // ----- One answer -----

  /** Held before and no longer, or returned by a function called in this context. */
  ghost predicate Paid(g: Gen, next: Gen, ctx: Context, o: Operation) {
    || Stock(next) + multiset{o} <= Stock(g)
    || (Stock(next) <= Stock(g) && exists c :: c in Callees(g) && Called(c, ctx, o))
  }

  /** The operation of the answer is `o` with its blanks filled in, and `o` is paid for; the successor has
      no function that the generator did not have. */
  ghost predicate Sourced(g: Gen, r: OpResult, ctx: Context, o: Operation) {
    o.FilledIn() == r.op.AsIs() && Paid(g, r.next, ctx, o) && Callees(r.next) <= Callees(g)
  }

  /** For every nesting of combinators, an operation comes from one that the generator held and holds no
      more, or from a call made to answer this question. */
  lemma {:induction false} OpSource(g: Gen, ctx: Context, ch: Oracle) returns (o: Operation)
    requires Ready(g) && ctx.Valid() && Op(g, ctx, ch).op.Real()
    ensures Sourced(g, Op(g, ctx, ch), ctx, o)
    decreases Size(g), 1
  {
    if g.Null? {
      assert false;
    }
    hide Op, Sourced, Copy, Inexhaustible, Erase;
    match g
    case OpGen(_) => o := LeafSource(g.operation, ctx, ch);
    case FunGen(_) => o := FunSource(g.func, ctx, ch);
    case ListGen(gs) => o := ListSource(gs, ctx, ch);
    case Validate(_) => o := WrapperSource(g, ctx, ch);
    case OnThreads(c, f) => o := FilterSource(c, f, ctx, ch);
    case TimeLimit(_, _, _) => o := WrapperSource(g, ctx, ch);
    case Stagger(_, _, _) => o := WrapperSource(g, ctx, ch);
    case Mix(idx, gs) => o := MixSource(idx, gs, ctx, ch);
    case Any(gs) => o := AnySource(gs, ctx, ch);
  }

  lemma LeafSource(o: Operation, ctx: Context, ch: Oracle) returns (o': Operation)
    requires ctx.Valid() && Op(OpGen(o), ctx, ch).op.Real()
    ensures Sourced(OpGen(o), Op(OpGen(o), ctx, ch), ctx, o')
  {
    hide Op;
    OpLeaf(o, ctx, ch);
    o' := o;
  }

  lemma FunSource(f: (Context, nat) -> Operation, ctx: Context, ch: Oracle) returns (o: Operation)
    requires WellFormed(FunGen(f)) && ctx.Valid() && Op(FunGen(f), ctx, ch).op.Real()
    ensures Sourced(FunGen(f), Op(FunGen(f), ctx, ch), ctx, o)
  {
    hide Op;
    OpFun(f, ctx, ch);
    o := f(ctx, ch([0]));
    var c := Callee([], f);
    assert c.func(Narrow(ctx, c.filters), ch([0])) == o;
    assert c in Callees(FunGen(f)) && Called(c, ctx, o);
    HoldsNothing(f);
  }

  lemma HoldsNothing(f: (Context, nat) -> Operation)
    ensures Stock(ListGen([Null, FunGen(f)])) == multiset{} && Callees(ListGen([Null, FunGen(f)])) == Callees(FunGen(f))
  {
    StockAllConcat([Null], [FunGen(f)]);
    StockAllOne(Null);
    StockAllOne(FunGen(f));
    assert [Null] + [FunGen(f)] == [Null, FunGen(f)];
  }

  /** More in front and behind, the same on both sides. */
  lemma Enlarged(g: Gen, r: OpResult, ctx: Context, o: Operation, whole: Gen, next: Gen,
                 stock: multiset<Operation>, callees: set<Callee>)
    requires Sourced(g, r, ctx, o)
    requires Stock(whole) == Stock(g) + stock && Stock(next) <= Stock(r.next) + stock
    requires Callees(whole) == Callees(g) + callees && Callees(next) <= Callees(r.next) + callees
    ensures Paid(whole, next, ctx, o) && Callees(next) <= Callees(whole)
  {
    hide Stock, Callees, Called;
  }

  lemma {:induction false} WrapperSource(g: Gen, ctx: Context, ch: Oracle) returns (o: Operation)
    requires WellFormed(g) && ctx.Valid() && (g.Validate? || g.TimeLimit? || g.Stagger?) && Op(g, ctx, ch).op.Real()
    ensures Sourced(g, Op(g, ctx, ch), ctx, o)
    decreases Size(g), 0
  {
    hide Op, Sourced;
    match g {
      case Validate(c) => OpValidate(c, ctx, ch);
      case TimeLimit(limit, cutoff, c) => OpTimeLimit(limit, cutoff, c, ctx, ch);
      case Stagger(dt, next, c) => OpStagger(dt, next, c, ctx, ch);
    }
    o := OpSource(g.gen, ctx, At(ch, 0));
    WrapSourced(g, Op(g.gen, ctx, At(ch, 0)), Op(g, ctx, ch), ctx, o);
  }

  lemma WrapSourced(g: Gen, child: OpResult, r: OpResult, ctx: Context, o: Operation)
    requires (g.Validate? || g.TimeLimit? || g.Stagger?) && Sourced(g.gen, child, ctx, o)
    requires r.op.AsIs() == child.op.AsIs()
    requires || r.next == child.next
             || ((r.next.Validate? || r.next.TimeLimit? || r.next.Stagger?) && r.next.gen == child.next)
    ensures Sourced(g, r, ctx, o)
  {
    hide Called, Stock, Callees;
    WrapHoldings(g);
    if r.next != child.next {
      WrapHoldings(r.next);
    }
  }

  lemma WrapHoldings(g: Gen)
    requires g.Validate? || g.TimeLimit? || g.Stagger?
    ensures Stock(g) == Stock(g.gen) && Callees(g) == Callees(g.gen)
  {
  }

  lemma {:induction false} FilterSource(c: Gen, f: int -> bool, ctx: Context, ch: Oracle) returns (o: Operation)
    requires WellFormed(OnThreads(c, f)) && ctx.Valid() && Op(OnThreads(c, f), ctx, ch).op.Real()
    ensures Sourced(OnThreads(c, f), Op(OnThreads(c, f), ctx, ch), ctx, o)
    decreases Size(OnThreads(c, f)), 0
  {
    hide Op, Called, Sourced, OnThreadsContext;
    OpOnThreads(c, f, ctx, ch);
    var inner := OnThreadsContext(f, ctx);
    o := OpSource(c, inner, At(ch, 0));
    FilterSourced(c, f, ctx, Op(c, inner, At(ch, 0)), Op(OnThreads(c, f), ctx, ch), o);
  }

  lemma FilterSourced(c: Gen, f: int -> bool, ctx: Context, child: OpResult, r: OpResult, o: Operation)
    requires Sourced(c, child, OnThreadsContext(f, ctx), o) && r.op == child.op && r.next == OnThreads(child.next, f)
    ensures Sourced(OnThreads(c, f), r, ctx, o)
  {
    hide Called, Stock, Callees, OnThreadsContext, Behind;
    FilterHoldings(c, child.next, f);
    CalledBehind(c, f, ctx, o);
  }

  lemma FilterHoldings(a: Gen, b: Gen, f: int -> bool)
    ensures Stock(OnThreads(a, f)) == Stock(a) && Stock(OnThreads(b, f)) == Stock(b)
    ensures Callees(b) <= Callees(a) ==> Callees(OnThreads(b, f)) <= Callees(OnThreads(a, f))
  {
  }

  lemma CalledBehind(c: Gen, f: int -> bool, ctx: Context, o: Operation)
    ensures (exists k :: k in Callees(c) && Called(k, OnThreadsContext(f, ctx), o)) ==>
              exists k :: k in Callees(OnThreads(c, f)) && Called(k, ctx, o)
  {
    if k: Callee :| k in Callees(c) && Called(k, OnThreadsContext(f, ctx), o) {
      var k' := Callee([f] + k.filters, k.func);
      assert k'.filters[1..] == k.filters;
      assert Narrow(ctx, k'.filters) == Narrow(OnThreadsContext(f, ctx), k.filters);
      assert k' in Callees(OnThreads(c, f)) && Called(k', ctx, o);
    }
  }

  lemma {:induction false} ListSource(gs: seq<Gen>, ctx: Context, ch: Oracle) returns (o: Operation)
    requires WellFormed(ListGen(gs)) && ctx.Valid() && Op(ListGen(gs), ctx, ch).op.Real()
    ensures Sourced(ListGen(gs), Op(ListGen(gs), ctx, ch), ctx, o)
    decreases Size(ListGen(gs)), 0
  {
    hide Op, Copy, Erase, WriteBack, Inexhaustible, ListKept, ListPopped, Stock, Callees, Paid;
    OpList(gs, ctx, ch);
    SizeOfMember(gs, 0);
    var r := Op(gs[0], ctx, At(ch, 0));
    if !r.op.kind.Nil? {
      ListKeptIs(gs, r);
      o := OpSource(gs[0], ctx, At(ch, 0));
      HeadHoldings(gs, r.next);
      Enlarged(gs[0], r, ctx, o, ListGen(gs), ListKept(gs, r).next, StockAll(gs[1..]), CalleesAll(gs[1..]));
    } else {
      var rest := Popped(gs, r);
      ListPoppedIs(gs, r, rest, Op(rest, ctx, At(ch, 1)));
      o := OpSource(rest, ctx, At(ch, 1));
      SameHoldings(rest, ListGen(gs[1..]));
      HoldingsOfList(gs);
      Enlarged(rest, Op(rest, ctx, At(ch, 1)), ctx, o, ListGen(gs), Op(rest, ctx, At(ch, 1)).next,
               Stock(gs[0]), Callees(gs[0]));
    }
  }

  lemma ListKeptIs(gs: seq<Gen>, r: OpResult)
    requires |gs| > 0 && AllReady(gs) && Answer(gs[0], r)
    ensures ListKept(gs, r).op == r.op
    ensures ListKept(gs, r).next == if |gs| > 1 then ListGen([r.next] + CopyAll(gs[1..])) else r.next
  {
  }

  lemma HoldingsOfList(gs: seq<Gen>)
    requires |gs| > 0
    ensures Stock(ListGen(gs)) == Stock(gs[0]) + StockAll(gs[1..])
    ensures Stock(ListGen(gs[1..])) == StockAll(gs[1..])
    ensures Callees(ListGen(gs)) == Callees(gs[0]) + CalleesAll(gs[1..])
    ensures Callees(ListGen(gs[1..])) == CalleesAll(gs[1..])
  {
  }

  lemma HeadHoldings(gs: seq<Gen>, g: Gen)
    requires |gs| > 0 && AllReady(gs)
    ensures Stock(ListGen(gs)) == Stock(gs[0]) + StockAll(gs[1..])
    ensures Callees(ListGen(gs)) == Callees(gs[0]) + CalleesAll(gs[1..])
    ensures |gs| == 1 ==> StockAll(gs[1..]) == multiset{} && CalleesAll(gs[1..]) == {}
    ensures Stock(ListGen([g] + CopyAll(gs[1..]))) == Stock(g) + StockAll(gs[1..])
    ensures Callees(ListGen([g] + CopyAll(gs[1..]))) == Callees(g) + CalleesAll(gs[1..])
  {
    hide Copy, Erase, WellFormed;
    HoldingsOfList(gs);
    CopySameAll(gs[1..]);
    SameAllHoldings(CopyAll(gs[1..]), gs[1..]);
    var next := [g] + CopyAll(gs[1..]);
    HoldingsOfList(next);
    assert next[1..] == CopyAll(gs[1..]);
  }

  lemma BranchHoldings(gs: seq<Gen>, idx: int)
    ensures Stock(Mix(idx, gs)) == StockAll(gs) && Callees(Mix(idx, gs)) == CalleesAll(gs)
    ensures Stock(Any(gs)) == StockAll(gs) && Callees(Any(gs)) == CalleesAll(gs)
  {
  }

  lemma ReplacedHoldings(gs: seq<Gen>, afters: seq<Gen>, idx: int, g: Gen)
    requires AllWellFormed(afters) && SameAll(afters, gs) && 0 <= idx < |gs| && WellFormed(g)
    ensures StockAll(gs) == Stock(gs[idx]) + StockAll(Without(gs, idx))
    ensures CalleesAll(gs) == Callees(gs[idx]) + CalleesAll(Without(gs, idx))
    ensures StockAll(Replaced(afters, idx, g)) == Stock(g) + StockAll(Without(gs, idx))
    ensures CalleesAll(Replaced(afters, idx, g)) == Callees(g) + CalleesAll(Without(gs, idx))
  {
    hide Stock, Callees, StockAll, CalleesAll, Copy, Same, WellFormed, Inexhaustible;
    var next := Replaced(afters, idx, g);
    forall i | 0 <= i < |gs| && i != idx ensures Same(next[i], gs[i]) {
      SameSame(next[i], afters[i], gs[i]);
    }
    hide Replaced;
    HoldingsOfMember(gs, idx);
    HoldingsOfMember(next, idx);
    OthersSame(next, gs, idx);
    SameAllHoldings(Without(next, idx), Without(gs, idx));
  }

  lemma SameSame(a: Gen, b: Gen, c: Gen)
    requires Same(a, b) && Same(b, c)
    ensures Same(a, c)
  {
    hide Erase;
  }

  lemma OthersSame(xs: seq<Gen>, ys: seq<Gen>, idx: int)
    requires |xs| == |ys| && 0 <= idx < |xs| && forall i | 0 <= i < |xs| && i != idx :: Same(xs[i], ys[i])
    ensures SameAll(Without(xs, idx), Without(ys, idx))
  {
    hide Same;
    var n := |xs| - 1;
    assert forall i | 0 <= i < n :: Without(xs, idx)[i] == xs[if i < idx then i else i + 1];
    assert forall i | 0 <= i < n :: Without(ys, idx)[i] == ys[if i < idx then i else i + 1];
  }

  lemma {:induction false} MixSource(idx: int, gs: seq<Gen>, ctx: Context, ch: Oracle) returns (o: Operation)
    requires WellFormed(Mix(idx, gs)) && ctx.Valid() && Op(Mix(idx, gs), ctx, ch).op.Real()
    ensures Sourced(Mix(idx, gs), Op(Mix(idx, gs), ctx, ch), ctx, o)
    decreases Size(Mix(idx, gs)), 0
  {
    hide Op, Copy, Erase, WriteBack, Inexhaustible, MixKept, MixDropped, Replaced, Stock, Callees, Paid;
    OpMix(idx, gs, ctx, ch);
    SizeOfMember(gs, idx);
    BranchHoldings(gs, idx);
    var r := Op(gs[idx], ctx, At(ch, 0));
    if r.NotNil() {
      MixKeptIs(idx, gs, r, Here(ch));
      o := OpSource(gs[idx], ctx, At(ch, 0));
      ReplacedHoldings(gs, gs, idx, r.next);
      BranchHoldings(Replaced(gs, idx, r.next), Here(ch) % |gs|);
      Enlarged(gs[idx], r, ctx, o, Mix(idx, gs), Mix(Here(ch) % |gs|, Replaced(gs, idx, r.next)),
               StockAll(Without(gs, idx)), CalleesAll(Without(gs, idx)));
    } else {
      var rest := Remixed(idx, gs, r, Here(ch));
      MixDroppedIs(idx, gs, r, rest, Op(rest, ctx, At(ch, 1)));
      o := OpSource(rest, ctx, At(ch, 1));
      SameHoldings(rest, Mix(rest.idx, Without(gs, idx)));
      BranchHoldings(Without(gs, idx), rest.idx);
      HoldingsOfMember(gs, idx);
      Enlarged(rest, Op(rest, ctx, At(ch, 1)), ctx, o, Mix(idx, gs), Op(rest, ctx, At(ch, 1)).next,
               Stock(gs[idx]), Callees(gs[idx]));
    }
  }

  lemma {:induction false} AnySource(gs: seq<Gen>, ctx: Context, ch: Oracle) returns (o: Operation)
    requires WellFormed(Any(gs)) && ctx.Valid() && Op(Any(gs), ctx, ch).op.Real()
    ensures Sourced(Any(gs), Op(Any(gs), ctx, ch), ctx, o)
    decreases Size(Any(gs)), 0
  {
    hide Op, WellFormed, Erase, Inexhaustible, Answer, Replaced, AnyPicked, Chosen, Stock, Callees, Paid;
    AnyChildren(gs);
    OpAny(gs, ctx, ch);
    var rs := OpAll(gs, ctx, ch, 1);
    var idx := Chosen(rs, Draws(ch));
    AnyPickedIs(gs, rs, Draws(ch));
    SizeOfMember(gs, idx);
    o := OpSource(gs[idx], ctx, At(ch, idx + 1));
    AftersSame(gs, rs);
    ReplacedHoldings(gs, AftersOf(rs), idx, rs[idx].next);
    BranchHoldings(gs, 0);
    BranchHoldings(Replaced(AftersOf(rs), idx, rs[idx].next), 0);
    Enlarged(gs[idx], rs[idx], ctx, o, Any(gs), Any(Replaced(AftersOf(rs), idx, rs[idx].next)),
             StockAll(Without(gs, idx)), CalleesAll(Without(gs, idx)));
  }

  // ----- Whole runs -----

  /** Where an operation that is handed out comes from: the generator held it, or a function was called at
      step `step` of the run, in the state `before`. */
  datatype Source = Held(o: Operation) | Call(o: Operation, callee: Callee, step: nat, before: System)

  /** Those held, as often as they are handed out. */
  ghost function HeldOf(from: seq<Source>): multiset<Operation> {
    if |from| == 0 then multiset{} else OneHeld(from[0]) + HeldOf(from[1..])
  }

  ghost function OneHeld(src: Source): multiset<Operation> {
    if src.Held? then multiset{src.o} else multiset{}
  }

  /** The call was made at a question of the run, when `sent` operations had been handed out, in the context
      of that moment. */
  ghost predicate CalledThen(s: System, acts: seq<Action>, sent: nat, src: Source)
    requires Inv(s) && src.Call?
  {
    && src.step < |acts| && acts[src.step].Poll? && Run(s, acts[..src.step], src.before)
    && |Sent(src.before.sched.history)| == sent
    && Called(src.callee, src.before.sched.Context(src.before.clock), src.o)
  }

  /** The source yields the request `p` that is handed out after `sent` others. */
  ghost predicate Explains(s: System, acts: seq<Action>, sent: nat, p: Request, src: Source)
    requires Inv(s)
  {
    && src.o.FilledIn() == p
    && (src.Call? ==> src.callee in Callees(s.sched.gen) && CalledThen(s, acts, sent, src))
  }

  /** The operations handed out in a run, each with its source. */
  ghost predicate Accounted(s: System, acts: seq<Action>, s': System, from: seq<Source>)
    requires Inv(s)
  {
    var sent, sent' := Sent(s.sched.history), Sent(s'.sched.history);
    && |sent'| == |sent| + |from| && sent == sent'[..|sent|]
    && HeldOf(from) + Stock(s'.sched.gen) <= Stock(s.sched.gen)
    && forall i: nat | i < |from| :: Explains(s, acts, |sent| + i, sent'[|sent| + i], from[i])
  }

  /** What one step hands out. */
  lemma StepSource(s: System, a: Action) returns (from: seq<Source>)
    requires Inv(s) && Enabled(s, a)
    ensures Accounted(s, [a], Apply(s, a), from) && |from| <= 1
    ensures Callees(Apply(s, a).sched.gen) <= Callees(s.sched.gen)
  {
    hide Inv, Op, Update, EffectOf, Apply, Enabled, Stock, Callees, Called, Same, Answered;
    StepEffect(s, a);
    EffectKinds(s, a);
    GenEffect(s, a);
    var gen, h := s.sched.gen, s.sched.history;
    var s' := Apply(s, a);
    if EffectOf(s, a).Dispatch? {
      var r := Answered(s, a.ch);
      SentNext(h, Dispatched(r.op));
      SameHoldings(s'.sched.gen, r.next);
      from := DispatchSource(s, a);
    } else {
      from := [];
      SameHoldings(s'.sched.gen, gen);
      if EffectOf(s, a).Completion? {
        SentNext(h, Completed(EffectOf(s, a).event));
      }
    }
  }

  lemma DispatchSource(s: System, a: Action) returns (from: seq<Source>)
    requires Inv(s) && a.Poll? && Answered(s, a.ch).op.Real()
    ensures |from| == 1 && Explains(s, [a], |Sent(s.sched.history)|, Answered(s, a.ch).op.AsIs(), from[0])
    ensures HeldOf(from) + Stock(Answered(s, a.ch).next) <= Stock(s.sched.gen)
    ensures Callees(Answered(s, a.ch).next) <= Callees(s.sched.gen)
  {
    hide Inv, Op, Stock, Callees, Called, Fit;
    InvValid(s);
    var gen, ctx := s.sched.gen, s.sched.Context(s.clock);
    var o := OpSource(gen, ctx, a.ch);
    if Stock(Answered(s, a.ch).next) + multiset{o} <= Stock(gen) {
      from := [Held(o)];
    } else {
      var c :| c in Callees(gen) && Called(c, ctx, o);
      from := [Call(o, c, 0, s)];
      assert [a][..0] == [];
    }
    assert from[1..] == [];
  }

  lemma {:induction false} HeldOfConcat(a: seq<Source>, b: seq<Source>)
    ensures HeldOf(a + b) == HeldOf(a) + HeldOf(b)
  {
    hide OneHeld;
    if |a| == 0 {
      assert a + b == b;
    } else {
      HeldOfConcat(a[1..], b);
      assert (a + b)[1..] == a[1..] + b;
    }
  }

  /** The source seen from one step earlier. */
  function Later(src: Source): Source {
    if src.Call? then src.(step := src.step + 1) else src
  }

  function AllLater(from: seq<Source>): (later: seq<Source>)
    ensures |later| == |from| && forall i | 0 <= i < |from| :: later[i] == Later(from[i])
  {
    seq(|from|, i requires 0 <= i < |from| => Later(from[i]))
  }

  lemma {:induction false} HeldLater(from: seq<Source>)
    ensures HeldOf(AllLater(from)) == HeldOf(from)
  {
    hide AllLater;
    if |from| > 0 {
      HeldLater(from[1..]);
      assert AllLater(from)[1..] == AllLater(from[1..]);
    }
  }

  lemma CalledLater(s: System, acts: seq<Action>, sent: nat, p: Request, src: Source)
    requires Inv(s) && |acts| > 0 && Enabled(s, acts[0]) && Explains(Apply(s, acts[0]), acts[1..], sent, p, src)
    requires Callees(Apply(s, acts[0]).sched.gen) <= Callees(s.sched.gen)
    ensures Explains(s, acts, sent, p, Later(src))
  {
    hide Inv, Enabled, Apply, Called, Sent, Callees;
    if src.Call? {
      assert acts[..src.step + 1][1..] == acts[1..][..src.step];
    }
  }

  lemma CalledFirst(s: System, acts: seq<Action>, sent: nat, p: Request, src: Source)
    requires Inv(s) && |acts| > 0 && Explains(s, [acts[0]], sent, p, src)
    ensures Explains(s, acts, sent, p, src)
  {
    hide Inv, Enabled, Apply, Called, Sent, Callees;
    assert acts[..0] == [acts[0]][..0];
  }

  /** The sources of a run are those of its first step and of the rest. */
  lemma Prefixed(s: System, acts: seq<Action>, s': System, first: seq<Source>, rest: seq<Source>)
    requires Inv(s) && |acts| > 0 && Enabled(s, acts[0])
    requires Accounted(s, [acts[0]], Apply(s, acts[0]), first) && Accounted(Apply(s, acts[0]), acts[1..], s', rest)
    requires Callees(Apply(s, acts[0]).sched.gen) <= Callees(s.sched.gen)
    ensures Accounted(s, acts, s', first + AllLater(rest))
  {
    hide Inv, Enabled, Apply, Stock, Callees, Explains, Sent, HeldOf, AllLater;
    var s1, later := Apply(s, acts[0]), AllLater(rest);
    HeldLater(rest);
    HeldOfConcat(first, later);
    var n, sent := |Sent(s.sched.history)|, Sent(s'.sched.history);
    assert Sent(s1.sched.history) == sent[..n + |first|];
    forall i: nat | i < |first + later| ensures Explains(s, acts, n + i, sent[n + i], (first + later)[i]) {
      if i < |first| {
        CalledFirst(s, acts, n + i, sent[n + i], first[i]);
      } else {
        CalledLater(s, acts, n + i, sent[n + i], rest[i - |first|]);
      }
    }
  }

  /** In every run each operation handed out is one that the generator held, and no longer holds, or comes
      from a call of its own. */
  lemma {:induction false} RunSource(s: System, acts: seq<Action>, s': System) returns (from: seq<Source>)
    requires Inv(s) && Run(s, acts, s')
    ensures Accounted(s, acts, s', from)
    decreases |acts|
  {
    hide Inv, Enabled, Apply, Stock, Callees, Explains, Sent;
    if |acts| == 0 {
      from := [];
    } else {
      var first := StepSource(s, acts[0]);
      var rest := RunSource(Apply(s, acts[0]), acts[1..], s');
      from := first + AllLater(rest);
      Prefixed(s, acts, s', first, rest);
    }
  }

  /** A call of its own: different operations come from different steps. */
  lemma OwnCalls(s: System, acts: seq<Action>, s': System, from: seq<Source>, i: nat, j: nat)
    requires Inv(s) && Accounted(s, acts, s', from) && i < j < |from| && from[i].Call? && from[j].Call?
    ensures from[i].step != from[j].step
  {
    hide Inv, Enabled, Apply, Stock, Callees, Called, Sent;
    if from[i].step == from[j].step {
      RunUnique(s, acts[..from[i].step], from[i].before, from[j].before);
    }
  }

  lemma {:induction false} RunUnique(s: System, acts: seq<Action>, s1: System, s2: System)
    requires Inv(s) && Run(s, acts, s1) && Run(s, acts, s2)
    ensures s1 == s2
    decreases |acts|
  {
    hide Inv, Enabled, Apply;
    if |acts| > 0 {
      RunUnique(Apply(s, acts[0]), acts[1..], s1, s2);
    }
  }

  /** Over whole runs of a test: the operations that its generator holds are handed out at most as often as
      it holds them, and everything else that is handed out is what one of its functions returned when it
      was called for this, in the context of that moment, behind the filters around the function; no two
      operations come from the same call. */
  lemma EveryDispatchIsPaidFor(n: nat, clock: int, g: Gen, acts: seq<Action>, s: System) returns (from: seq<Source>)
    requires Fit(g, Threads(n)) && Reachable(n, clock, g, acts, s)
    ensures |from| == |Sent(s.sched.history)| && HeldOf(from) <= Stock(g)
    ensures Inv(Initial(n, clock, g)) && Callees(Initial(n, clock, g).sched.gen) == Callees(g)
    ensures forall i: nat | i < |from| :: Explains(Initial(n, clock, g), acts, i, Sent(s.sched.history)[i], from[i])
    ensures forall i: nat, j: nat | i < j < |from| && from[i].Call? && from[j].Call? :: from[i].step != from[j].step
  {
    hide Inv, Run, Fit, CalledThen;
    StartInv(n, clock, g);
    var s0 := Initial(n, clock, g);
    from := RunSource(s0, acts, s);
    assert Sent([]) == [];
    forall i: nat, j: nat | i < j < |from| && from[i].Call? && from[j].Call? ensures from[i].step != from[j].step {
      OwnCalls(s0, acts, s, from, i, j);
    }
  }
}
