/** Where the operations of a generator come from, and for which threads. */
module Leaves {
  import opened Operations
  import opened Contexts
  import opened Generators
  import opened Evaluation

  function Accepted(scope: set<Thread>, f: int -> bool): set<Thread> {
    set t | t in scope && f(t)
  }

  /** Under `scope`, the generator holds a leaf (an operation, or a function that can return it)
      yielding `o`; `sc` are the threads that every enclosing filter accepts, and `ls` the limits of the
      enclosing time limits, from the outside in. */
  ghost predicate HasLeaf(g: Gen, scope: set<Thread>, o: Operation, sc: set<Thread>, ls: seq<int>) {
    match g
    case Null => false
    case OpGen(o') => o' == o && sc == scope && ls == []
    case FunGen(f) => sc == scope && ls == [] && exists c, k :: f(c, k) == o
    case ListGen(gs) => exists i :: 0 <= i < |gs| && HasLeaf(gs[i], scope, o, sc, ls)
    case Validate(c) => HasLeaf(c, scope, o, sc, ls)
    case OnThreads(c, f) => HasLeaf(c, Accepted(scope, f), o, sc, ls)
    case TimeLimit(limit, _, c) => |ls| > 0 && ls[0] == limit && HasLeaf(c, scope, o, sc, ls[1..])
    case Stagger(_, _, c) => HasLeaf(c, scope, o, sc, ls)
    case Mix(_, gs) => exists i :: 0 <= i < |gs| && HasLeaf(gs[i], scope, o, sc, ls)
    case Any(gs) => exists i :: 0 <= i < |gs| && HasLeaf(gs[i], scope, o, sc, ls)
  }

  ghost predicate SomeLeaf(gs: seq<Gen>, scope: set<Thread>, o: Operation, sc: set<Thread>, ls: seq<int>) {
    exists i :: 0 <= i < |gs| && HasLeaf(gs[i], scope, o, sc, ls)
  }

  /** Filters only narrow the threads of a leaf. */
  lemma {:induction false} LeafWithin(g: Gen, scope: set<Thread>, o: Operation, sc: set<Thread>, ls: seq<int>)
    requires HasLeaf(g, scope, o, sc, ls)
    ensures sc <= scope
    decreases g
  {
    match g
    case OpGen(_) =>
    case FunGen(_) =>
    case ListGen(gs) =>
      var i :| 0 <= i < |gs| && HasLeaf(gs[i], scope, o, sc, ls);
      LeafWithin(gs[i], scope, o, sc, ls);
    case Validate(c) => LeafWithin(c, scope, o, sc, ls);
    case OnThreads(c, f) => LeafWithin(c, Accepted(scope, f), o, sc, ls);
    case TimeLimit(_, _, c) => LeafWithin(c, scope, o, sc, ls[1..]);
    case Stagger(_, _, c) => LeafWithin(c, scope, o, sc, ls);
    case Mix(_, gs) =>
      var i :| 0 <= i < |gs| && HasLeaf(gs[i], scope, o, sc, ls);
      LeafWithin(gs[i], scope, o, sc, ls);
    case Any(gs) =>
      var i :| 0 <= i < |gs| && HasLeaf(gs[i], scope, o, sc, ls);
      LeafWithin(gs[i], scope, o, sc, ls);
  }

  // ----- Erasure keeps leaves -----

  lemma {:induction false} EraseLeaf(g: Gen, scope: set<Thread>, o: Operation, sc: set<Thread>, ls: seq<int>)
    ensures HasLeaf(Erase(g), scope, o, sc, ls) == HasLeaf(g, scope, o, sc, ls)
    decreases g
  {
    match g
    case Null =>
    case OpGen(_) =>
    case FunGen(_) =>
    case ListGen(gs) => EraseLeafAll(gs, scope, o, sc, ls);
    case Validate(c) => EraseLeaf(c, scope, o, sc, ls);
    case OnThreads(c, f) => EraseLeaf(c, Accepted(scope, f), o, sc, ls);
    case TimeLimit(_, _, c) =>
      if |ls| > 0 {
        EraseLeaf(c, scope, o, sc, ls[1..]);
      }
    case Stagger(_, _, c) => EraseLeaf(c, scope, o, sc, ls);
    case Mix(_, gs) => EraseLeafAll(gs, scope, o, sc, ls);
    case Any(gs) => EraseLeafAll(gs, scope, o, sc, ls);
  }

  lemma {:induction false} EraseLeafAll(gs: seq<Gen>, scope: set<Thread>, o: Operation, sc: set<Thread>, ls: seq<int>)
    ensures SomeLeaf(EraseAll(gs), scope, o, sc, ls) == SomeLeaf(gs, scope, o, sc, ls)
    decreases gs
  {
    forall i | 0 <= i < |gs| ensures HasLeaf(EraseAll(gs)[i], scope, o, sc, ls) == HasLeaf(gs[i], scope, o, sc, ls) {
      EraseLeaf(gs[i], scope, o, sc, ls);
    }
    if SomeLeaf(gs, scope, o, sc, ls) {
      var i :| 0 <= i < |gs| && HasLeaf(gs[i], scope, o, sc, ls);
      assert HasLeaf(EraseAll(gs)[i], scope, o, sc, ls);
    }
  }

  lemma SameLeaf(a: Gen, b: Gen, scope: set<Thread>, o: Operation, sc: set<Thread>, ls: seq<int>)
    requires Same(a, b)
    ensures HasLeaf(a, scope, o, sc, ls) == HasLeaf(b, scope, o, sc, ls)
  {
    EraseLeaf(a, scope, o, sc, ls);
    EraseLeaf(b, scope, o, sc, ls);
  }

  /** The leaves of `a` are leaves of `b`. */
  ghost predicate Within(a: Gen, b: Gen) {
    forall scope, o, sc, ls | HasLeaf(a, scope, o, sc, ls) :: HasLeaf(b, scope, o, sc, ls)
  }

  ghost predicate WithinSome(a: Gen, gs: seq<Gen>) {
    forall scope, o, sc, ls | HasLeaf(a, scope, o, sc, ls) :: SomeLeaf(gs, scope, o, sc, ls)
  }

  lemma SameWithin(a: Gen, b: Gen)
    requires Same(a, b)
    ensures Within(a, b)
  {
    forall scope, o, sc, ls | HasLeaf(a, scope, o, sc, ls) ensures HasLeaf(b, scope, o, sc, ls) {
      SameLeaf(a, b, scope, o, sc, ls);
    }
  }

  // ----- A successor has no leaves of its own -----

  lemma MemberWithin(gs: seq<Gen>, i: int)
    requires 0 <= i < |gs|
    ensures WithinSome(gs[i], gs)
  {
  }

  ghost predicate AllWithin(xs: seq<Gen>, gs: seq<Gen>) {
    forall scope, o, sc, ls | SomeLeaf(xs, scope, o, sc, ls) :: SomeLeaf(gs, scope, o, sc, ls)
  }

  /** If each element's leaves are leaves of some element of `gs`, so are those of the whole. */
  lemma CollectWithin(xs: seq<Gen>, gs: seq<Gen>)
    requires forall i | 0 <= i < |xs| :: WithinSome(xs[i], gs)
    ensures AllWithin(xs, gs)
  {
    forall scope, o, sc, ls | SomeLeaf(xs, scope, o, sc, ls) ensures SomeLeaf(gs, scope, o, sc, ls) {
      var i :| 0 <= i < |xs| && HasLeaf(xs[i], scope, o, sc, ls);
      assert WithinSome(xs[i], gs);
    }
  }

  lemma BranchLeaf(gs: seq<Gen>, i: int, scope: set<Thread>, o: Operation, sc: set<Thread>, ls: seq<int>)
    ensures HasLeaf(ListGen(gs), scope, o, sc, ls) == SomeLeaf(gs, scope, o, sc, ls)
    ensures HasLeaf(Mix(i, gs), scope, o, sc, ls) == SomeLeaf(gs, scope, o, sc, ls)
    ensures HasLeaf(Any(gs), scope, o, sc, ls) == SomeLeaf(gs, scope, o, sc, ls)
  {
  }

  lemma BranchWithin(xs: seq<Gen>, gs: seq<Gen>, i: int, j: int)
    requires AllWithin(xs, gs)
    ensures Within(ListGen(xs), ListGen(gs)) && Within(Mix(i, xs), Mix(j, gs)) && Within(Any(xs), Any(gs))
  {
    forall scope, o, sc, ls
      ensures HasLeaf(ListGen(xs), scope, o, sc, ls) ==> HasLeaf(ListGen(gs), scope, o, sc, ls)
      ensures HasLeaf(Mix(i, xs), scope, o, sc, ls) ==> HasLeaf(Mix(j, gs), scope, o, sc, ls)
      ensures HasLeaf(Any(xs), scope, o, sc, ls) ==> HasLeaf(Any(gs), scope, o, sc, ls)
    {
      BranchLeaf(xs, i, scope, o, sc, ls);
      BranchLeaf(gs, j, scope, o, sc, ls);
    }
  }

  lemma WithinTrans(a: Gen, b: Gen, c: Gen)
    requires Within(a, b) && Within(b, c)
    ensures Within(a, c)
  {
  }

  lemma CopyWithin(gs: seq<Gen>, i: int, all: seq<Gen>)
    requires AllReady(gs) && 0 <= i < |gs| && WithinSome(gs[i], all)
    ensures WithinSome(CopyAll(gs)[i], all)
  {
    CopySame(gs[i]);
    SameWithin(Copy(gs[i]), gs[i]);
  }

  lemma ListKeptWithin(gs: seq<Gen>, r: OpResult)
    requires |gs| > 0 && AllReady(gs) && Answer(gs[0], r) && Within(r.next, gs[0])
    ensures Within(ListKept(gs, r).next, ListGen(gs))
  {
    hide Inexhaustible, Copy, Erase, WellFormed;
    if |gs| == 1 {
      forall scope, o, sc, ls | HasLeaf(r.next, scope, o, sc, ls) ensures HasLeaf(ListGen(gs), scope, o, sc, ls) {
        assert HasLeaf(gs[0], scope, o, sc, ls);
      }
    } else {
      MemberWithin(gs, 0);
      var next := [r.next] + CopyAll(gs[1..]);
      forall i | 0 <= i < |next| ensures WithinSome(next[i], gs) {
        if i > 0 {
          MemberWithin(gs, i);
          CopyWithin(gs[1..], i - 1, gs);
        }
      }
      CollectWithin(next, gs);
      BranchWithin(next, gs, 0, 0);
    }
  }

  lemma PoppedWithin(gs: seq<Gen>, rest: Gen, next: Gen)
    requires |gs| > 0 && Same(rest, ListGen(gs[1..])) && Within(next, rest)
    ensures Within(next, ListGen(gs))
  {
    SameWithin(rest, ListGen(gs[1..]));
    forall i | 0 <= i < |gs[1..]| ensures WithinSome(gs[1..][i], gs) {
      MemberWithin(gs, i + 1);
    }
    CollectWithin(gs[1..], gs);
    BranchWithin(gs[1..], gs, 0, 0);
    WithinTrans(next, rest, ListGen(gs[1..]));
    WithinTrans(next, ListGen(gs[1..]), ListGen(gs));
  }

  lemma ReplacedWithin(gs: seq<Gen>, xs: seq<Gen>, idx: int, g: Gen)
    requires AllWellFormed(xs) && SameAll(xs, gs) && 0 <= idx < |gs| && WellFormed(g) && Within(g, gs[idx])
    ensures AllWithin(Replaced(xs, idx, g), gs)
  {
    var next := Replaced(xs, idx, g);
    forall i | 0 <= i < |next| ensures WithinSome(next[i], gs) {
      MemberWithin(gs, i);
      if i != idx {
        SameWithin(next[i], xs[i]);
        SameWithin(xs[i], gs[i]);
      }
    }
    CollectWithin(next, gs);
  }

  lemma MixDroppedWithin(idx: int, gs: seq<Gen>, rest: Gen, next: Gen)
    requires 0 <= idx < |gs| && rest.Mix? && Same(rest, Mix(rest.idx, Without(gs, idx))) && Within(next, rest)
    ensures Within(next, Mix(idx, gs))
  {
    var others := Without(gs, idx);
    SameWithin(rest, Mix(rest.idx, others));
    forall i | 0 <= i < |others| ensures WithinSome(others[i], gs) {
      var j := if i < idx then i else i + 1;
      assert others[i] == gs[j];
      MemberWithin(gs, j);
    }
    CollectWithin(others, gs);
    BranchWithin(others, gs, rest.idx, idx);
    WithinTrans(next, rest, Mix(rest.idx, others));
    WithinTrans(next, Mix(rest.idx, others), Mix(idx, gs));
  }

  /** Asking a generator never creates leaves: those of the successor were there before. */
  lemma {:induction false} NextWithin(g: Gen, ctx: Context, ch: Oracle)
    requires Ready(g) && ctx.Valid()
    ensures Within(Op(g, ctx, ch).next, g)
    decreases Size(g), 1
  {
    match g
    case Null =>
    case OpGen(_) =>
    case FunGen(f) => FunNextWithin(f, ctx, ch);
    case ListGen(gs) => ListNextWithin(gs, ctx, ch);
    case Validate(c) =>
      NextWithin(c, ctx, At(ch, 0));
      WrapperNextWithin(g, ctx, ch);
    case OnThreads(c, f) =>
      NextWithin(c, OnThreadsContext(f, ctx), At(ch, 0));
      WrapperNextWithin(g, ctx, ch);
    case TimeLimit(_, _, c) =>
      NextWithin(c, ctx, At(ch, 0));
      WrapperNextWithin(g, ctx, ch);
    case Stagger(_, _, c) =>
      NextWithin(c, ctx, At(ch, 0));
      WrapperNextWithin(g, ctx, ch);
    case Mix(idx, gs) => MixNextWithin(idx, gs, ctx, ch);
    case Any(gs) => AnyNextWithin(gs, ctx, ch);
  }

  lemma WrapperNextWithin(g: Gen, ctx: Context, ch: Oracle)
    requires WellFormed(g) && ctx.Valid() && (g.Validate? || g.OnThreads? || g.TimeLimit? || g.Stagger?)
    requires Within(Op(g.gen, if g.OnThreads? then OnThreadsContext(g.filter, ctx) else ctx, At(ch, 0)).next, g.gen)
    ensures Within(Op(g, ctx, ch).next, g)
  {
    hide Op, HasLeaf;
    NullWithin(g);
    match g
    case Validate(c) =>
      OpValidate(c, ctx, ch);
      WrapWithin(Op(c, ctx, At(ch, 0)).next, c, Validate(Op(c, ctx, At(ch, 0)).next), g);
    case OnThreads(c, f) =>
      OpOnThreads(c, f, ctx, ch);
      var r := Op(c, OnThreadsContext(f, ctx), At(ch, 0));
      WrapWithin(r.next, c, OnThreads(r.next, f), g);
    case TimeLimit(limit, cutoff, c) =>
      OpTimeLimit(limit, cutoff, c, ctx, ch);
      var next := Op(g, ctx, ch).next;
      if !next.Null? {
        WrapWithin(next.gen, c, next, g);
      }
    case Stagger(dt, due, c) =>
      OpStagger(dt, due, c, ctx, ch);
      SameWithin(Op(c, ctx, At(ch, 0)).after, c);
      var next := Op(g, ctx, ch).next;
      if !next.Null? {
        WrapWithin(next.gen, c, next, g);
      }
  }

  lemma NullWithin(g: Gen)
    ensures Within(Null, g)
  {
  }

  /** Wrapping two generators alike keeps their leaves nested. */
  lemma WrapWithin(a: Gen, b: Gen, wa: Gen, wb: Gen)
    requires Within(a, b)
    requires || (wa == Validate(a) && wb == Validate(b))
             || (wa.OnThreads? && wb.OnThreads? && wa.filter == wb.filter && wa.gen == a && wb.gen == b)
             || (wa.TimeLimit? && wb.TimeLimit? && wa.limit == wb.limit && wa.gen == a && wb.gen == b)
             || (wa.Stagger? && wb.Stagger? && wa.gen == a && wb.gen == b)
    ensures Within(wa, wb)
  {
    forall scope, o, sc, ls | HasLeaf(wa, scope, o, sc, ls) ensures HasLeaf(wb, scope, o, sc, ls) {
      if wa.OnThreads? {
        assert HasLeaf(a, Accepted(scope, wa.filter), o, sc, ls);
        assert HasLeaf(b, Accepted(scope, wa.filter), o, sc, ls);
      } else {
        var inside := if wa.TimeLimit? then ls[1..] else ls;
        assert HasLeaf(a, scope, o, sc, inside);
        assert HasLeaf(b, scope, o, sc, inside);
      }
    }
  }

  lemma FunNextWithin(f: (Context, nat) -> Operation, ctx: Context, ch: Oracle)
    requires WellFormed(FunGen(f)) && ctx.Valid()
    ensures Within(Op(FunGen(f), ctx, ch).next, FunGen(f))
  {
    hide Op;
    OpFun(f, ctx, ch);
    var next := Op(FunGen(f), ctx, ch).next.gens;
    forall scope, o, sc, ls | HasLeaf(ListGen(next), scope, o, sc, ls) ensures HasLeaf(FunGen(f), scope, o, sc, ls) {
      var i :| 0 <= i < |next| && HasLeaf(next[i], scope, o, sc, ls);
      assert i == 0 ==> f(ctx, ch([0])) == o;
    }
  }

  lemma {:induction false} ListNextWithin(gs: seq<Gen>, ctx: Context, ch: Oracle)
    requires WellFormed(ListGen(gs)) && ctx.Valid()
    ensures Within(Op(ListGen(gs), ctx, ch).next, ListGen(gs))
    decreases Size(ListGen(gs)), 0
  {
    hide Op;
    OpList(gs, ctx, ch);
    SizeOfMember(gs, 0);
    NextWithin(gs[0], ctx, At(ch, 0));
    var r := Op(gs[0], ctx, At(ch, 0));
    if !r.op.kind.Nil? {
      ListKeptWithin(gs, r);
    } else if |gs| > 1 {
      var rest := Popped(gs, r);
      NextWithin(rest, ctx, At(ch, 1));
      PoppedWithin(gs, rest, Op(rest, ctx, At(ch, 1)).next);
    }
  }

  lemma {:induction false} MixNextWithin(idx: int, gs: seq<Gen>, ctx: Context, ch: Oracle)
    requires WellFormed(Mix(idx, gs)) && ctx.Valid()
    ensures Within(Op(Mix(idx, gs), ctx, ch).next, Mix(idx, gs))
    decreases Size(Mix(idx, gs)), 0
  {
    hide Op, Inexhaustible, Copy, WriteBack, HasLeaf;
    OpMix(idx, gs, ctx, ch);
    SizeOfMember(gs, idx);
    NextWithin(gs[idx], ctx, At(ch, 0));
    var r := Op(gs[idx], ctx, At(ch, 0));
    if r.NotNil() {
      ReplacedWithin(gs, gs, idx, r.next);
      BranchWithin(Replaced(gs, idx, r.next), gs, Here(ch) % |gs|, idx);
    } else {
      var rest := Remixed(idx, gs, r, Here(ch));
      NextWithin(rest, ctx, At(ch, 1));
      MixDroppedWithin(idx, gs, rest, Op(rest, ctx, At(ch, 1)).next);
    }
  }

  lemma {:induction false} AnyNextWithin(gs: seq<Gen>, ctx: Context, ch: Oracle)
    requires WellFormed(Any(gs)) && ctx.Valid()
    ensures Within(Op(Any(gs), ctx, ch).next, Any(gs))
    decreases Size(Any(gs)), 0
  {
    hide Op, HasLeaf, WellFormed, AnyPicked, Chosen, Replaced;
    NullWithin(Any(gs));
    AnyChildren(gs);
    OpAny(gs, ctx, ch);
    var rs := OpAll(gs, ctx, ch, 1);
    var idx := Chosen(rs, Draws(ch));
    AnyPickedIs(gs, rs, Draws(ch));
    if idx != -1 {
      SizeOfMember(gs, idx);
      NextWithin(gs[idx], ctx, At(ch, idx + 1));
      PickedOk(gs, rs, idx);
      AftersSame(gs, rs);
      ReplacedWithin(gs, AftersOf(rs), idx, rs[idx].next);
      BranchWithin(Replaced(AftersOf(rs), idx, rs[idx].next), gs, 0, 0);
    }
  }

  // ----- The time limits around an answer -----

  /** Along some branch of the generator the time limits are exactly `ls`, from the outside in, and each
      has a cutoff that is set and later than `now`. */
  ghost predicate Guarded(g: Gen, ls: seq<int>, now: int)
    decreases g
  {
    ls == [] ||
    match g
    case ListGen(gs) => exists i :: 0 <= i < |gs| && Guarded(gs[i], ls, now)
    case Validate(c) => Guarded(c, ls, now)
    case OnThreads(c, _) => Guarded(c, ls, now)
    case TimeLimit(limit, cutoff, c) =>
      limit == ls[0] && cutoff != INVALID_TIME && now < cutoff && Guarded(c, ls[1..], now)
    case Stagger(_, _, c) => Guarded(c, ls, now)
    case Mix(_, gs) => exists i :: 0 <= i < |gs| && Guarded(gs[i], ls, now)
    case Any(gs) => exists i :: 0 <= i < |gs| && Guarded(gs[i], ls, now)
    case _ => false
  }

  lemma BranchGuarded(gs: seq<Gen>, idx: int, i: int, ls: seq<int>, now: int)
    requires 0 <= i < |gs| && Guarded(gs[i], ls, now)
    ensures Guarded(ListGen(gs), ls, now) && Guarded(Mix(idx, gs), ls, now) && Guarded(Any(gs), ls, now)
  {
  }

  /** The answer is an operation whose leaf leaves its time open, and the clock is not negative. */
  predicate Prompt(e: Operation, o: Operation, now: int) {
    e.Real() && o.time == 0 && now >= 0
  }

  // ----- Where an answer comes from -----

  /** The answer `e` explained by a leaf yielding `o` for the threads `sc`: with none of them free it
      is that operation turned pending, otherwise it is that operation with its blanks filled in for
      a free thread `t` that every enclosing filter accepts.  Its time is open to delay unless `exact`,
      and to delay beyond the time of the context unless `due`. */
  ghost predicate Explained(e: Operation, o: Operation, sc: set<Thread>, t: Thread, ctx: Context, exact: bool,
      due: bool)
    requires ctx.Valid()
  {
    if sc * ctx.free == {} then
      e == o.(kind := Pending)
    else
      && t in sc && t in ctx.free
      && e.payload == o.payload
      && e.kind == (if o.kind.Init? then Invoke else o.kind)
      && e.process == (if o.process == INVALID_PROCESS then ctx.workers[t] else o.process)
      && e.time >= (if o.time == 0 then ctx.time else o.time)
      && (exact ==> e.time == if o.time == 0 then ctx.time else o.time)
      && (due ==> e.time <= ctx.time || (o.time != 0 && e.time == o.time))
  }

  lemma Relaxed(e: Operation, o: Operation, sc: set<Thread>, t: Thread, ctx: Context,
                exact: bool, due: bool, exact': bool, due': bool)
    requires ctx.Valid() && Explained(e, o, sc, t, ctx, exact, due) && (exact' ==> exact) && (due' ==> due)
    ensures Explained(e, o, sc, t, ctx, exact', due')
  {
  }

  /** The threads of a leaf that are free, seen from inside and from outside a filter. */
  lemma FilterExplained(f: int -> bool, ctx: Context, e: Operation, o: Operation, sc: set<Thread>, t: Thread,
                        exact: bool, due: bool)
    requires ctx.Valid() && sc <= OnThreadsContext(f, ctx).workers.Keys
    requires Explained(e, o, sc, t, OnThreadsContext(f, ctx), exact, due)
    ensures Explained(e, o, sc, t, ctx, exact, due)
  {
    assert sc * OnThreadsContext(f, ctx).free == sc * ctx.free;
  }

  lemma FillInExplained(ctx: Context, o: Operation, draw: nat) returns (t: Thread)
    requires ctx.Valid()
    ensures Explained(FillIn(ctx, o, draw), o, ctx.workers.Keys, t, ctx, true, true)
  {
    assert ctx.workers.Keys * ctx.free == ctx.free;
    if ctx.free == {} {
      t := 0;
    } else {
      t :| t in ctx.free && ctx.workers[t] == RandomFreeProcess(ctx, draw);
    }
  }

  /** Scheduling soundness: for every nesting of combinators, an answer other than nil comes from a
      leaf of the generator, on a thread that is free and that all filters around the leaf accept;
      it is pending exactly when the leaf is, or when no thread the leaf may use is free.  If the leaf
      leaves its time open, every time limit around it has in the successor a cutoff later than now. */
  lemma {:induction false} Origin(g: Gen, ctx: Context, ch: Oracle)
    returns (o: Operation, sc: set<Thread>, t: Thread, ls: seq<int>)
    requires Ready(g) && ctx.Valid() && !Op(g, ctx, ch).op.kind.Nil?
    ensures HasLeaf(g, ctx.workers.Keys, o, sc, ls)
    ensures Prompt(Op(g, ctx, ch).op, o, ctx.time) ==> Guarded(Op(g, ctx, ch).next, ls, ctx.time)
    ensures Explained(Op(g, ctx, ch).op, o, sc, t, ctx, StaggerFree(g), Due(g, ctx.time))
    decreases Size(g), 1
  {
    if g.Null? {
      assert false;
    }
    hide Op, Explained, Inexhaustible, Copy, WriteBack, Erase;
    match g
    case OpGen(o') =>
      OpLeaf(o', ctx, ch);
      o, sc, ls := o', ctx.workers.Keys, [];
      t := FillInExplained(ctx, o, Here(ch));
    case FunGen(f) =>
      OpFun(f, ctx, ch);
      o, sc, ls := f(ctx, ch([0])), ctx.workers.Keys, [];
      t := FillInExplained(ctx, o, Here(ch));
    case ListGen(gs) => o, sc, t, ls := ListOrigin(gs, ctx, ch);
    case Validate(_) => o, sc, t, ls := WrapperOrigin(g, ctx, ch);
    case OnThreads(_, _) => o, sc, t, ls := FilterOrigin(g.gen, g.filter, ctx, ch);
    case TimeLimit(_, _, _) => o, sc, t, ls := WrapperOrigin(g, ctx, ch);
    case Stagger(_, _, _) => o, sc, t, ls := WrapperOrigin(g, ctx, ch);
    case Mix(idx, gs) => o, sc, t, ls := MixOrigin(idx, gs, ctx, ch);
    case Any(gs) => o, sc, t, ls := AnyOrigin(gs, ctx, ch);
  }

  /** A real operation that is only delayed keeps its explanation. */
  lemma DelayExplained(e: Operation, late: Operation, o: Operation, sc: set<Thread>, t: Thread, ctx: Context,
                       exact: bool, due: bool, exact': bool, due': bool)
    requires ctx.Valid() && Explained(e, o, sc, t, ctx, exact, due) && (due' ==> due)
    requires || (late == e && (exact' ==> exact))
             || (&& !exact' && e.Real() && late.time >= e.time && late == e.(time := late.time)
                 && (due' ==> late == e || late.time <= ctx.time))
    ensures Explained(late, o, sc, t, ctx, exact', due')
  {
  }

  lemma {:induction false} FilterOrigin(c: Gen, f: int -> bool, ctx: Context, ch: Oracle)
    returns (o: Operation, sc: set<Thread>, t: Thread, ls: seq<int>)
    requires WellFormed(OnThreads(c, f)) && ctx.Valid() && !Op(OnThreads(c, f), ctx, ch).op.kind.Nil?
    ensures HasLeaf(OnThreads(c, f), ctx.workers.Keys, o, sc, ls)
    ensures Prompt(Op(OnThreads(c, f), ctx, ch).op, o, ctx.time) ==>
            Guarded(Op(OnThreads(c, f), ctx, ch).next, ls, ctx.time)
    ensures Explained(Op(OnThreads(c, f), ctx, ch).op, o, sc, t, ctx,
                      StaggerFree(OnThreads(c, f)), Due(OnThreads(c, f), ctx.time))
    decreases Size(OnThreads(c, f)), 0
  {
    hide Op, Explained;
    OpOnThreads(c, f, ctx, ch);
    var inner := OnThreadsContext(f, ctx);
    o, sc, t, ls := Origin(c, inner, At(ch, 0));
    assert inner.workers.Keys == Accepted(ctx.workers.Keys, f);
    LeafWithin(c, inner.workers.Keys, o, sc, ls);
    FilterExplained(f, ctx, Op(OnThreads(c, f), ctx, ch).op, o, sc, t, StaggerFree(c), Due(c, ctx.time));
  }

  lemma WrapLeaf(g: Gen, scope: set<Thread>, o: Operation, sc: set<Thread>, ls: seq<int>)
    requires (g.Validate? || g.TimeLimit? || g.Stagger?) && HasLeaf(g.gen, scope, o, sc, ls)
    ensures HasLeaf(g, scope, o, sc, if g.TimeLimit? then [g.limit] + ls else ls)
  {
    assert g.TimeLimit? ==> ([g.limit] + ls)[1..] == ls;
  }

  lemma WrapGuarded(h: Gen, ls: seq<int>, now: int)
    requires h.Validate? || h.OnThreads? || h.TimeLimit? || h.Stagger?
    requires Guarded(h.gen, ls, now) && (h.TimeLimit? ==> h.cutoff != INVALID_TIME && now < h.cutoff)
    ensures Guarded(h, if h.TimeLimit? then [h.limit] + ls else ls, now)
  {
    assert h.TimeLimit? ==> ([h.limit] + ls)[1..] == ls;
  }

  /** What the wrappers but OnThreads make of an operation of their child. */
  lemma WrapperShape(g: Gen, ctx: Context, ch: Oracle)
    requires WellFormed(g) && ctx.Valid() && (g.Validate? || g.TimeLimit? || g.Stagger?) && Op(g, ctx, ch).op.Real()
    ensures var r, child := Op(g, ctx, ch), Op(g.gen, ctx, At(ch, 0));
            && child.op.Real()
            && (r.next.Null? ==> g.Validate? && child.next.Null?)
            && (g.Validate? && !r.next.Null? ==> r.next.Validate? && r.next.gen == child.next)
            && (g.Stagger? ==> r.next.Stagger? && r.next.gen == child.next)
            && (g.TimeLimit? ==> r.next.TimeLimit? && r.next.gen == child.next && r.next.limit == g.limit
                                 && child.op.time < r.next.cutoff)
  {
    hide Op;
    match g
    case Validate(c) => OpValidate(c, ctx, ch);
    case TimeLimit(limit, cutoff, c) => OpTimeLimit(limit, cutoff, c, ctx, ch);
    case Stagger(dt, next, c) => OpStagger(dt, next, c, ctx, ch);
  }

  lemma ExplainedTime(e: Operation, o: Operation, sc: set<Thread>, t: Thread, ctx: Context, exact: bool, due: bool)
    requires ctx.Valid() && Explained(e, o, sc, t, ctx, exact, due) && e.Real()
    ensures o.time == 0 ==> e.time >= ctx.time
  {
  }

  lemma {:induction false} WrapperOrigin(g: Gen, ctx: Context, ch: Oracle)
    returns (o: Operation, sc: set<Thread>, t: Thread, ls: seq<int>)
    requires WellFormed(g) && ctx.Valid() && (g.Validate? || g.TimeLimit? || g.Stagger?) && !Op(g, ctx, ch).op.kind.Nil?
    ensures HasLeaf(g, ctx.workers.Keys, o, sc, ls)
    ensures Prompt(Op(g, ctx, ch).op, o, ctx.time) ==> Guarded(Op(g, ctx, ch).next, ls, ctx.time)
    ensures Explained(Op(g, ctx, ch).op, o, sc, t, ctx, StaggerFree(g), Due(g, ctx.time))
    decreases Size(g), 0
  {
    hide Op, Explained, HasLeaf, Guarded;
    match g {
      case Validate(c) => OpValidate(c, ctx, ch);
      case TimeLimit(limit, cutoff, c) => OpTimeLimit(limit, cutoff, c, ctx, ch);
      case Stagger(dt, next, c) => OpStagger(dt, next, c, ctx, ch);
    }
    var r := Op(g.gen, ctx, At(ch, 0));
    o, sc, t, ls := Origin(g.gen, ctx, At(ch, 0));
    DelayExplained(r.op, Op(g, ctx, ch).op, o, sc, t, ctx,
                   StaggerFree(g.gen), Due(g.gen, ctx.time), StaggerFree(g), Due(g, ctx.time));
    WrapLeaf(g, ctx.workers.Keys, o, sc, ls);
    if Prompt(Op(g, ctx, ch).op, o, ctx.time) {
      WrapperShape(g, ctx, ch);
      ExplainedTime(r.op, o, sc, t, ctx, StaggerFree(g.gen), Due(g.gen, ctx.time));
      if !Op(g, ctx, ch).next.Null? {
        WrapGuarded(Op(g, ctx, ch).next, ls, ctx.time);
      }
    }
    ls := if g.TimeLimit? then [g.limit] + ls else ls;
  }

  lemma {:induction false} ListOrigin(gs: seq<Gen>, ctx: Context, ch: Oracle)
    returns (o: Operation, sc: set<Thread>, t: Thread, ls: seq<int>)
    requires WellFormed(ListGen(gs)) && ctx.Valid() && !Op(ListGen(gs), ctx, ch).op.kind.Nil?
    ensures HasLeaf(ListGen(gs), ctx.workers.Keys, o, sc, ls)
    ensures Prompt(Op(ListGen(gs), ctx, ch).op, o, ctx.time) ==> Guarded(Op(ListGen(gs), ctx, ch).next, ls, ctx.time)
    ensures Explained(Op(ListGen(gs), ctx, ch).op, o, sc, t, ctx,
                      StaggerFree(ListGen(gs)), Due(ListGen(gs), ctx.time))
    decreases Size(ListGen(gs)), 0
  {
    hide Op, Explained, Inexhaustible, Copy, WriteBack, Erase, HasLeaf, StaggerFree, Due, Guarded, ListKept, ListPopped;
    OpList(gs, ctx, ch);
    SizeOfMember(gs, 0);
    var r := Op(gs[0], ctx, At(ch, 0));
    if !r.op.kind.Nil? {
      o, sc, t, ls := Origin(gs[0], ctx, At(ch, 0));
      FirstLeaf(gs, ctx.workers.Keys, o, sc, ls, ctx.time);
      ListKeptGuarded(gs, r, ls, ctx.time);
      Relaxed(r.op, o, sc, t, ctx,
              StaggerFree(gs[0]), Due(gs[0], ctx.time), StaggerFree(ListGen(gs)), Due(ListGen(gs), ctx.time));
    } else {
      var rest := Popped(gs, r);
      ListPoppedIs(gs, r, rest, Op(rest, ctx, At(ch, 1)));
      o, sc, t, ls := Origin(rest, ctx, At(ch, 1));
      PoppedLeaf(gs, rest, ctx.workers.Keys, o, sc, ls);
      PoppedTimes(gs, rest, ctx.time);
      Relaxed(Op(rest, ctx, At(ch, 1)).op, o, sc, t, ctx,
              StaggerFree(rest), Due(rest, ctx.time), StaggerFree(ListGen(gs)), Due(ListGen(gs), ctx.time));
    }
  }

  lemma ListKeptGuarded(gs: seq<Gen>, r: OpResult, ls: seq<int>, now: int)
    requires |gs| > 0 && AllReady(gs) && Answer(gs[0], r)
    ensures ListKept(gs, r).op == r.op
    ensures Guarded(r.next, ls, now) ==> Guarded(ListKept(gs, r).next, ls, now)
  {
    hide Guarded, Copy, Answer, WellFormed;
    if |gs| > 1 && Guarded(r.next, ls, now) {
      BranchGuarded([r.next] + CopyAll(gs[1..]), 0, 0, ls, now);
    }
  }

  lemma FirstLeaf(gs: seq<Gen>, scope: set<Thread>, o: Operation, sc: set<Thread>, ls: seq<int>, now: int)
    requires |gs| > 0 && HasLeaf(gs[0], scope, o, sc, ls)
    ensures HasLeaf(ListGen(gs), scope, o, sc, ls)
    ensures StaggerFree(ListGen(gs)) ==> StaggerFree(gs[0])
    ensures Due(ListGen(gs), now) ==> Due(gs[0], now)
  {
  }

  lemma PoppedLeaf(gs: seq<Gen>, rest: Gen, scope: set<Thread>, o: Operation, sc: set<Thread>, ls: seq<int>)
    requires |gs| > 0 && Same(rest, ListGen(gs[1..])) && HasLeaf(rest, scope, o, sc, ls)
    ensures HasLeaf(ListGen(gs), scope, o, sc, ls)
  {
    hide HasLeaf, Same;
    SameLeaf(rest, ListGen(gs[1..]), scope, o, sc, ls);
    BranchLeaf(gs[1..], 0, scope, o, sc, ls);
    BranchLeaf(gs, 0, scope, o, sc, ls);
    var i :| 0 <= i < |gs[1..]| && HasLeaf(gs[1..][i], scope, o, sc, ls);
    assert HasLeaf(gs[i + 1], scope, o, sc, ls);
  }

  lemma PoppedTimes(gs: seq<Gen>, rest: Gen, now: int)
    requires |gs| > 0 && Same(rest, ListGen(gs[1..])) && AllReady(gs[1..]) && rest == ListGen(CopyAll(gs[1..]))
    ensures StaggerFree(ListGen(gs)) ==> StaggerFree(rest)
    ensures Due(ListGen(gs), now) ==> Due(rest, now)
  {
    hide Copy, Erase, Ready, WellFormed;
    SameStaggerFree(rest, ListGen(gs[1..]));
    if Due(ListGen(gs), now) {
      assert AllDue(gs[1..], now);
      CopyAllDue(gs[1..], now);
    }
  }

  lemma {:induction false} MixOrigin(idx: int, gs: seq<Gen>, ctx: Context, ch: Oracle)
    returns (o: Operation, sc: set<Thread>, t: Thread, ls: seq<int>)
    requires WellFormed(Mix(idx, gs)) && ctx.Valid() && !Op(Mix(idx, gs), ctx, ch).op.kind.Nil?
    ensures HasLeaf(Mix(idx, gs), ctx.workers.Keys, o, sc, ls)
    ensures Prompt(Op(Mix(idx, gs), ctx, ch).op, o, ctx.time) ==> Guarded(Op(Mix(idx, gs), ctx, ch).next, ls, ctx.time)
    ensures Explained(Op(Mix(idx, gs), ctx, ch).op, o, sc, t, ctx,
                      StaggerFree(Mix(idx, gs)), Due(Mix(idx, gs), ctx.time))
    decreases Size(Mix(idx, gs)), 0
  {
    hide Op, Explained, Inexhaustible, Copy, WriteBack, HasLeaf, Replaced;
    hide Erase, StaggerFree, Due, Guarded, MixKept, MixDropped;
    OpMix(idx, gs, ctx, ch);
    SizeOfMember(gs, idx);
    var r := Op(gs[idx], ctx, At(ch, 0));
    if r.NotNil() {
      MixKeptIs(idx, gs, r, Here(ch));
      o, sc, t, ls := Origin(gs[idx], ctx, At(ch, 0));
      if Guarded(r.next, ls, ctx.time) {
        var next := Op(Mix(idx, gs), ctx, ch).next;
        BranchGuarded(next.gens, next.idx, idx, ls, ctx.time);
      }
      BranchLeaf(gs, idx, ctx.workers.Keys, o, sc, ls);
      BranchTimes(gs, idx, idx, ctx.time);
      Relaxed(r.op, o, sc, t, ctx,
              StaggerFree(gs[idx]), Due(gs[idx], ctx.time), StaggerFree(Mix(idx, gs)), Due(Mix(idx, gs), ctx.time));
    } else {
      var rest := Remixed(idx, gs, r, Here(ch));
      MixDroppedIs(idx, gs, r, rest, Op(rest, ctx, At(ch, 1)));
      o, sc, t, ls := Origin(rest, ctx, At(ch, 1));
      DroppedLeaf(idx, gs, rest, ctx.workers.Keys, o, sc, ls);
      DroppedTimes(idx, gs, rest, ctx.time);
      Relaxed(Op(rest, ctx, At(ch, 1)).op, o, sc, t, ctx,
              StaggerFree(rest), Due(rest, ctx.time), StaggerFree(Mix(idx, gs)), Due(Mix(idx, gs), ctx.time));
    }
  }

  lemma BranchTimes(gs: seq<Gen>, idx: int, i: int, now: int)
    requires 0 <= i < |gs|
    ensures StaggerFree(Mix(idx, gs)) || StaggerFree(Any(gs)) ==> StaggerFree(gs[i])
    ensures Due(Mix(idx, gs), now) || Due(Any(gs), now) ==> Due(gs[i], now)
  {
  }

  lemma DroppedTimes(idx: int, gs: seq<Gen>, rest: Gen, now: int)
    requires 0 <= idx < |gs| && rest.Mix? && AllReady(Without(gs, idx)) && rest.gens == CopyAll(Without(gs, idx))
    requires Same(rest, Mix(rest.idx, Without(gs, idx)))
    ensures StaggerFree(Mix(idx, gs)) ==> StaggerFree(rest)
    ensures Due(Mix(idx, gs), now) ==> Due(rest, now)
  {
    hide Copy, Same, WellFormed;
    WithoutTimes(idx, rest.idx, gs, now);
    SameStaggerFree(rest, Mix(rest.idx, Without(gs, idx)));
    if Due(Mix(idx, gs), now) {
      CopyAllDue(Without(gs, idx), now);
    }
  }

  lemma WithoutTimes(idx: int, j: int, gs: seq<Gen>, now: int)
    requires 0 <= idx < |gs|
    ensures StaggerFree(Mix(idx, gs)) ==> StaggerFree(Mix(j, Without(gs, idx)))
    ensures Due(Mix(idx, gs), now) ==> AllDue(Without(gs, idx), now)
  {
    var others := Without(gs, idx);
    assert forall i | 0 <= i < |others| :: others[i] == gs[if i < idx then i else i + 1];
  }

  lemma DroppedLeaf(idx: int, gs: seq<Gen>, rest: Gen, scope: set<Thread>, o: Operation, sc: set<Thread>, ls: seq<int>)
    requires 0 <= idx < |gs| && rest.Mix? && Same(rest, Mix(rest.idx, Without(gs, idx))) &&
             HasLeaf(rest, scope, o, sc, ls)
    ensures HasLeaf(Mix(idx, gs), scope, o, sc, ls)
  {
    hide HasLeaf, Erase;
    var others := Without(gs, idx);
    assert forall i | 0 <= i < |others| :: others[i] == gs[if i < idx then i else i + 1];
    SameLeaf(rest, Mix(rest.idx, others), scope, o, sc, ls);
    BranchLeaf(others, rest.idx, scope, o, sc, ls);
    var i :| 0 <= i < |others| && HasLeaf(others[i], scope, o, sc, ls);
    BranchLeaf(gs, idx, scope, o, sc, ls);
  }

  lemma {:induction false} AnyOrigin(gs: seq<Gen>, ctx: Context, ch: Oracle)
    returns (o: Operation, sc: set<Thread>, t: Thread, ls: seq<int>)
    requires WellFormed(Any(gs)) && ctx.Valid() && !Op(Any(gs), ctx, ch).op.kind.Nil?
    ensures HasLeaf(Any(gs), ctx.workers.Keys, o, sc, ls)
    ensures Prompt(Op(Any(gs), ctx, ch).op, o, ctx.time) ==> Guarded(Op(Any(gs), ctx, ch).next, ls, ctx.time)
    ensures Explained(Op(Any(gs), ctx, ch).op, o, sc, t, ctx,
                      StaggerFree(Any(gs)), Due(Any(gs), ctx.time))
    decreases Size(Any(gs)), 0
  {
    hide Op, Explained, HasLeaf, WellFormed, Replaced, Guarded, AnyPicked, Chosen, StaggerFree, Due;
    AnyChildren(gs);
    OpAny(gs, ctx, ch);
    var rs := OpAll(gs, ctx, ch, 1);
    var idx := Chosen(rs, Draws(ch));
    AnyPickedIs(gs, rs, Draws(ch));
    SizeOfMember(gs, idx);
    o, sc, t, ls := Origin(gs[idx], ctx, At(ch, idx + 1));
    if Guarded(rs[idx].next, ls, ctx.time) {
      BranchGuarded(Replaced(AftersOf(rs), idx, rs[idx].next), 0, idx, ls, ctx.time);
    }
    BranchTimes(gs, idx, idx, ctx.time);
    Relaxed(rs[idx].op, o, sc, t, ctx,
            StaggerFree(gs[idx]), Due(gs[idx], ctx.time), StaggerFree(Any(gs)), Due(Any(gs), ctx.time));
    BranchLeaf(gs, 0, ctx.workers.Keys, o, sc, ls);
  }

  // ----- Consequences -----

  /** A leaf leaves its process open, or presets the nemesis beneath filters that admit only it. */
  ghost predicate Disciplined(g: Gen, scope: set<Thread>) {
    forall o, sc, ls | HasLeaf(g, scope, o, sc, ls) ::
      o.process == INVALID_PROCESS || (o.process == NEMESIS && forall t | t in sc :: t == NEMESIS)
  }

  /** Every leaf leaves its time open. */
  ghost predicate TimeUnset(g: Gen, scope: set<Thread>) {
    forall o, sc, ls | HasLeaf(g, scope, o, sc, ls) :: o.time == 0
  }

  /** Every leaf may use some thread, and none is pending of itself. */
  ghost predicate Schedulable(g: Gen, scope: set<Thread>) {
    forall o, sc, ls | HasLeaf(g, scope, o, sc, ls) :: sc != {} && !o.kind.Pending?
  }

  lemma WithinKeeps(a: Gen, b: Gen, scope: set<Thread>)
    requires Within(a, b)
    ensures Disciplined(b, scope) ==> Disciplined(a, scope)
    ensures TimeUnset(b, scope) ==> TimeUnset(a, scope)
    ensures Schedulable(b, scope) ==> Schedulable(a, scope)
  {
    hide HasLeaf;
    assert forall o, sc, ls | HasLeaf(a, scope, o, sc, ls) :: HasLeaf(b, scope, o, sc, ls);
  }

  /** The process of a real operation is held by a free thread, the one the leaf was filled in for. */
  lemma Sound(g: Gen, ctx: Context, ch: Oracle) returns (t: Thread, o: Operation, sc: set<Thread>, ls: seq<int>)
    requires Ready(g) && ctx.Valid() && Disciplined(g, ctx.workers.Keys)
    requires NEMESIS in ctx.workers ==> ctx.workers[NEMESIS] == NEMESIS
    requires Op(g, ctx, ch).op.Real()
    ensures t in ctx.free && ctx.workers[t] == Op(g, ctx, ch).op.process
    ensures HasLeaf(g, ctx.workers.Keys, o, sc, ls) && t in sc && o.FilledIn() == Op(g, ctx, ch).op.AsIs()
    ensures TimeUnset(g, ctx.workers.Keys) ==> Op(g, ctx, ch).op.time >= ctx.time
    ensures TimeUnset(g, ctx.workers.Keys) && ctx.time >= 0 ==> Guarded(Op(g, ctx, ch).next, ls, ctx.time)
    ensures TimeUnset(g, ctx.workers.Keys) && (StaggerFree(g) || Due(g, ctx.time)) ==>
            Op(g, ctx, ch).op.time == ctx.time
  {
    hide Op, Guarded;
    o, sc, t, ls := Origin(g, ctx, ch);
  }

  /** A pending answer means that some thread is busy: waiting for a completion is not in vain. */
  lemma PendingMeansBusy(g: Gen, ctx: Context, ch: Oracle)
    requires Ready(g) && ctx.Valid() && Schedulable(g, ctx.workers.Keys)
    requires Op(g, ctx, ch).op.kind.Pending?
    ensures ctx.workers.Keys - ctx.free != {}
  {
    hide Op;
    var o, sc, t, ls := Origin(g, ctx, ch);
    LeafWithin(g, ctx.workers.Keys, o, sc, ls);
    var u :| u in sc;
    assert u !in sc * ctx.free;
    assert u in ctx.workers.Keys - ctx.free;
  }

  /** Client generators never reach the nemesis, however they are nested, nor the reverse. */
  lemma FiltersRespected(g: Gen, f: int -> bool, ctx: Context, ch: Oracle)
    requires Ready(g) && ctx.Valid() && Disciplined(OnThreads(g, f), ctx.workers.Keys)
    requires NEMESIS in ctx.workers ==> ctx.workers[NEMESIS] == NEMESIS
    requires Op(OnThreads(g, f), ctx, ch).op.Real()
    ensures exists t :: t in ctx.free && f(t) && ctx.workers[t] == Op(OnThreads(g, f), ctx, ch).op.process
  {
    hide Op;
    var t, o, sc, ls := Sound(OnThreads(g, f), ctx, ch);
    LeafWithin(g, Accepted(ctx.workers.Keys, f), o, sc, ls);
    assert t in ctx.free && f(t);
  }

  /** Without the discipline the answer may name a busy process: filling in keeps a preset process
      unseen, so the result is held by a free thread exactly when the preset one is, or none was preset. */
  lemma FillInNamesFreeIff(ctx: Context, o: Operation, draw: nat)
    requires ctx.Valid() && FillIn(ctx, o, draw).Real()
    ensures (exists t :: t in ctx.free && ctx.workers[t] == FillIn(ctx, o, draw).process) <==>
            o.process == INVALID_PROCESS || exists t :: t in ctx.free && ctx.workers[t] == o.process
  {
    var t := FillInExplained(ctx, o, draw);
  }

  /** A concrete case: thread 0 is busy, thread 1 is free, and process 0 is handed out again. */
  lemma PresetProcessMayBeBusy(ch: Oracle)
    ensures var ctx := Context(5, ClientThreads(2) - ClientThreads(1), map t | t in ClientThreads(2) :: t);
            var g := OpGen(Operation(Invoke, "read", 0, 0));
            && ctx.Valid() && Op(g, ctx, ch).op.Real()
            && Op(g, ctx, ch).op.process == 0 && 0 !in ctx.free
  {
    var ctx := Context(5, ClientThreads(2) - ClientThreads(1), map t | t in ClientThreads(2) :: t);
    var o := Operation(Invoke, "read", 0, 0);
    OpLeaf(o, ctx, ch);
    assert 1 in ctx.free;
    var t := FillInExplained(ctx, o, Here(ch));
    assert 1 in ctx.workers.Keys * ctx.free;
  }
}
