/** What Stagger does to an answer, and what its absence guarantees
    (src/jepsen/generator/Generator.cpp, lines 326 to 355). */
module Staggering {
  import opened Operations
  import opened Contexts
  import opened Generators
  import opened Evaluation

  /** Stagger changes at most the time of an operation, only upwards, and not at all exactly when the
      operation is already due; an unset next time never delays what is offered for now or later. */
  lemma StaggerOnlyDelays(dt: int, next: int, c: Gen, ctx: Context, ch: Oracle)
    requires WellFormed(Stagger(dt, next, c)) && ctx.Valid() && Op(c, ctx, At(ch, 0)).NotNil()
    requires Op(c, ctx, At(ch, 0)).op.Real()
    ensures var e, o := Op(Stagger(dt, next, c), ctx, ch).op, Op(c, ctx, At(ch, 0)).op;
            && e.(time := o.time) == o && e.time >= o.time
            && (e == o <==> (if next == INVALID_TIME then ctx.time else next) <= o.time)
            && (next == INVALID_TIME && o.time >= ctx.time ==> e == o)
  {
    hide Op;
    OpStagger(dt, next, c, ctx, ch);
  }

  // ----- Successors of generators without Stagger -----

  ghost predicate AllStaggerFree(gs: seq<Gen>) {
    forall i | 0 <= i < |gs| :: StaggerFree(gs[i])
  }

  lemma SameAllStaggerFree(xs: seq<Gen>, ys: seq<Gen>)
    requires SameAll(xs, ys) && AllStaggerFree(ys)
    ensures AllStaggerFree(xs)
  {
    forall i | 0 <= i < |xs| ensures StaggerFree(xs[i]) {
      SameStaggerFree(xs[i], ys[i]);
    }
  }

  /** No answer brings a Stagger into a generator that has none. */
  lemma {:induction false} NextStaggerFree(g: Gen, ctx: Context, ch: Oracle)
    requires Ready(g) && ctx.Valid() && StaggerFree(g)
    ensures StaggerFree(Op(g, ctx, ch).next)
    decreases Size(g), 1
  {
    match g
    case Null =>
    case OpGen(_) =>
    case FunGen(_) =>
    case ListGen(gs) => ListStaggerFree(gs, ctx, ch);
    case Validate(c) =>
      NextStaggerFree(c, ctx, At(ch, 0));
      WrapperStaggerFree(g, ctx, ch);
    case OnThreads(c, f) =>
      NextStaggerFree(c, OnThreadsContext(f, ctx), At(ch, 0));
      WrapperStaggerFree(g, ctx, ch);
    case TimeLimit(_, _, c) =>
      NextStaggerFree(c, ctx, At(ch, 0));
      WrapperStaggerFree(g, ctx, ch);
    case Mix(idx, gs) => MixStaggerFree(idx, gs, ctx, ch);
    case Any(gs) => AnyStaggerFree(gs, ctx, ch);
  }

  lemma WrapperStaggerFree(g: Gen, ctx: Context, ch: Oracle)
    requires WellFormed(g) && ctx.Valid() && (g.Validate? || g.OnThreads? || g.TimeLimit?)
    requires StaggerFree(Op(g.gen, if g.OnThreads? then OnThreadsContext(g.filter, ctx) else ctx, At(ch, 0)).next)
    ensures StaggerFree(Op(g, ctx, ch).next)
  {
    hide Op;
    match g
    case Validate(c) => OpValidate(c, ctx, ch);
    case OnThreads(c, f) => OpOnThreads(c, f, ctx, ch);
    case TimeLimit(limit, cutoff, c) => OpTimeLimit(limit, cutoff, c, ctx, ch);
  }

  lemma {:induction false} ListStaggerFree(gs: seq<Gen>, ctx: Context, ch: Oracle)
    requires WellFormed(ListGen(gs)) && ctx.Valid() && StaggerFree(ListGen(gs))
    ensures StaggerFree(Op(ListGen(gs), ctx, ch).next)
    decreases Size(ListGen(gs)), 0
  {
    hide Op, Copy, WriteBack, Inexhaustible, Erase, ListPopped;
    OpList(gs, ctx, ch);
    SizeOfMember(gs, 0);
    NextStaggerFree(gs[0], ctx, At(ch, 0));
    var r := Op(gs[0], ctx, At(ch, 0));
    CopySameAll(gs[1..]);
    SameAllStaggerFree(CopyAll(gs[1..]), gs[1..]);
    if r.op.kind.Nil? && |gs| > 1 {
      NextStaggerFree(Popped(gs, r), ctx, At(ch, 1));
      ListPoppedIs(gs, r, Popped(gs, r), Op(Popped(gs, r), ctx, At(ch, 1)));
    }
  }

  lemma ReplacedStaggerFree(gs: seq<Gen>, idx: int, g: Gen)
    requires AllWellFormed(gs) && 0 <= idx < |gs| && WellFormed(g) && AllStaggerFree(gs) && StaggerFree(g)
    ensures AllStaggerFree(Replaced(gs, idx, g))
  {
    CopyAllFaithful(gs);
  }

  lemma WithoutStaggerFree(idx: int, j: int, gs: seq<Gen>)
    requires 0 <= idx < |gs| && StaggerFree(Mix(idx, gs))
    ensures StaggerFree(Mix(j, Without(gs, idx)))
  {
    var others := Without(gs, idx);
    assert forall i | 0 <= i < |others| :: others[i] == gs[if i < idx then i else i + 1];
  }

  lemma {:induction false} MixStaggerFree(idx: int, gs: seq<Gen>, ctx: Context, ch: Oracle)
    requires WellFormed(Mix(idx, gs)) && ctx.Valid() && StaggerFree(Mix(idx, gs))
    ensures StaggerFree(Op(Mix(idx, gs), ctx, ch).next)
    decreases Size(Mix(idx, gs)), 0
  {
    hide Op, Inexhaustible, Copy, WriteBack, Erase, MixKept, MixDropped, Replaced;
    OpMix(idx, gs, ctx, ch);
    SizeOfMember(gs, idx);
    NextStaggerFree(gs[idx], ctx, At(ch, 0));
    var r := Op(gs[idx], ctx, At(ch, 0));
    if r.NotNil() {
      MixKeptIs(idx, gs, r, Here(ch));
      ReplacedStaggerFree(gs, idx, r.next);
    } else {
      var rest := Remixed(idx, gs, r, Here(ch));
      WithoutStaggerFree(idx, rest.idx, gs);
      SameStaggerFree(rest, Mix(rest.idx, Without(gs, idx)));
      NextStaggerFree(rest, ctx, At(ch, 1));
      MixDroppedIs(idx, gs, r, rest, Op(rest, ctx, At(ch, 1)));
    }
  }

  lemma {:induction false} AnyStaggerFree(gs: seq<Gen>, ctx: Context, ch: Oracle)
    requires WellFormed(Any(gs)) && ctx.Valid() && StaggerFree(Any(gs))
    ensures StaggerFree(Op(Any(gs), ctx, ch).next)
    decreases Size(Any(gs)), 0
  {
    hide Op, WellFormed, AnyPicked, Chosen, Replaced;
    AnyChildren(gs);
    OpAny(gs, ctx, ch);
    var rs := OpAll(gs, ctx, ch, 1);
    var idx := Chosen(rs, Draws(ch));
    AnyPickedIs(gs, rs, Draws(ch));
    if idx != -1 {
      SizeOfMember(gs, idx);
      NextStaggerFree(gs[idx], ctx, At(ch, idx + 1));
      PickedOk(gs, rs, idx);
      AftersSame(gs, rs);
      SameAllStaggerFree(AftersOf(rs), gs);
      ReplacedStaggerFree(AftersOf(rs), idx, rs[idx].next);
    }
  }
}
