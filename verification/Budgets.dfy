/** How many operations a generator without functions can still hand out, for every nesting of the
    other combinators. */
module Budgets {
  import opened Operations
  import opened Contexts
  import opened Generators
  import opened Evaluation

  /** No functions, and no Mix, which never ends. */
  ghost predicate Finite(g: Gen) {
    match g
    case FunGen(_) => false
    case ListGen(gs) => forall i | 0 <= i < |gs| :: Finite(gs[i])
    case Validate(c) => Finite(c)
    case OnThreads(c, _) => Finite(c)
    case TimeLimit(_, _, c) => Finite(c)
    case Stagger(_, _, c) => Finite(c)
    case Mix(_, _) => false
    case Any(gs) => forall i | 0 <= i < |gs| :: Finite(gs[i])
    case _ => true
  }

  ghost predicate AllFinite(gs: seq<Gen>) {
    forall i | 0 <= i < |gs| :: Finite(gs[i])
  }

  /** The number of operations it holds. */
  ghost function Budget(g: Gen): nat {
    match g
    case OpGen(_) => 1
    case ListGen(gs) => BudgetAll(gs)
    case Validate(c) => Budget(c)
    case OnThreads(c, _) => Budget(c)
    case TimeLimit(_, _, c) => Budget(c)
    case Stagger(_, _, c) => Budget(c)
    case Any(gs) => BudgetAll(gs)
    case _ => 0
  }

  ghost function BudgetAll(gs: seq<Gen>): nat {
    if |gs| == 0 then 0 else Budget(gs[0]) + BudgetAll(gs[1..])
  }

  // ----- Erasure keeps budgets -----

  lemma {:induction false} EraseBudget(g: Gen)
    ensures Budget(Erase(g)) == Budget(g) && Finite(Erase(g)) == Finite(g)
  {
    match g
    case Null =>
    case OpGen(_) =>
    case FunGen(_) =>
    case ListGen(gs) => EraseBudgetAll(gs);
    case Validate(c) => EraseBudget(c);
    case OnThreads(c, _) => EraseBudget(c);
    case TimeLimit(_, _, c) => EraseBudget(c);
    case Stagger(_, _, c) => EraseBudget(c);
    case Mix(_, _) =>
    case Any(gs) => EraseBudgetAll(gs);
  }

  lemma {:induction false} EraseBudgetAll(gs: seq<Gen>)
    ensures BudgetAll(EraseAll(gs)) == BudgetAll(gs)
    ensures forall i | 0 <= i < |gs| :: Finite(EraseAll(gs)[i]) == Finite(gs[i])
  {
    if |gs| > 0 {
      EraseBudget(gs[0]);
      EraseBudgetAll(gs[1..]);
      assert EraseAll(gs)[1..] == EraseAll(gs[1..]);
      forall i | 0 < i < |gs| ensures Finite(EraseAll(gs)[i]) == Finite(gs[i]) {
        assert gs[i] == gs[1..][i - 1] && EraseAll(gs)[i] == EraseAll(gs[1..])[i - 1];
      }
    }
  }

  lemma SameBudget(a: Gen, b: Gen)
    requires Same(a, b)
    ensures Budget(a) == Budget(b) && Finite(a) == Finite(b)
  {
    EraseBudget(a);
    EraseBudget(b);
  }

  lemma SameBudgetAll(xs: seq<Gen>, ys: seq<Gen>)
    requires SameAll(xs, ys)
    ensures BudgetAll(xs) == BudgetAll(ys) && AllFinite(xs) == AllFinite(ys)
  {
    SameAllErase(xs, ys);
    EraseBudgetAll(xs);
    EraseBudgetAll(ys);
    forall i | 0 <= i < |xs| ensures Finite(xs[i]) == Finite(ys[i]) {
      SameBudget(xs[i], ys[i]);
    }
  }

  /** Replacing one child changes the sum by the difference. */
  lemma {:induction false} BudgetReplaced(gs: seq<Gen>, idx: nat, g: Gen)
    requires idx < |gs|
    ensures BudgetAll(gs[idx := g]) == BudgetAll(gs) - Budget(gs[idx]) + Budget(g)
  {
    hide Budget;
    if idx == 0 {
      assert gs[0 := g][1..] == gs[1..];
    } else {
      BudgetReplaced(gs[1..], idx - 1, g);
      assert gs[idx := g][1..] == gs[1..][idx - 1 := g];
    }
  }

  // ----- Every operation is paid for -----

  /** The successor is finite and holds no more; it holds less if an operation was offered. */
  ghost predicate Spends(g: Gen, r: OpResult) {
    && Finite(r.next) && Budget(r.next) <= Budget(g)
    && (r.op.Real() ==> Budget(r.next) < Budget(g))
  }

  lemma {:induction false} OpSpends(g: Gen, ctx: Context, ch: Oracle)
    requires Ready(g) && ctx.Valid() && Finite(g)
    ensures Spends(g, Op(g, ctx, ch))
    decreases Size(g), 1
  {
    match g
    case Null =>
    case OpGen(o) => OpLeaf(o, ctx, ch);
    case ListGen(gs) => ListSpends(gs, ctx, ch);
    case Validate(c) =>
      OpSpends(c, ctx, At(ch, 0));
      WrapperSpends(g, ctx, ch);
    case OnThreads(c, f) =>
      OpSpends(c, OnThreadsContext(f, ctx), At(ch, 0));
      WrapperSpends(g, ctx, ch);
    case TimeLimit(_, _, c) =>
      OpSpends(c, ctx, At(ch, 0));
      WrapperSpends(g, ctx, ch);
    case Stagger(_, _, c) =>
      OpSpends(c, ctx, At(ch, 0));
      WrapperSpends(g, ctx, ch);
    case Any(gs) => AnySpends(gs, ctx, ch);
  }

  lemma WrapperSpends(g: Gen, ctx: Context, ch: Oracle)
    requires WellFormed(g) && ctx.Valid() && Finite(g) && (g.Validate? || g.OnThreads? || g.TimeLimit? || g.Stagger?)
    requires Spends(g.gen, Op(g.gen, if g.OnThreads? then OnThreadsContext(g.filter, ctx) else ctx, At(ch, 0)))
    ensures Spends(g, Op(g, ctx, ch))
  {
    hide Op;
    match g
    case Validate(c) => OpValidate(c, ctx, ch);
    case OnThreads(c, f) => OpOnThreads(c, f, ctx, ch);
    case TimeLimit(limit, cutoff, c) => OpTimeLimit(limit, cutoff, c, ctx, ch);
    case Stagger(dt, due, c) =>
      OpStagger(dt, due, c, ctx, ch);
      SameBudget(Op(c, ctx, At(ch, 0)).after, c);
  }

  lemma ListKeptSpends(gs: seq<Gen>, r: OpResult)
    requires |gs| > 0 && AllReady(gs) && AllFinite(gs) && Answer(gs[0], r) && !r.op.kind.Nil? && Spends(gs[0], r)
    ensures Spends(ListGen(gs), ListKept(gs, r))
  {
    hide Copy, Erase, Inexhaustible, WellFormed;
    BudgetFirst(gs);
    if |gs| > 1 {
      var tail := CopyAll(gs[1..]);
      CopySameAll(gs[1..]);
      SameBudgetAll(tail, gs[1..]);
      var next := [r.next] + tail;
      assert next[1..] == tail;
      BudgetFirst(next);
      assert AllFinite(next);
    }
  }

  lemma BudgetFirst(gs: seq<Gen>)
    requires |gs| > 0
    ensures Budget(ListGen(gs)) == Budget(gs[0]) + Budget(ListGen(gs[1..]))
    ensures Budget(ListGen(gs[1..])) == BudgetAll(gs[1..])
    ensures |gs| == 1 ==> Budget(ListGen(gs)) == Budget(gs[0])
  {
  }

  lemma {:induction false} ListSpends(gs: seq<Gen>, ctx: Context, ch: Oracle)
    requires WellFormed(ListGen(gs)) && ctx.Valid() && Finite(ListGen(gs))
    ensures Spends(ListGen(gs), Op(ListGen(gs), ctx, ch))
    decreases Size(ListGen(gs)), 0
  {
    hide Op, Copy, WriteBack, Inexhaustible;
    OpList(gs, ctx, ch);
    SizeOfMember(gs, 0);
    OpSpends(gs[0], ctx, At(ch, 0));
    var r := Op(gs[0], ctx, At(ch, 0));
    if !r.op.kind.Nil? {
      ListKeptSpends(gs, r);
    } else if |gs| > 1 {
      var rest := Popped(gs, r);
      SameBudget(rest, ListGen(gs[1..]));
      BudgetFirst(gs);
      OpSpends(rest, ctx, At(ch, 1));
    }
  }

  lemma {:induction false} AnySpends(gs: seq<Gen>, ctx: Context, ch: Oracle)
    requires WellFormed(Any(gs)) && ctx.Valid() && Finite(Any(gs))
    ensures Spends(Any(gs), Op(Any(gs), ctx, ch))
    decreases Size(Any(gs)), 0
  {
    hide Op, WellFormed, AnyPicked, Spends;
    AnyChildren(gs);
    OpAny(gs, ctx, ch);
    var rs := OpAll(gs, ctx, ch, 1);
    forall i | 0 <= i < |gs| ensures Spends(gs[i], rs[i]) {
      SizeOfMember(gs, i);
      OpSpends(gs[i], ctx, At(ch, i + 1));
    }
    AnyPickedSpends(gs, rs, Draws(ch));
  }

  lemma AnyPickedSpends(gs: seq<Gen>, rs: seq<OpResult>, draws: nat -> nat)
    requires AllWellFormed(gs) && Answers(gs, rs) && AllFinite(gs) && forall i | 0 <= i < |gs| :: Spends(gs[i], rs[i])
    ensures Spends(Any(gs), AnyPicked(gs, rs, draws))
  {
    hide WellFormed, AnyPicked, Chosen, Replaced, Answer, Same, Finite;
    var idx := Chosen(rs, draws);
    AnyPickedIs(gs, rs, draws);
    NullFinite();
    if idx != -1 {
      AftersSame(gs, rs);
      PickedSpends(gs, AftersOf(rs), idx, rs[idx]);
    }
  }

  lemma NullFinite()
    ensures Finite(Null) && Budget(Null) == 0
  {
  }

  lemma PickedSpends(gs: seq<Gen>, afters: seq<Gen>, idx: nat, r: OpResult)
    requires AllWellFormed(afters) && SameAll(afters, gs) && idx < |gs| && WellFormed(r.next)
    requires AllFinite(gs) && Spends(gs[idx], r)
    ensures Spends(Any(gs), OpResult(r.op, Any(Replaced(afters, idx, r.next)), r.after))
  {
    hide Copy, Erase, Inexhaustible, WellFormed;
    CopySameAll(afters);
    var copies := CopyAll(afters);
    SameBudgetAll(afters, gs);
    SameBudgetAll(copies, afters);
    SameBudget(copies[idx], afters[idx]);
    SameBudget(afters[idx], gs[idx]);
    BudgetReplaced(copies, idx, r.next);
    assert AllFinite(copies[idx := r.next]);
  }
}
