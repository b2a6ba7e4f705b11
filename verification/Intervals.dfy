/** The interval of a Stagger has no effect: tests that agree but for intervals have the same runs
    (src/jepsen/generator/Generator.h, lines 180 to 182). */
module Intervals {
  import opened Operations
  import opened Contexts
  import opened Selection
  import opened Generators
  import opened Evaluation
  import opened Workers
  import opened Scheduling
  import opened Protocol
  import opened SchedulerSteps
  import opened Runs
  import opened Safety
  import opened Effects

  /** The generator with every interval set to one. */
  ghost function Even(g: Gen): (e: Gen)
    ensures e.Null? == g.Null?
  {
    match g
    case ListGen(gs) => ListGen(EvenAll(gs))
    case Validate(c) => Validate(Even(c))
    case OnThreads(c, f) => OnThreads(Even(c), f)
    case TimeLimit(l, cutoff, c) => TimeLimit(l, cutoff, Even(c))
    case Stagger(_, next, c) => Stagger(1, next, Even(c))
    case Mix(idx, gs) => Mix(idx, EvenAll(gs))
    case Any(gs) => Any(EvenAll(gs))
    case _ => g
  }

  ghost function EvenAll(gs: seq<Gen>): (es: seq<Gen>)
    ensures |es| == |gs| && forall i | 0 <= i < |gs| :: es[i] == Even(gs[i])
  {
    if |gs| == 0 then [] else [Even(gs[0])] + EvenAll(gs[1..])
  }

  lemma EvenAllConcat(a: seq<Gen>, b: seq<Gen>)
    ensures EvenAll(a + b) == EvenAll(a) + EvenAll(b)
  {
    hide Even;
  }

  lemma EvenAllSlice(gs: seq<Gen>, i: int)
    requires 0 <= i <= |gs|
    ensures EvenAll(gs[..i]) == EvenAll(gs)[..i] && EvenAll(gs[i..]) == EvenAll(gs)[i..]
  {
    hide Even, EvenAll;
    var a, b := gs[..i], gs[i..];
    assert gs == a + b;
    EvenAllConcat(a, b);
    assert |EvenAll(a)| == i;
  }

  // ----- Even generators are as good -----

  lemma {:induction false} EvenInexhaustible(g: Gen)
    ensures Inexhaustible(Even(g)) == Inexhaustible(g)
    decreases g, 0
  {
    match g
    case Null =>
    case OpGen(_) =>
    case FunGen(_) =>
    case ListGen(gs) => EvenSomeInexhaustible(gs);
    case Validate(c) => EvenInexhaustible(c);
    case OnThreads(c, _) => EvenInexhaustible(c);
    case TimeLimit(_, _, _) =>
    case Stagger(_, _, c) => EvenInexhaustible(c);
    case Mix(_, gs) => EvenSomeInexhaustible(gs);
    case Any(gs) => EvenSomeInexhaustible(gs);
  }

  lemma {:induction false} EvenSomeInexhaustible(gs: seq<Gen>)
    ensures SomeInexhaustible(EvenAll(gs)) == SomeInexhaustible(gs)
    decreases gs, 0
  {
    hide Even;
    forall i | 0 <= i < |gs| ensures Inexhaustible(EvenAll(gs)[i]) == Inexhaustible(gs[i]) {
      EvenInexhaustible(gs[i]);
    }
    if SomeInexhaustible(gs) {
      var i :| 0 <= i < |gs| && Inexhaustible(gs[i]);
      assert Inexhaustible(EvenAll(gs)[i]);
    }
  }

  lemma {:induction false} EvenReady(g: Gen)
    requires Ready(g)
    ensures Ready(Even(g))
    decreases g, 0
  {
    hide Inexhaustible, SomeInexhaustible;
    match g
    case Null =>
    case OpGen(_) =>
    case FunGen(_) =>
    case ListGen(gs) => EvenAllReady(gs);
    case Validate(c) => EvenReady(c);
    case OnThreads(c, _) => EvenReady(c);
    case TimeLimit(_, _, c) => EvenReady(c);
    case Stagger(_, _, c) => EvenReady(c);
    case Mix(_, gs) =>
      EvenAllReady(gs);
      EvenSomeInexhaustible(gs);
    case Any(gs) => EvenAllReady(gs);
  }

  lemma {:induction false} EvenAllReady(gs: seq<Gen>)
    requires AllReady(gs)
    ensures AllReady(EvenAll(gs))
    ensures AllWellFormed(gs) ==> AllWellFormed(EvenAll(gs))
    decreases gs, 0
  {
    hide Even, WellFormed;
    forall i | 0 <= i < |gs| ensures Ready(EvenAll(gs)[i]) {
      EvenReady(gs[i]);
    }
  }

  // ----- Copy, update and write back -----

  lemma {:induction false} CopyEven(g: Gen)
    requires Ready(g) && Ready(Even(g))
    ensures Copy(Even(g)) == Even(Copy(g))
    decreases g, 0
  {
    match g
    case Null =>
    case OpGen(_) =>
    case FunGen(_) =>
    case ListGen(gs) => CopyAllEven(gs);
    case Validate(c) => CopyEven(c);
    case OnThreads(c, _) => CopyEven(c);
    case TimeLimit(_, _, c) => CopyEven(c);
    case Stagger(_, _, c) => CopyEven(c);
    case Mix(_, _) =>
    case Any(gs) => CopyAllEven(gs);
  }

  lemma {:induction false} CopyAllEven(gs: seq<Gen>)
    requires AllReady(gs) && AllReady(EvenAll(gs))
    ensures CopyAll(EvenAll(gs)) == EvenAll(CopyAll(gs))
    decreases gs, 0
  {
    hide Even, Copy, WellFormed;
    forall i | 0 <= i < |gs| ensures CopyAll(EvenAll(gs))[i] == EvenAll(CopyAll(gs))[i] {
      CopyEven(gs[i]);
    }
  }

  lemma {:induction false} UpdateEven(g: Gen, ctx: Context, event: Operation)
    requires Ready(g) && Ready(Even(g))
    ensures Update(Even(g), ctx, event) == Even(Update(g, ctx, event))
    decreases g, 0
  {
    match g
    case Null =>
    case OpGen(_) =>
    case FunGen(_) =>
    case ListGen(gs) => UpdateListEven(gs, ctx, event);
    case Validate(c) => UpdateEven(c, ctx, event);
    case OnThreads(c, f) => UpdateEven(c, OnThreadsContext(f, ctx), event);
    case TimeLimit(_, _, c) => UpdateEven(c, ctx, event);
    case Stagger(_, _, c) => UpdateEven(c, ctx, event);
    case Mix(_, _) =>
    case Any(gs) =>
      forall i | 0 <= i < |gs| ensures UpdateAll(EvenAll(gs), ctx, event)[i] == EvenAll(UpdateAll(gs, ctx, event))[i] {
        UpdateEven(gs[i], ctx, event);
      }
      assert UpdateAll(EvenAll(gs), ctx, event) == EvenAll(UpdateAll(gs, ctx, event));
  }

  lemma {:induction false} UpdateListEven(gs: seq<Gen>, ctx: Context, event: Operation)
    requires WellFormed(ListGen(gs)) && WellFormed(ListGen(EvenAll(gs)))
    ensures Update(ListGen(EvenAll(gs)), ctx, event) == Even(Update(ListGen(gs), ctx, event))
    decreases gs, 0
  {
    UpdateEven(gs[0], ctx, event);
    EvenAllSlice(gs, 1);
    CopyAllEven(gs[1..]);
    EvenAllConcat([Update(gs[0], ctx, event)], CopyAll(gs[1..]));
    assert EvenAll([Update(gs[0], ctx, event)]) == [Even(Update(gs[0], ctx, event))];
  }

  lemma {:induction false} WriteBackEven(g: Gen, after: Gen)
    requires Same(after, g)
    ensures WriteBack(Even(g), Even(after)) == Even(WriteBack(g, after))
    decreases g, 0
  {
    hide EvenAll, WriteBackAll, EraseAll;
    match g
    case Null =>
    case OpGen(_) =>
    case FunGen(_) =>
    case ListGen(gs) => WriteBackAllEven(gs, after.gens);
    case Validate(c) => WriteBackEven(c, after.gen);
    case OnThreads(c, _) => WriteBackEven(c, after.gen);
    case TimeLimit(_, _, c) => WriteBackEven(c, after.gen);
    case Stagger(_, _, c) => WriteBackEven(c, after.gen);
    case Mix(_, _) =>
    case Any(gs) => WriteBackAllEven(gs, after.gens);
  }

  lemma {:induction false} WriteBackAllEven(gs: seq<Gen>, afters: seq<Gen>)
    requires EraseAll(afters) == EraseAll(gs)
    ensures WriteBackAll(EvenAll(gs), EvenAll(afters)) == EvenAll(WriteBackAll(gs, afters))
    decreases gs, 0
  {
    hide Even, WriteBack, Erase;
    SameAllErase(afters, gs);
    forall i | 0 <= i < |gs|
      ensures WriteBackAll(EvenAll(gs), EvenAll(afters))[i] == EvenAll(WriteBackAll(gs, afters))[i]
    {
      assert Same(afters[i], gs[i]);
      WriteBackEven(gs[i], afters[i]);
    }
  }

  // ----- Asking -----

  ghost function EvenResult(r: OpResult): OpResult {
    OpResult(r.op, Even(r.next), Even(r.after))
  }

  /** Asking the even generator gives the same operation, and the even successor and receiver. */
  lemma {:induction false} OpEven(g: Gen, ctx: Context, ch: Oracle)
    requires Ready(g) && Ready(Even(g)) && ctx.Valid()
    ensures Op(Even(g), ctx, ch) == EvenResult(Op(g, ctx, ch))
    decreases Size(g), 1
  {
    match g
    case Null =>
    case OpGen(_) =>
    case FunGen(f) => FunEven(f, ctx, ch);
    case ListGen(gs) => ListEven(gs, ctx, ch);
    case Validate(c) =>
      OpEven(c, ctx, At(ch, 0));
      ValidateEven(c, ctx, ch);
    case OnThreads(c, f) =>
      OpEven(c, OnThreadsContext(f, ctx), At(ch, 0));
      OnThreadsEven(c, f, ctx, ch);
    case TimeLimit(limit, cutoff, c) =>
      OpEven(c, ctx, At(ch, 0));
      TimeLimitEven(limit, cutoff, c, ctx, ch);
    case Stagger(dt, due, c) =>
      OpEven(c, ctx, At(ch, 0));
      StaggerEven(dt, due, c, ctx, ch);
    case Mix(idx, gs) => MixEven(idx, gs, ctx, ch);
    case Any(gs) => AnyEven(gs, ctx, ch);
  }

  lemma FunEven(f: (Context, nat) -> Operation, ctx: Context, ch: Oracle)
    requires WellFormed(FunGen(f)) && ctx.Valid()
    ensures Op(FunGen(f), ctx, ch) == EvenResult(Op(FunGen(f), ctx, ch))
  {
    hide Op;
    OpFun(f, ctx, ch);
    var gs := Op(FunGen(f), ctx, ch).next.gens;
    assert EvenAll(gs) == gs;
  }

  /** The answer of the child, asked in `c`. */
  ghost predicate ChildEven(g: Gen, c: Context, ch: Oracle) {
    Ready(g) && Ready(Even(g)) && c.Valid() && Op(Even(g), c, ch) == EvenResult(Op(g, c, ch))
  }

  lemma ValidateEven(c: Gen, ctx: Context, ch: Oracle)
    requires WellFormed(Validate(c)) && WellFormed(Validate(Even(c))) && ctx.Valid() && ChildEven(c, ctx, At(ch, 0))
    ensures Op(Validate(Even(c)), ctx, ch) == EvenResult(Op(Validate(c), ctx, ch))
  {
    hide Op, WellFormed;
    OpValidate(c, ctx, ch);
    OpValidate(Even(c), ctx, ch);
  }

  lemma OnThreadsEven(c: Gen, f: int -> bool, ctx: Context, ch: Oracle)
    requires WellFormed(OnThreads(c, f)) && WellFormed(OnThreads(Even(c), f)) && ctx.Valid()
    requires ChildEven(c, OnThreadsContext(f, ctx), At(ch, 0))
    ensures Op(OnThreads(Even(c), f), ctx, ch) == EvenResult(Op(OnThreads(c, f), ctx, ch))
  {
    hide Op, WellFormed;
    OpOnThreads(c, f, ctx, ch);
    OpOnThreads(Even(c), f, ctx, ch);
  }

  lemma TimeLimitEven(limit: int, cutoff: int, c: Gen, ctx: Context, ch: Oracle)
    requires WellFormed(TimeLimit(limit, cutoff, c)) && WellFormed(TimeLimit(limit, cutoff, Even(c))) && ctx.Valid()
    requires ChildEven(c, ctx, At(ch, 0))
    ensures Op(TimeLimit(limit, cutoff, Even(c)), ctx, ch) == EvenResult(Op(TimeLimit(limit, cutoff, c), ctx, ch))
  {
    hide Op, WellFormed;
    OpTimeLimit(limit, cutoff, c, ctx, ch);
    OpTimeLimit(limit, cutoff, Even(c), ctx, ch);
  }

  lemma StaggerEven(dt: int, due: int, c: Gen, ctx: Context, ch: Oracle)
    requires WellFormed(Stagger(dt, due, c)) && WellFormed(Stagger(1, due, Even(c))) && ctx.Valid()
    requires ChildEven(c, ctx, At(ch, 0))
    ensures Op(Stagger(1, due, Even(c)), ctx, ch) == EvenResult(Op(Stagger(dt, due, c), ctx, ch))
  {
    hide Op, WellFormed;
    OpStagger(dt, due, c, ctx, ch);
    OpStagger(1, due, Even(c), ctx, ch);
  }

  lemma ListKeptEven(gs: seq<Gen>, r: OpResult)
    requires |gs| > 0 && AllReady(gs) && AllReady(EvenAll(gs)) && Answer(gs[0], r) && Answer(Even(gs[0]), EvenResult(r))
    ensures ListKept(EvenAll(gs), EvenResult(r)) == EvenResult(ListKept(gs, r))
  {
    hide Copy, WellFormed, Erase, Inexhaustible;
    assert EvenAll(gs[0 := r.after]) == EvenAll(gs)[0 := Even(r.after)];
    if |gs| > 1 {
      EvenAllSlice(gs, 1);
      CopyAllEven(gs[1..]);
      EvenAllConcat([r.next], CopyAll(gs[1..]));
      assert EvenAll([r.next]) == [Even(r.next)];
    }
  }

  lemma {:induction false} ListEven(gs: seq<Gen>, ctx: Context, ch: Oracle)
    requires WellFormed(ListGen(gs)) && WellFormed(ListGen(EvenAll(gs))) && ctx.Valid()
    ensures Op(ListGen(EvenAll(gs)), ctx, ch) == EvenResult(Op(ListGen(gs), ctx, ch))
    decreases Size(ListGen(gs)), 0
  {
    hide Op, Copy, WriteBack, Inexhaustible, Even, ListKept, ListPopped, Erase;
    OpList(gs, ctx, ch);
    OpList(EvenAll(gs), ctx, ch);
    SizeOfMember(gs, 0);
    OpEven(gs[0], ctx, At(ch, 0));
    var r := Op(gs[0], ctx, At(ch, 0));
    ListKeptEven(gs, r);
    if r.op.kind.Nil? && |gs| > 1 {
      var rest := Popped(gs, r);
      PoppedEven(gs);
      EvenReady(rest);
      OpEven(rest, ctx, At(ch, 1));
      ListPoppedIs(gs, r, rest, Op(rest, ctx, At(ch, 1)));
      ListPoppedIs(EvenAll(gs), EvenResult(r), Even(rest), Op(Even(rest), ctx, At(ch, 1)));
      ListPoppedEven(gs, r, Op(rest, ctx, At(ch, 1)).after);
    }
  }

  lemma PoppedEven(gs: seq<Gen>)
    requires |gs| > 1 && AllReady(gs[1..]) && AllReady(EvenAll(gs)[1..])
    ensures Even(ListGen(CopyAll(gs[1..]))) == ListGen(CopyAll(EvenAll(gs)[1..]))
  {
    EvenAllSlice(gs, 1);
    CopyAllEven(gs[1..]);
  }

  lemma ListPoppedEven(gs: seq<Gen>, r: OpResult, after: Gen)
    requires |gs| > 1 && after.ListGen? && EraseAll(after.gens) == EraseAll(gs[1..])
    ensures Even(ListGen([r.after] + WriteBackAll(gs[1..], after.gens))) ==
            ListGen([Even(r.after)] + WriteBackAll(EvenAll(gs)[1..], Even(after).gens))
  {
    hide WriteBack, Erase;
    EvenAllSlice(gs, 1);
    WriteBackAllEven(gs[1..], after.gens);
    EvenAllConcat([r.after], WriteBackAll(gs[1..], after.gens));
    assert EvenAll([r.after]) == [Even(r.after)];
  }

  lemma ReplacedEven(gs: seq<Gen>, idx: int, g: Gen)
    requires AllWellFormed(gs) && AllWellFormed(EvenAll(gs)) && 0 <= idx < |gs| && WellFormed(g) && WellFormed(Even(g))
    ensures Replaced(EvenAll(gs), idx, Even(g)) == EvenAll(Replaced(gs, idx, g))
  {
    hide Copy, WellFormed, Even, Inexhaustible, Same;
    CopyAllEven(gs);
    EvenAllUpdate(CopyAll(gs), idx, g);
  }

  lemma EvenAllUpdate(gs: seq<Gen>, idx: int, g: Gen)
    requires 0 <= idx < |gs|
    ensures EvenAll(gs[idx := g]) == EvenAll(gs)[idx := Even(g)]
  {
    hide Even;
  }

  lemma EvenWithout(gs: seq<Gen>, idx: int)
    requires 0 <= idx < |gs|
    ensures EvenAll(Without(gs, idx)) == Without(EvenAll(gs), idx)
  {
    hide Even;
    EvenAllSlice(gs, idx);
    EvenAllSlice(gs, idx + 1);
    EvenAllConcat(gs[..idx], gs[idx + 1..]);
  }

  lemma MixKeptEven(idx: int, gs: seq<Gen>, r: OpResult, draw: nat)
    requires 0 <= idx < |gs| && WellFormed(Mix(idx, gs)) && WellFormed(Mix(idx, EvenAll(gs)))
    requires Answer(gs[idx], r) && r.NotNil() && Answer(EvenAll(gs)[idx], EvenResult(r))
    ensures MixKept(idx, EvenAll(gs), EvenResult(r), draw) == EvenResult(MixKept(idx, gs, r, draw))
  {
    hide Replaced, WellFormed, MixKept, Answer, Even, EvenAll;
    MixKeptIs(idx, gs, r, draw);
    MixKeptIs(idx, EvenAll(gs), EvenResult(r), draw);
    ReplacedEven(gs, idx, r.next);
    EvenAllUpdate(gs, idx, r.after);
    EvenMix(Mix(draw % |gs|, Replaced(gs, idx, r.next)));
    EvenMix(Mix(idx, gs[idx := r.after]));
  }

  lemma AllReadyWithout(gs: seq<Gen>, idx: int)
    requires WellFormed(Mix(idx, gs))
    ensures AllReady(Without(gs, idx))
  {
    assert forall i | 0 <= i < |gs| :: Ready(gs[i]);
    hide WellFormed;
  }

  lemma RemixedEven(idx: int, gs: seq<Gen>, r: OpResult, draw: nat)
    requires WellFormed(Mix(idx, gs)) && WellFormed(Mix(idx, EvenAll(gs))) && Answer(gs[idx], r) && !r.NotNil()
    requires Answer(EvenAll(gs)[idx], EvenResult(r))
    ensures Remixed(idx, EvenAll(gs), EvenResult(r), draw) == Even(Remixed(idx, gs, r, draw))
  {
    hide Inexhaustible, Erase, Copy, Size;
    EvenWithout(gs, idx);
    AllReadyWithout(gs, idx);
    AllReadyWithout(EvenAll(gs), idx);
    hide WellFormed;
    CopyAllEven(Without(gs, idx));
  }

  lemma MixDroppedAfter(idx: int, gs: seq<Gen>, g: Gen, afters: seq<Gen>)
    requires 0 <= idx < |gs| && Same(g, gs[idx]) && EraseAll(afters) == EraseAll(Without(gs, idx))
    ensures var back := WriteBackAll(Without(gs, idx), afters);
            var back' := WriteBackAll(Without(EvenAll(gs), idx), EvenAll(afters));
            EvenAll(back[..idx] + [g] + back[idx..]) == back'[..idx] + [Even(g)] + back'[idx..]
  {
    hide Erase, WriteBack, Even;
    EvenWithout(gs, idx);
    WriteBackAllEven(Without(gs, idx), afters);
    var back := WriteBackAll(Without(gs, idx), afters);
    EvenAllSlice(back, idx);
    EvenAllConcat(back[..idx] + [g], back[idx..]);
    EvenAllConcat(back[..idx], [g]);
    assert EvenAll([g]) == [Even(g)];
  }

  lemma MixDroppedEven(idx: int, gs: seq<Gen>, r: OpResult, rest: Gen, t: OpResult)
    requires 0 <= idx < |gs| && WellFormed(Mix(idx, gs)) && WellFormed(Mix(idx, EvenAll(gs)))
    requires Answer(gs[idx], r) && !r.NotNil() && Answer(EvenAll(gs)[idx], EvenResult(r)) && WellFormed(rest) &&
             WellFormed(Even(rest)) && rest.Mix?
    requires Same(rest, Mix(rest.idx, Without(gs, idx))) && Answer(rest, t)
    requires Same(Even(rest), Mix(rest.idx, Without(EvenAll(gs), idx))) && Answer(Even(rest), EvenResult(t))
    requires t.after.Mix? && EraseAll(t.after.gens) == EraseAll(Without(gs, idx)) && Same(r.after, gs[idx])
    ensures MixDropped(idx, EvenAll(gs), EvenResult(r), Even(rest), EvenResult(t)) ==
            EvenResult(MixDropped(idx, gs, r, rest, t))
  {
    hide Inexhaustible, WriteBack, WellFormed, MixDropped, Answer, Same, Erase;
    MixDroppedIs(idx, gs, r, rest, t);
    MixDroppedIs(idx, EvenAll(gs), EvenResult(r), Even(rest), EvenResult(t));
    MixDroppedAfter(idx, gs, r.after, t.after.gens);
  }

  lemma DroppedErase(idx: int, gs: seq<Gen>, rest: Gen, t: OpResult)
    requires 0 <= idx < |gs| && rest.Mix? && Same(rest, Mix(rest.idx, Without(gs, idx))) && Same(t.after, rest)
    ensures t.after.Mix? && EraseAll(t.after.gens) == EraseAll(Without(gs, idx))
  {
  }

  lemma {:induction false} MixEven(idx: int, gs: seq<Gen>, ctx: Context, ch: Oracle)
    requires WellFormed(Mix(idx, gs)) && WellFormed(Mix(idx, EvenAll(gs))) && ctx.Valid()
    ensures Op(Mix(idx, EvenAll(gs)), ctx, ch) == EvenResult(Op(Mix(idx, gs), ctx, ch))
    decreases Size(Mix(idx, gs)), 0
  {
    hide Op, Copy, WriteBack, Inexhaustible, Even, MixKept, Remixed, MixDropped;
    OpMix(idx, gs, ctx, ch);
    OpMix(idx, EvenAll(gs), ctx, ch);
    SizeOfMember(gs, idx);
    OpEven(gs[idx], ctx, At(ch, 0));
    var r := Op(gs[idx], ctx, At(ch, 0));
    if r.NotNil() {
      MixKeptEven(idx, gs, r, Here(ch));
    } else {
      RemixedEven(idx, gs, r, Here(ch));
      var rest := Remixed(idx, gs, r, Here(ch));
      EvenReady(rest);
      OpEven(rest, ctx, At(ch, 1));
      EvenMix(rest);
      DroppedErase(idx, gs, rest, Op(rest, ctx, At(ch, 1)));
      MixDroppedEven(idx, gs, r, rest, Op(rest, ctx, At(ch, 1)));
    }
  }

  lemma EvenMix(g: Gen)
    requires g.Mix?
    ensures Even(g) == Mix(g.idx, EvenAll(g.gens))
  {
  }

  lemma AftersEven(rs: seq<OpResult>, es: seq<OpResult>)
    requires |es| == |rs| && forall i | 0 <= i < |rs| :: es[i] == EvenResult(rs[i])
    ensures AftersOf(es) == EvenAll(AftersOf(rs)) && OffersOf(es) == OffersOf(rs)
  {
    hide Even;
  }

  lemma {:induction false} AnyEven(gs: seq<Gen>, ctx: Context, ch: Oracle)
    requires WellFormed(Any(gs)) && WellFormed(Any(EvenAll(gs))) && ctx.Valid()
    ensures Op(Any(EvenAll(gs)), ctx, ch) == EvenResult(Op(Any(gs), ctx, ch))
    decreases Size(Any(gs)), 0
  {
    hide Op, WellFormed, Fold, Replaced, AnyPicked;
    AnyChildren(gs);
    AnyChildren(EvenAll(gs));
    OpAny(gs, ctx, ch);
    OpAny(EvenAll(gs), ctx, ch);
    var rs, es := OpAll(gs, ctx, ch, 1), OpAll(EvenAll(gs), ctx, ch, 1);
    forall i | 0 <= i < |gs| ensures es[i] == EvenResult(rs[i]) {
      SizeOfMember(gs, i);
      OpEven(gs[i], ctx, At(ch, i + 1));
    }
    AftersEven(rs, es);
    AnyPickedEven(gs, rs, es, Draws(ch));
  }

  lemma AnyPickedEven(gs: seq<Gen>, rs: seq<OpResult>, es: seq<OpResult>, draws: nat -> nat)
    requires AllWellFormed(gs) && AllWellFormed(EvenAll(gs)) && Answers(gs, rs) && Answers(EvenAll(gs), es)
    requires AftersOf(es) == EvenAll(AftersOf(rs)) && OffersOf(es) == OffersOf(rs)
    requires forall i | 0 <= i < |rs| :: es[i] == EvenResult(rs[i])
    ensures AnyPicked(EvenAll(gs), es, draws) == EvenResult(AnyPicked(gs, rs, draws))
  {
    hide Copy, Inexhaustible, Chosen, Replaced, WellFormed, Erase, AnyPicked, Answers, OffersOf, AftersOf, Even;
    var idx := Chosen(rs, draws);
    ChosenEven(rs, es, draws);
    EvenAny(AftersOf(rs));
    AnyPickedIs(gs, rs, draws);
    AnyPickedIs(EvenAll(gs), es, draws);
    if idx != -1 {
      ReplacedEven(AftersOf(rs), idx, rs[idx].next);
      EvenAny(Replaced(AftersOf(rs), idx, rs[idx].next));
    }
  }

  lemma ChosenEven(rs: seq<OpResult>, es: seq<OpResult>, draws: nat -> nat)
    requires |es| == |rs| && OffersOf(es) == OffersOf(rs)
    ensures Chosen(es, draws) == Chosen(rs, draws)
  {
    hide Fold, OffersOf;
  }

  lemma EvenAny(gs: seq<Gen>)
    ensures Even(Any(gs)) == Any(EvenAll(gs)) && Even(Null) == Null
  {
  }

  // ----- Runs -----

  /** The generators agree but for the intervals of their staggers. */
  ghost predicate Alike(g: Gen, h: Gen) {
    Even(g) == Even(h)
  }

  /** Generators that agree but for intervals answer alike. */
  lemma IntervalIsIgnored(g: Gen, h: Gen, ctx: Context, ch: Oracle)
    requires Ready(g) && Ready(h) && Alike(g, h) && ctx.Valid()
    ensures var r, t := Op(g, ctx, ch), Op(h, ctx, ch);
            r.op == t.op && Alike(r.next, t.next) && Alike(r.after, t.after)
  {
    hide Op, Even;
    EvenReady(g);
    EvenReady(h);
    OpEven(g, ctx, ch);
    OpEven(h, ctx, ch);
  }

  lemma UpdateAlike(g: Gen, h: Gen, ctx: Context, event: Operation)
    requires Ready(g) && Ready(h) && Alike(g, h)
    ensures Alike(Update(g, ctx, event), Update(h, ctx, event))
  {
    hide Update, Even;
    EvenReady(g);
    EvenReady(h);
    UpdateEven(g, ctx, event);
    UpdateEven(h, ctx, event);
  }

  /** The states are the same but for the generators, and those are alike. */
  ghost predicate AlikeStates(s: System, t: System) {
    Alike(s.sched.gen, t.sched.gen) && t == s.(sched := s.sched.(gen := t.sched.gen))
  }

  ghost predicate AlikeScheds(c: Sched, d: Sched) {
    Alike(c.gen, d.gen) && d == c.(gen := d.gen)
  }

  lemma AskedAlike(c: Sched, d: Sched, now: int, ch: Oracle)
    requires c.Valid() && d.Valid() && AlikeScheds(c, d)
    ensures var v, w := Asked(c, now, ch), Asked(d, now, ch);
            && AlikeScheds(v.sched, w.sched) && v.Wait? == w.Wait? && v.Send? == w.Send?
            && (v.Send? ==> v.thread == w.thread && v.op == w.op)
  {
    hide Op, Update, ProcessToThread, Even;
    IntervalIsIgnored(c.gen, d.gen, c.Context(now), ch);
    var r, t := Op(c.gen, c.Context(now), ch), Op(d.gen, d.Context(now), ch);
    if Asked(c, now, ch).Send? {
      var thread := ProcessToThread(c.workers, r.op.process);
      UpdateAlike(r.next, t.next, Contexts.Context.Context(r.op.time, c.free - {thread}, c.workers), r.op);
    }
  }

  lemma ReceivedAlike(c: Sched, d: Sched, op: Operation, now: int)
    requires c.Valid() && d.Valid() && AlikeScheds(c, d) && ProcessToThread(c.workers, op.process) in c.workers
    ensures AlikeScheds(Received(c, op, now), Received(d, op, now))
  {
    hide Update, ProcessToThread, NextProcess, Even;
    var thread := ProcessToThread(c.workers, op.process);
    UpdateAlike(c.gen, d.gen, Contexts.Context.Context(now, c.free + {thread}, c.workers), op.(time := now));
  }

  lemma AlikeStep(s: System, t: System, a: Action)
    requires Inv(s) && Inv(t) && AlikeStates(s, t) && Enabled(s, a)
    ensures Enabled(t, a) && AlikeStates(Apply(s, a), Apply(t, a))
  {
    hide Inv, Alike, Asked, Received, AfterInvoke, AfterClose;
    InvValid(s);
    InvValid(t);
    match a
    case Tick(_) =>
    case Deliver(i) =>
      DeliverKeeps(s, i);
      ReceivedAlike(s.sched, t.sched, s.completions[i], s.clock);
    case Poll(ch) => AskedAlike(s.sched, t.sched, s.clock, ch);
    case Take(_) =>
    case Reply(_, _) =>
    case Stop(_) =>
  }

  lemma {:induction false} AlikeRun(s: System, t: System, acts: seq<Action>, s': System) returns (t': System)
    requires Inv(s) && Inv(t) && AlikeStates(s, t) && Run(s, acts, s')
    ensures Run(t, acts, t') && AlikeStates(s', t')
    decreases |acts|
  {
    hide Inv, Enabled, Apply, AlikeStates;
    if |acts| == 0 {
      t' := t;
    } else {
      AlikeStep(s, t, acts[0]);
      t' := AlikeRun(Apply(s, acts[0]), Apply(t, acts[0]), acts[1..], s');
    }
  }

  /** Tests that agree but for the intervals of their staggers have the same runs: the same steps lead
      to states with the same history, queues, workers and clock. */
  lemma IntervalsDoNotMatter(n: nat, clock: int, g: Gen, h: Gen, acts: seq<Action>, s: System) returns (t: System)
    requires Fit(g, Threads(n)) && Fit(h, Threads(n)) && Alike(g, h) && Reachable(n, clock, g, acts, s)
    ensures Reachable(n, clock, h, acts, t) && AlikeStates(s, t) && t.sched.history == s.sched.history
  {
    hide Inv, Run, Fit;
    StartInv(n, clock, g);
    StartInv(n, clock, h);
    assert Alike(Validate(g), Validate(h));
    t := AlikeRun(Initial(n, clock, g), Initial(n, clock, h), acts, s);
  }
}
