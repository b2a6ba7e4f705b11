/** Cutoffs that are set survive, at any depth: asking a generator, copying it and updating it leave
    them as they are, so that throwing a successor away loses none. */
module Cutoffs {
  import opened Operations
  import opened Contexts
  import opened Selection
  import opened Generators
  import opened Evaluation

  /** The generators agree but for cutoffs and next times, and every cutoff set in `g` is the same in `h`. */
  ghost predicate Settled(g: Gen, h: Gen) {
    match g
    case ListGen(gs) => h.ListGen? && SettledAll(gs, h.gens)
    case Validate(c) => h.Validate? && Settled(c, h.gen)
    case OnThreads(c, f) => h.OnThreads? && h.filter == f && Settled(c, h.gen)
    case TimeLimit(limit, cutoff, c) =>
      h.TimeLimit? && h.limit == limit && (cutoff != INVALID_TIME ==> h.cutoff == cutoff) && Settled(c, h.gen)
    case Stagger(dt, _, c) => h.Stagger? && h.dt == dt && Settled(c, h.gen)
    case Mix(idx, gs) => h.Mix? && h.idx == idx && SettledAll(gs, h.gens)
    case Any(gs) => h.Any? && SettledAll(gs, h.gens)
    case _ => h == g
  }

  ghost predicate SettledAll(gs: seq<Gen>, hs: seq<Gen>) {
    |hs| == |gs| && forall i | 0 <= i < |gs| :: Settled(gs[i], hs[i])
  }

  lemma {:induction false} SettledSelf(g: Gen)
    ensures Settled(g, g)
    decreases g, 0
  {
    match g
    case Null =>
    case OpGen(_) =>
    case FunGen(_) =>
    case ListGen(gs) => SettledAllSelf(gs);
    case Validate(c) => SettledSelf(c);
    case OnThreads(c, _) => SettledSelf(c);
    case TimeLimit(_, _, c) => SettledSelf(c);
    case Stagger(_, _, c) => SettledSelf(c);
    case Mix(_, gs) => SettledAllSelf(gs);
    case Any(gs) => SettledAllSelf(gs);
  }

  lemma {:induction false} SettledAllSelf(gs: seq<Gen>)
    ensures SettledAll(gs, gs)
    decreases gs, 0
  {
    forall i | 0 <= i < |gs| ensures Settled(gs[i], gs[i]) {
      SettledSelf(gs[i]);
    }
  }

  lemma {:induction false} SettledTrans(g: Gen, h: Gen, k: Gen)
    requires Settled(g, h) && Settled(h, k)
    ensures Settled(g, k)
    decreases g, 0
  {
    match g
    case Null =>
    case OpGen(_) =>
    case FunGen(_) =>
    case ListGen(gs) => SettledAllTrans(gs, h.gens, k.gens);
    case Validate(c) => SettledTrans(c, h.gen, k.gen);
    case OnThreads(c, _) => SettledTrans(c, h.gen, k.gen);
    case TimeLimit(_, _, c) => SettledTrans(c, h.gen, k.gen);
    case Stagger(_, _, c) => SettledTrans(c, h.gen, k.gen);
    case Mix(_, gs) => SettledAllTrans(gs, h.gens, k.gens);
    case Any(gs) => SettledAllTrans(gs, h.gens, k.gens);
  }

  lemma {:induction false} SettledAllTrans(gs: seq<Gen>, hs: seq<Gen>, ks: seq<Gen>)
    requires SettledAll(gs, hs) && SettledAll(hs, ks)
    ensures SettledAll(gs, ks)
    decreases gs, 0
  {
    forall i | 0 <= i < |gs| ensures Settled(gs[i], ks[i]) {
      SettledTrans(gs[i], hs[i], ks[i]);
    }
  }

  lemma {:induction false} CopySettled(g: Gen)
    requires Ready(g)
    ensures Settled(g, Copy(g))
    decreases g, 0
  {
    match g
    case Null =>
    case OpGen(_) =>
    case FunGen(_) =>
    case ListGen(gs) => CopyAllSettled(gs);
    case Validate(c) => CopySettled(c);
    case OnThreads(c, _) => CopySettled(c);
    case TimeLimit(_, _, c) => CopySettled(c);
    case Stagger(_, _, c) => CopySettled(c);
    case Mix(_, gs) => SettledSelf(g);
    case Any(gs) => CopyAllSettled(gs);
  }

  lemma {:induction false} CopyAllSettled(gs: seq<Gen>)
    requires AllReady(gs)
    ensures SettledAll(gs, CopyAll(gs))
    decreases gs, 0
  {
    forall i | 0 <= i < |gs| ensures Settled(gs[i], CopyAll(gs)[i]) {
      CopySettled(gs[i]);
    }
  }

  lemma {:induction false} UpdateSettled(g: Gen, ctx: Context, event: Operation)
    requires Ready(g)
    ensures Settled(g, Update(g, ctx, event))
    decreases g, 0
  {
    match g
    case Null =>
    case OpGen(_) =>
    case FunGen(_) =>
    case ListGen(gs) =>
      UpdateSettled(gs[0], ctx, event);
      CopyAllSettled(gs[1..]);
      var us := Update(g, ctx, event).gens;
      forall i | 0 <= i < |gs| ensures Settled(gs[i], us[i]) {
        assert i > 0 ==> gs[i] == gs[1..][i - 1] && us[i] == CopyAll(gs[1..])[i - 1];
      }
    case Validate(c) => UpdateSettled(c, ctx, event);
    case OnThreads(c, f) =>
      SettledSelf(c);
      UpdateSettled(c, OnThreadsContext(f, ctx), event);
    case TimeLimit(_, _, c) => UpdateSettled(c, ctx, event);
    case Stagger(_, _, c) => UpdateSettled(c, ctx, event);
    case Mix(_, gs) => SettledSelf(g);
    case Any(gs) =>
      forall i | 0 <= i < |gs| ensures Settled(gs[i], UpdateAll(gs, ctx, event)[i]) {
        UpdateSettled(gs[i], ctx, event);
      }
  }

  lemma {:induction false} WriteBackSettled(g: Gen, after: Gen)
    requires Settled(g, after)
    ensures Settled(g, WriteBack(g, after))
    decreases g, 0
  {
    match g
    case Null =>
    case OpGen(_) =>
    case FunGen(_) =>
    case ListGen(gs) => WriteBackAllSettled(gs, after.gens);
    case Validate(c) => WriteBackSettled(c, after.gen);
    case OnThreads(c, _) => WriteBackSettled(c, after.gen);
    case TimeLimit(_, _, c) => WriteBackSettled(c, after.gen);
    case Stagger(_, _, c) => WriteBackSettled(c, after.gen);
    case Mix(_, gs) =>
    case Any(gs) => WriteBackAllSettled(gs, after.gens);
  }

  lemma {:induction false} WriteBackAllSettled(gs: seq<Gen>, afters: seq<Gen>)
    requires SettledAll(gs, afters)
    ensures SettledAll(gs, WriteBackAll(gs, afters))
    decreases gs, 0
  {
    forall i | 0 <= i < |gs| ensures Settled(gs[i], WriteBackAll(gs, afters)[i]) {
      WriteBackSettled(gs[i], afters[i]);
    }
  }

  /** Children evaluated as copies and written back. */
  lemma SharedSettled(gs: seq<Gen>, afters: seq<Gen>)
    requires AllReady(gs) && SettledAll(CopyAll(gs), afters)
    ensures SettledAll(gs, WriteBackAll(gs, afters))
  {
    CopyAllSettled(gs);
    SettledAllTrans(gs, CopyAll(gs), afters);
    WriteBackAllSettled(gs, afters);
  }

  /** Whatever a generator answers, the receiver keeps every cutoff that was set. */
  lemma {:induction false} OpSettled(g: Gen, ctx: Context, ch: Oracle)
    requires Ready(g) && ctx.Valid()
    ensures Settled(g, Op(g, ctx, ch).after)
    decreases Size(g), 1
  {
    match g
    case Null =>
    case OpGen(_) =>
    case FunGen(_) =>
    case ListGen(gs) => ListSettled(gs, ctx, ch);
    case Validate(c) =>
      OpSettled(c, ctx, At(ch, 0));
      WrapperSettled(g, ctx, ch);
    case OnThreads(c, f) =>
      OpSettled(c, OnThreadsContext(f, ctx), At(ch, 0));
      WrapperSettled(g, ctx, ch);
    case TimeLimit(_, _, c) =>
      OpSettled(c, ctx, At(ch, 0));
      WrapperSettled(g, ctx, ch);
    case Stagger(_, _, c) =>
      OpSettled(c, ctx, At(ch, 0));
      WrapperSettled(g, ctx, ch);
    case Mix(idx, gs) => MixSettled(idx, gs, ctx, ch);
    case Any(gs) => AnySettled(gs, ctx, ch);
  }

  lemma WrapperSettled(g: Gen, ctx: Context, ch: Oracle)
    requires WellFormed(g) && ctx.Valid() && (g.Validate? || g.OnThreads? || g.TimeLimit? || g.Stagger?)
    requires Settled(g.gen, Op(g.gen, if g.OnThreads? then OnThreadsContext(g.filter, ctx) else ctx, At(ch, 0)).after)
    ensures Settled(g, Op(g, ctx, ch).after)
  {
    hide Op;
    match g
    case Validate(c) => OpValidate(c, ctx, ch);
    case OnThreads(c, f) => OpOnThreads(c, f, ctx, ch);
    case TimeLimit(limit, cutoff, c) => OpTimeLimit(limit, cutoff, c, ctx, ch);
    case Stagger(dt, due, c) => OpStagger(dt, due, c, ctx, ch);
  }

  lemma {:induction false} ListSettled(gs: seq<Gen>, ctx: Context, ch: Oracle)
    requires WellFormed(ListGen(gs)) && ctx.Valid()
    ensures Settled(ListGen(gs), Op(ListGen(gs), ctx, ch).after)
    decreases Size(ListGen(gs)), 0
  {
    hide Op, Copy, WriteBack, Inexhaustible, ListPopped, Erase, SettledAll;
    OpList(gs, ctx, ch);
    SizeOfMember(gs, 0);
    OpSettled(gs[0], ctx, At(ch, 0));
    var r := Op(gs[0], ctx, At(ch, 0));
    if r.op.kind.Nil? && |gs| > 1 {
      var rest := Popped(gs, r);
      OpSettled(rest, ctx, At(ch, 1));
      ListPoppedIs(gs, r, rest, Op(rest, ctx, At(ch, 1)));
      SharedSettled(gs[1..], Op(rest, ctx, At(ch, 1)).after.gens);
      HeadSettled(gs, r.after, WriteBackAll(gs[1..], Op(rest, ctx, At(ch, 1)).after.gens));
    } else {
      SettledAllSelf(gs[1..]);
      HeadSettled(gs, r.after, gs[1..]);
      assert [r.after] + gs[1..] == gs[0 := r.after];
    }
  }

  lemma HeadSettled(gs: seq<Gen>, h: Gen, hs: seq<Gen>)
    requires |gs| > 0 && Settled(gs[0], h) && SettledAll(gs[1..], hs)
    ensures Settled(ListGen(gs), ListGen([h] + hs))
  {
    hide Settled;
    forall i | 0 <= i < |gs| ensures Settled(gs[i], ([h] + hs)[i]) {
      assert i > 0 ==> gs[i] == gs[1..][i - 1];
    }
    ListSettles(gs, [h] + hs);
  }

  lemma ListSettles(gs: seq<Gen>, hs: seq<Gen>)
    requires SettledAll(gs, hs)
    ensures Settled(ListGen(gs), ListGen(hs)) && Settled(Any(gs), Any(hs))
    ensures forall idx :: Settled(Mix(idx, gs), Mix(idx, hs))
  {
  }

  lemma {:induction false} MixSettled(idx: int, gs: seq<Gen>, ctx: Context, ch: Oracle)
    requires WellFormed(Mix(idx, gs)) && ctx.Valid()
    ensures Settled(Mix(idx, gs), Op(Mix(idx, gs), ctx, ch).after)
    decreases Size(Mix(idx, gs)), 0
  {
    hide Op, Copy, WriteBack, Inexhaustible, Replaced;
    OpMix(idx, gs, ctx, ch);
    SizeOfMember(gs, idx);
    OpSettled(gs[idx], ctx, At(ch, 0));
    var r := Op(gs[idx], ctx, At(ch, 0));
    if r.NotNil() {
      SettledAllSelf(gs);
      assert SettledAll(gs, gs[idx := r.after]);
    } else {
      var rest := Remixed(idx, gs, r, Here(ch));
      OpSettled(rest, ctx, At(ch, 1));
      var others := Without(gs, idx);
      SharedSettled(others, Op(rest, ctx, At(ch, 1)).after.gens);
      ReinsertedSettled(gs, idx, WriteBackAll(others, Op(rest, ctx, At(ch, 1)).after.gens), r.after);
    }
  }

  lemma ReinsertedSettled(gs: seq<Gen>, idx: int, back: seq<Gen>, g: Gen)
    requires 0 <= idx < |gs| && SettledAll(Without(gs, idx), back) && Settled(gs[idx], g)
    ensures SettledAll(gs, back[..idx] + [g] + back[idx..])
  {
    hide Settled;
    var after, others := back[..idx] + [g] + back[idx..], Without(gs, idx);
    forall i | 0 <= i < |gs| ensures Settled(gs[i], after[i]) {
      if i < idx {
        assert others[i] == gs[i] && after[i] == back[i];
      } else if i > idx {
        assert others[i - 1] == gs[i] && after[i] == back[i - 1];
      }
    }
  }

  lemma {:induction false} AnySettled(gs: seq<Gen>, ctx: Context, ch: Oracle)
    requires WellFormed(Any(gs)) && ctx.Valid()
    ensures Settled(Any(gs), Op(Any(gs), ctx, ch).after)
    decreases Size(Any(gs)), 0
  {
    hide Op, Copy, Inexhaustible, Fold, Replaced;
    OpAny(gs, ctx, ch);
    var rs := OpAll(gs, ctx, ch, 1);
    forall i | 0 <= i < |gs| ensures Settled(gs[i], AftersOf(rs)[i]) {
      SizeOfMember(gs, i);
      OpSettled(gs[i], ctx, At(ch, i + 1));
    }
    assert SettledAll(gs, AftersOf(rs));
  }
}
