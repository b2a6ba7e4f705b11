/** What `Any` and `Mix` answer, in terms of what their children answer
    (src/jepsen/generator/Generator.cpp, lines 357 to 441). */
module Alternatives {
  import opened Operations
  import opened Contexts
  import opened Selection
  import opened Generators
  import opened Evaluation
  import opened Cutoffs
  import opened Descents

  /** The answer of child `i`. */
  ghost function ChildAnswer(gs: seq<Gen>, ctx: Context, ch: Oracle, i: nat): OpResult
    requires AllWellFormed(gs) && ctx.Valid() && i < |gs|
  {
    Op(gs[i], ctx, At(ch, i + 1))
  }

  /** The answer is nil exactly when no child has a usable one.  Otherwise it is the answer of one
      child: an operation of minimal time if any child has an operation, pending only if all usable
      answers are.  The successor takes that child's successor and leaves the others unconsumed, with the
      cutoffs they had. */
  lemma AnySelects(gs: seq<Gen>, ctx: Context, ch: Oracle) returns (idx: int)
    requires WellFormed(Any(gs)) && AllWellFormed(gs) && ctx.Valid()
    ensures Op(Any(gs), ctx, ch).op.kind.Nil? <==> forall i: nat | i < |gs| :: !ChildAnswer(gs, ctx, ch, i).NotNil()
    ensures Op(Any(gs), ctx, ch).op.kind.Nil? <==> idx == -1
    ensures idx != -1 ==>
              var r := Op(Any(gs), ctx, ch);
              && 0 <= idx < |gs| && ChildAnswer(gs, ctx, ch, idx).NotNil() && r.op == ChildAnswer(gs, ctx, ch, idx).op
              && (r.op.kind.Pending? ==> forall i: nat | i < |gs| && ChildAnswer(gs, ctx, ch, i).NotNil() ::
                    ChildAnswer(gs, ctx, ch, i).op.kind.Pending?)
              && (r.op.Real() ==>
                    forall i: nat | && i < |gs| && ChildAnswer(gs, ctx, ch, i).NotNil()
                                    && ChildAnswer(gs, ctx, ch, i).op.Real() ::
                      r.op.time <= ChildAnswer(gs, ctx, ch, i).op.time)
              && r.next.Any? && |r.next.gens| == |gs| && r.next.gens[idx] == ChildAnswer(gs, ctx, ch, idx).next
              && forall i | 0 <= i < |gs| && i != idx :: Settled(gs[i], r.next.gens[i])
  {
    hide Op, Fold, Copy, Inexhaustible, WellFormed, Settled, Tied;
    OpAny(gs, ctx, ch);
    var rs := OpAll(gs, ctx, ch, 1);
    idx := Chosen(rs, Draws(ch));
    ChosenSoonest(rs, Draws(ch));
    assert forall i: nat | i < |gs| :: ChildAnswer(gs, ctx, ch, i) == rs[i];
    if idx != -1 {
      PickedOk(gs, rs, idx);
      AftersSettled(gs, ctx, ch);
      PickedSettled(gs, AftersOf(rs), idx, rs[idx].next);
    }
  }

  lemma ChosenSoonest(rs: seq<OpResult>, draws: nat -> nat)
    ensures var idx := Chosen(rs, draws);
            idx != -1 ==>
              && (rs[idx].op.kind.Pending? ==> forall i | 0 <= i < |rs| && rs[i].NotNil() :: rs[i].op.kind.Pending?)
              && (rs[idx].op.Real() ==>
                    forall i | 0 <= i < |rs| && rs[i].NotNil() && rs[i].op.Real() :: rs[idx].op.time <= rs[i].op.time)
  {
    var offers := OffersOf(rs);
    FoldCorrect(offers, draws, |rs|);
    assert forall i | 0 <= i < |rs| && rs[i].NotNil() && rs[i].op.Real() :: Live(offers, i);
  }

  lemma PickedSettled(gs: seq<Gen>, afters: seq<Gen>, idx: int, g: Gen)
    requires AllWellFormed(afters) && SettledAll(gs, afters) && 0 <= idx < |gs| && WellFormed(g)
    ensures forall i | 0 <= i < |gs| && i != idx :: Settled(gs[i], Replaced(afters, idx, g)[i])
    ensures Replaced(afters, idx, g)[idx] == g
  {
    hide Copy, WellFormed, Settled;
    CopyAllSettled(afters);
    forall i | 0 <= i < |gs| && i != idx ensures Settled(gs[i], Replaced(afters, idx, g)[i]) {
      SettledTrans(gs[i], afters[i], CopyAll(afters)[i]);
    }
  }

  /** A mix answers with the operation of its current child, whose successor takes its place while the
      others stay unconsumed, with the cutoffs they had; the next one is drawn among all.  A child without a
      usable answer is dropped, and the mix of the others, with the one that is drawn, answers instead. */
  lemma MixSelects(idx: int, gs: seq<Gen>, ctx: Context, ch: Oracle)
    requires WellFormed(Mix(idx, gs)) && WellFormed(gs[idx]) && ctx.Valid()
    ensures var r, child := Op(Mix(idx, gs), ctx, ch), Op(gs[idx], ctx, At(ch, 0));
            if child.NotNil() then
              && r.op == child.op && r.next.Mix? && |r.next.gens| == |gs| && r.next.gens[idx] == child.next
              && (forall i | 0 <= i < |gs| && i != idx :: Settled(gs[i], r.next.gens[i]))
              && r.next.idx == Here(ch) % |gs|
            else
              exists rest: Gen ::
                && rest.Mix? && WellFormed(rest) && SettledAll(Without(gs, idx), rest.gens)
                && |gs| > 1 && rest.idx == Here(ch) % (|gs| - 1)
                && r.op == Op(rest, ctx, At(ch, 1)).op && r.next == Op(rest, ctx, At(ch, 1)).next
  {
    hide Op, Copy, Inexhaustible, WriteBack, Settled;
    OpMix(idx, gs, ctx, ch);
    var child := Op(gs[idx], ctx, At(ch, 0));
    if child.NotNil() {
      SettledAllSelf(gs);
      PickedSettled(gs, gs, idx, child.next);
      assert Op(Mix(idx, gs), ctx, ch).next.gens == Replaced(gs, idx, child.next);
    } else {
      var rest := MixDrops(idx, gs, ctx, ch);
    }
  }

  lemma MixDrops(idx: int, gs: seq<Gen>, ctx: Context, ch: Oracle) returns (rest: Gen)
    requires WellFormed(Mix(idx, gs)) && WellFormed(gs[idx]) && ctx.Valid() && !Op(gs[idx], ctx, At(ch, 0)).NotNil()
    ensures rest.Mix? && WellFormed(rest) && SettledAll(Without(gs, idx), rest.gens)
    ensures |gs| > 1 && rest.idx == Here(ch) % (|gs| - 1)
    ensures Op(Mix(idx, gs), ctx, ch).op == Op(rest, ctx, At(ch, 1)).op
    ensures Op(Mix(idx, gs), ctx, ch).next == Op(rest, ctx, At(ch, 1)).next
  {
    hide Op, Copy, Inexhaustible, WriteBack, Settled, Erase, MixDropped;
    OpMix(idx, gs, ctx, ch);
    var child := Op(gs[idx], ctx, At(ch, 0));
    rest := Remixed(idx, gs, child, Here(ch));
    MixDroppedIs(idx, gs, child, rest, Op(rest, ctx, At(ch, 1)));
    CopyAllSettled(Without(gs, idx));
    assert SettledAll(Without(gs, idx), rest.gens);
    assert |Without(gs, idx)| == |gs| - 1;
  }
}
