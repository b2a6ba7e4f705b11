/** Asking a generator for its next operation
    (src/jepsen/generator/Generator.cpp: fillInOperation, op and the op methods). */
module Evaluation {
  import opened Operations
  import opened Contexts
  import opened Selection
  import opened Generators

  /** The operation, the successor generator, and what the receiver has become. */
  datatype OpResult = OpResult(op: Operation, next: Gen, after: Gen)
  {
    /** The wrappers pass an answer on only when it also has a successor. */
    predicate NotNil() {
      !op.kind.Nil? && !next.Null?
    }
  }

  function NilResult(after: Gen): OpResult {
    OpResult(NIL, Null, after)
  }

  /** An operation with its blanks filled in, or a pending one when no thread is free. */
  function FillIn(ctx: Context, o: Operation, draw: nat): Operation
    requires ctx.Valid()
  {
    var p := RandomFreeProcess(ctx, draw);
    if p != INVALID_PROCESS then
      Operation(if o.kind.Init? then Invoke else o.kind,
                o.payload,
                if o.time == 0 then ctx.time else o.time,
                if o.process == INVALID_PROCESS then p else o.process)
    else
      o.(kind := Pending)
  }

  /** What every answer satisfies: the successor is null or well-formed, nil has no successor, an
      inexhaustible generator answers with an inexhaustible successor, and the receiver changes
      only in its cutoffs and next times. */
  ghost predicate Answer(g: Gen, r: OpResult) {
    && Ready(r.next)
    && (r.op.kind.Nil? ==> r.next.Null?)
    && (Inexhaustible(g) ==> r.NotNil() && Inexhaustible(r.next))
    && Same(r.after, g)
  }

  lemma LeafEnds(g: Gen)
    requires g.Null? || g.OpGen?
    ensures !Inexhaustible(g)
  {
  }

  lemma ListEnds(gs: seq<Gen>)
    requires |gs| == 1 && !Inexhaustible(gs[0])
    ensures !Inexhaustible(ListGen(gs))
  {
  }

  /** The next operation.  Verifying this function is what shows that evaluation terminates, stays
      in range, never dereferences null and never draws from an empty mix. */
  function Op(g: Gen, ctx: Context, ch: Oracle): (r: OpResult)
    requires Ready(g) && ctx.Valid()
    ensures Answer(g, r)
    decreases Size(g), 0
  {
    hide Inexhaustible, Erase;
    match g
    case Null =>
      LeafEnds(g);
      NilResult(Null)
    case OpGen(o) =>
      LeafEnds(g);
      var e := FillIn(ctx, o, Here(ch));
      OpResult(e, if e.kind.Pending? then g else Null, g)
    case FunGen(f) =>
      var o := f(ctx, ch([0]));
      var e := FillIn(ctx, o, Here(ch));
      Unfolded(g, o, e)
    case ListGen(gs) =>
      SizeOfMember(gs, 0);
      var r := Op(gs[0], ctx, At(ch, 0));
      if r.next.Null? && r.op.kind.Nil? then
        if |gs| == 1 then
          ListEnds(gs);
          NilResult(ListKept(gs, r).after)
        else
          var rest := Popped(gs, r);
          ListPopped(gs, r, rest, Op(rest, ctx, At(ch, 1)))
      else
        ListKept(gs, r)
    case Validate(c) => Validated(c, Op(c, ctx, At(ch, 0)))
    case OnThreads(c, f) => Filtered(c, f, Op(c, OnThreadsContext(f, ctx), At(ch, 0)))
    case TimeLimit(limit, cutoff, c) => Limited(limit, cutoff, c, Op(c, ctx, At(ch, 0)))
    case Stagger(dt, next, c) => Staggered(dt, next, c, ctx.time, Op(c, ctx, At(ch, 0)))
    case Mix(idx, gs) =>
      SizeOfMember(gs, idx);
      var r := Op(gs[idx], ctx, At(ch, 0));
      if r.NotNil() then
        MixKept(idx, gs, r, Here(ch))
      else
        var rest := Remixed(idx, gs, r, Here(ch));
        MixDropped(idx, gs, r, rest, Op(rest, ctx, At(ch, 1)))
    case Any(gs) =>
      AnyPicked(gs, OpAll(gs, ctx, ch, 1), Draws(ch))
  }

  /** The draws that break ties between the children of `Any`. */
  function Draws(ch: Oracle): nat -> nat {
    (i: nat) => ch([0, i])
  }

  /** Every child of `Any` is asked once; child `i` draws from position `k + i`. */
  function OpAll(gs: seq<Gen>, ctx: Context, ch: Oracle, k: nat): (rs: seq<OpResult>)
    requires AllWellFormed(gs) && ctx.Valid()
    ensures Answers(gs, rs)
    decreases SizeAll(gs), 1
  {
    if |gs| == 0 then []
    else [Op(gs[0], ctx, At(ch, k))] + OpAll(gs[1..], ctx, ch, k + 1)
  }

  lemma {:induction false} OpAllAt(gs: seq<Gen>, ctx: Context, ch: Oracle, k: nat, i: nat)
    requires AllWellFormed(gs) && ctx.Valid() && i < |gs|
    ensures OpAll(gs, ctx, ch, k)[i] == Op(gs[i], ctx, At(ch, k + i))
    decreases i
  {
    hide Op, WellFormed, Answer;
    var rest := OpAll(gs[1..], ctx, ch, k + 1);
    assert OpAll(gs, ctx, ch, k) == [Op(gs[0], ctx, At(ch, k))] + rest;
    if i > 0 {
      OpAllAt(gs[1..], ctx, ch, k + 1, i - 1);
      assert OpAll(gs, ctx, ch, k)[i] == rest[i - 1];
    }
  }

  // ----- One equation for each combinator -----

  lemma OpLeaf(o: Operation, ctx: Context, ch: Oracle)
    requires ctx.Valid()
    ensures var e := FillIn(ctx, o, Here(ch));
            Op(OpGen(o), ctx, ch) == OpResult(e, if e.kind.Pending? then OpGen(o) else Null, OpGen(o))
  {
  }

  lemma OpFun(f: (Context, nat) -> Operation, ctx: Context, ch: Oracle)
    requires WellFormed(FunGen(f)) && ctx.Valid()
    ensures var o := f(ctx, ch([0]));
            Op(FunGen(f), ctx, ch) == Unfolded(FunGen(f), o, FillIn(ctx, o, Here(ch)))
  {
  }

  lemma OpList(gs: seq<Gen>, ctx: Context, ch: Oracle)
    requires WellFormed(ListGen(gs)) && ctx.Valid()
    ensures var r := Op(gs[0], ctx, At(ch, 0));
            Op(ListGen(gs), ctx, ch) ==
            if !r.op.kind.Nil? then ListKept(gs, r)
            else if |gs| == 1 then NilResult(ListKept(gs, r).after)
            else ListPopped(gs, r, Popped(gs, r), Op(Popped(gs, r), ctx, At(ch, 1)))
  {
  }

  lemma OpValidate(c: Gen, ctx: Context, ch: Oracle)
    requires WellFormed(Validate(c)) && ctx.Valid()
    ensures Op(Validate(c), ctx, ch) == Validated(c, Op(c, ctx, At(ch, 0)))
  {
  }

  lemma OpOnThreads(c: Gen, f: int -> bool, ctx: Context, ch: Oracle)
    requires WellFormed(OnThreads(c, f)) && ctx.Valid()
    ensures Op(OnThreads(c, f), ctx, ch) == Filtered(c, f, Op(c, OnThreadsContext(f, ctx), At(ch, 0)))
  {
  }

  lemma OpTimeLimit(limit: int, cutoff: int, c: Gen, ctx: Context, ch: Oracle)
    requires WellFormed(TimeLimit(limit, cutoff, c)) && ctx.Valid()
    ensures Op(TimeLimit(limit, cutoff, c), ctx, ch) == Limited(limit, cutoff, c, Op(c, ctx, At(ch, 0)))
  {
  }

  lemma OpStagger(dt: int, next: int, c: Gen, ctx: Context, ch: Oracle)
    requires WellFormed(Stagger(dt, next, c)) && ctx.Valid()
    ensures Op(Stagger(dt, next, c), ctx, ch) == Staggered(dt, next, c, ctx.time, Op(c, ctx, At(ch, 0)))
  {
  }

  lemma OpMix(idx: int, gs: seq<Gen>, ctx: Context, ch: Oracle)
    requires WellFormed(Mix(idx, gs)) && ctx.Valid()
    ensures var r := Op(gs[idx], ctx, At(ch, 0));
            Op(Mix(idx, gs), ctx, ch) ==
            if r.NotNil() then MixKept(idx, gs, r, Here(ch))
            else var rest := Remixed(idx, gs, r, Here(ch)); MixDropped(idx, gs, r, rest, Op(rest, ctx, At(ch, 1)))
  {
  }

  lemma AnyChildren(gs: seq<Gen>)
    requires WellFormed(Any(gs))
    ensures AllWellFormed(gs)
  {
  }

  lemma OpAny(gs: seq<Gen>, ctx: Context, ch: Oracle)
    requires WellFormed(Any(gs)) && ctx.Valid()
    ensures var rs := OpAll(gs, ctx, ch, 1);
            && Op(Any(gs), ctx, ch) == AnyPicked(gs, rs, Draws(ch))
            && Answers(gs, rs)
            && forall i | 0 <= i < |gs| :: rs[i] == Op(gs[i], ctx, At(ch, i + 1))
  {
    hide Op, WellFormed, AnyPicked, Answer;
    AnyChildren(gs);
    forall i | 0 <= i < |gs| ensures OpAll(gs, ctx, ch, 1)[i] == Op(gs[i], ctx, At(ch, i + 1)) {
      OpAllAt(gs, ctx, ch, 1, i);
    }
    hide OpAll;
    OpAnyPicked(gs, ctx, ch);
  }

  lemma OpAnyPicked(gs: seq<Gen>, ctx: Context, ch: Oracle)
    requires WellFormed(Any(gs)) && ctx.Valid()
    ensures Op(Any(gs), ctx, ch) == AnyPicked(gs, OpAll(gs, ctx, ch, 1), Draws(ch))
  {
  }

  // ----- The answers of the single combinators -----

  lemma MixIntro(idx: int, gs: seq<Gen>)
    requires 0 <= idx < |gs| && AllWellFormed(gs) && SomeInexhaustible(gs)
    ensures WellFormed(Mix(idx, gs)) && Inexhaustible(Mix(idx, gs))
  {
  }

  lemma ListIntro(gs: seq<Gen>)
    requires |gs| > 0 && AllReady(gs)
    ensures WellFormed(ListGen(gs))
    ensures SomeInexhaustible(gs) ==> Inexhaustible(ListGen(gs))
  {
  }

  lemma SameIntro(idx: int, xs: seq<Gen>, ys: seq<Gen>)
    requires SameAll(xs, ys)
    ensures Same(ListGen(xs), ListGen(ys)) && Same(Mix(idx, xs), Mix(idx, ys)) && Same(Any(xs), Any(ys))
  {
    SameAllErase(xs, ys);
  }

  /** A function unfolds into a list of its operation and itself, and that list is asked. */
  function Unfolded(g: Gen, o: Operation, e: Operation): (r: OpResult)
    requires g.FunGen? && WellFormed(g) && !e.kind.Nil?
    ensures Answer(g, r)
  {
    var gs := [if e.kind.Pending? then OpGen(o) else Null, g];
    assert Inexhaustible(gs[1]);
    ListIntro(gs);
    OpResult(e, ListGen(gs), g)
  }

  /** Only the log tells a validated generator from its child. */
  function Validated(c: Gen, r: OpResult): (vr: OpResult)
    requires Ready(c) && Answer(c, r)
    ensures Answer(Validate(c), vr)
  {
    OpResult(r.op, if r.NotNil() then Validate(r.next) else r.next, Validate(r.after))
  }

  /** The child was asked in the restricted context. */
  function Filtered(c: Gen, f: int -> bool, r: OpResult): (fr: OpResult)
    requires Ready(c) && Answer(c, r)
    ensures Answer(OnThreads(c, f), fr)
  {
    if r.NotNil() then
      OpResult(r.op, OnThreads(r.next, f), OnThreads(r.after, f))
    else
      NilResult(OnThreads(r.after, f))
  }

  lemma ListKeptOk(gs: seq<Gen>, r: OpResult)
    requires |gs| > 0 && AllReady(gs) && Answer(gs[0], r)
    ensures Same(ListGen(gs[0 := r.after]), ListGen(gs))
    ensures |gs| > 1 ==> WellFormed(ListGen([r.next] + CopyAll(gs[1..])))
    ensures |gs| > 1 && !r.op.kind.Nil? && Inexhaustible(ListGen(gs)) ==>
              Inexhaustible(ListGen([r.next] + CopyAll(gs[1..])))
  {
    SameIntro(0, gs[0 := r.after], gs);
    CopySameAll(gs[1..]);
    SameKeepsAll(CopyAll(gs[1..]), gs[1..]);
    TailReady(gs, r.next, CopyAll(gs[1..]));
    if |gs| > 1 && !r.op.kind.Nil? && Inexhaustible(ListGen(gs)) {
      TailInexhaustible(gs, r.next, CopyAll(gs[1..]));
    }
  }

  lemma TailReady(gs: seq<Gen>, g: Gen, tail: seq<Gen>)
    requires |gs| > 0 && AllReady(gs) && Ready(g) && |tail| == |gs| - 1
    requires forall i | 0 <= i < |tail| :: WellFormed(tail[i]) == WellFormed(gs[1..][i])
    requires forall i | 0 <= i < |tail| :: tail[i].Null? == gs[1..][i].Null?
    ensures WellFormed(ListGen([g] + tail))
  {
    var next := [g] + tail;
    assert AllReady(next) by {
      hide WellFormed;
      forall i | 0 < i < |next| ensures Ready(next[i]) {
        assert next[i] == tail[i - 1] && gs[i] == gs[1..][i - 1];
      }
    }
    ListIntro(next);
  }

  lemma TailInexhaustible(gs: seq<Gen>, g: Gen, tail: seq<Gen>)
    requires |gs| > 0 && |tail| == |gs| - 1 && Inexhaustible(ListGen(gs)) && (Inexhaustible(gs[0]) ==> Inexhaustible(g))
    requires forall i | 0 <= i < |tail| :: Inexhaustible(tail[i]) == Inexhaustible(gs[1..][i])
    ensures Inexhaustible(ListGen([g] + tail))
  {
    var next := [g] + tail;
    var i :| 0 <= i < |gs| && Inexhaustible(gs[i]);
    assert i > 0 ==> gs[i] == gs[1..][i - 1] && next[i] == tail[i - 1];
    assert Inexhaustible(next[i]);
  }

  /** The first element of a list has answered. */
  function ListKept(gs: seq<Gen>, r: OpResult): (lr: OpResult)
    requires |gs| > 0 && AllReady(gs) && Answer(gs[0], r)
    ensures Same(lr.after, ListGen(gs))
    ensures !r.op.kind.Nil? ==> Answer(ListGen(gs), lr)
  {
    ListKeptOk(gs, r);
    OpResult(r.op, if |gs| > 1 then ListGen([r.next] + CopyAll(gs[1..])) else r.next, ListGen(gs[0 := r.after]))
  }

  lemma PoppedOk(gs: seq<Gen>, r: OpResult)
    requires |gs| > 1 && AllReady(gs) && Answer(gs[0], r) && !r.NotNil()
    ensures AllReady(gs[1..])
    ensures var rest := ListGen(CopyAll(gs[1..]));
            && WellFormed(rest) && Size(rest) < Size(ListGen(gs)) && Same(rest, ListGen(gs[1..]))
            && (Inexhaustible(ListGen(gs)) ==> Inexhaustible(rest))
  {
    hide Copy, Erase, WellFormed;
    var cs := CopyAll(gs[1..]);
    CopySameAll(gs[1..]);
    SameKeepsAll(cs, gs[1..]);
    SameIntro(0, cs, gs[1..]);
    ListIntro(cs);
    if Inexhaustible(ListGen(gs)) {
      var i :| 0 <= i < |gs| && Inexhaustible(gs[i]);
      assert gs[i] == gs[1..][i - 1];
      assert Inexhaustible(cs[i - 1]);
    }
  }

  /** The list without its exhausted first element. */
  function Popped(gs: seq<Gen>, r: OpResult): (rest: Gen)
    requires |gs| > 1 && AllReady(gs) && Answer(gs[0], r) && !r.NotNil()
    ensures rest == ListGen(CopyAll(gs[1..]))
    ensures WellFormed(rest) && Size(rest) < Size(ListGen(gs))
    ensures Inexhaustible(ListGen(gs)) ==> Inexhaustible(rest)
    ensures Same(rest, ListGen(gs[1..]))
  {
    PoppedOk(gs, r);
    ListGen(CopyAll(gs[1..]))
  }

  lemma ListPoppedOk(gs: seq<Gen>, after: Gen, restAfter: Gen)
    requires |gs| > 1 && Same(after, gs[0]) && Same(restAfter, ListGen(gs[1..]))
    ensures Same(ListGen([after] + WriteBackAll(gs[1..], restAfter.gens)), ListGen(gs))
  {
    WriteBackSame(ListGen(gs[1..]), restAfter);
    var back := WriteBackAll(gs[1..], restAfter.gens);
    SameAllErase(back, gs[1..]);
    var afters := [after] + back;
    forall i | 0 <= i < |gs| ensures Same(afters[i], gs[i]) {
      if i > 0 {
        assert Same(back[i - 1], gs[1..][i - 1]);
      }
    }
    SameIntro(0, afters, gs);
  }

  /** The rest of a list has answered in place of its exhausted first element. */
  function ListPopped(gs: seq<Gen>, r: OpResult, rest: Gen, s: OpResult): (lr: OpResult)
    requires |gs| > 1 && AllReady(gs) && Answer(gs[0], r)
    requires Same(rest, ListGen(gs[1..])) && Answer(rest, s)
    requires Inexhaustible(ListGen(gs)) ==> Inexhaustible(rest)
    ensures Answer(ListGen(gs), lr)
  {
    ListPoppedOk(gs, r.after, s.after);
    OpResult(s.op, s.next, ListGen([r.after] + WriteBackAll(gs[1..], s.after.gens)))
  }

  lemma ListPoppedIs(gs: seq<Gen>, r: OpResult, rest: Gen, s: OpResult)
    requires |gs| > 1 && AllReady(gs) && Answer(gs[0], r)
    requires Same(rest, ListGen(gs[1..])) && Answer(rest, s)
    requires Inexhaustible(ListGen(gs)) ==> Inexhaustible(rest)
    ensures s.after.ListGen? && EraseAll(s.after.gens) == EraseAll(gs[1..])
    ensures ListPopped(gs, r, rest, s) ==
            OpResult(s.op, s.next, ListGen([r.after] + WriteBackAll(gs[1..], s.after.gens)))
  {
    hide WriteBack, WellFormed, Inexhaustible;
  }

  /** The first operation offered sets the cutoff in the receiver; later ones must be earlier than it. */
  function Limited(limit: int, cutoff: int, c: Gen, r: OpResult): (lr: OpResult)
    requires WellFormed(c) && Answer(c, r)
    ensures Answer(TimeLimit(limit, cutoff, c), lr)
  {
    if !r.NotNil() then
      NilResult(TimeLimit(limit, cutoff, r.after))
    else if r.op.kind.Pending? then
      OpResult(r.op, TimeLimit(limit, cutoff, r.next), TimeLimit(limit, cutoff, r.after))
    else
      var cut := if cutoff == INVALID_TIME then r.op.time + limit else cutoff;
      if r.op.time < cut then
        OpResult(r.op, TimeLimit(limit, cut, r.next), TimeLimit(limit, cut, r.after))
      else
        NilResult(TimeLimit(limit, cut, r.after))
  }

  /** The successor's next time is thrown away by the constructor that receives it. */
  function Staggered(dt: int, next: int, c: Gen, now: int, r: OpResult): (sr: OpResult)
    requires dt > 0 && WellFormed(c) && Answer(c, r)
    ensures Answer(Stagger(dt, next, c), sr)
  {
    SameKeeps(r.after, c);
    if !r.NotNil() then
      NilResult(Stagger(dt, next, r.after))
    else
      var due := if next == INVALID_TIME then now else next;
      if r.op.kind.Pending? then
        OpResult(r.op, Stagger(dt, due, r.after), Stagger(dt, due, r.after))
      else
        OpResult(if due > r.op.time then r.op.(time := due) else r.op,
                 Stagger(dt, INVALID_TIME, r.next), Stagger(dt, due, r.after))
  }

  /** A copy of the children with one of them replaced. */
  function Replaced(gs: seq<Gen>, idx: int, g: Gen): (cs: seq<Gen>)
    requires AllWellFormed(gs) && 0 <= idx < |gs| && WellFormed(g)
    ensures cs == CopyAll(gs)[idx := g]
    ensures |cs| == |gs| && AllWellFormed(cs)
    ensures forall i | 0 <= i < |gs| && i != idx :: Same(cs[i], gs[i]) && Inexhaustible(cs[i]) == Inexhaustible(gs[i])
  {
    CopySameAll(gs);
    SameKeepsAll(CopyAll(gs), gs);
    CopyAll(gs)[idx := g]
  }

  /** The child at the index has answered; a new index is drawn for the successor. */
  function MixKept(idx: int, gs: seq<Gen>, r: OpResult, draw: nat): (mr: OpResult)
    requires WellFormed(Mix(idx, gs)) && Answer(gs[idx], r) && r.NotNil()
    ensures Answer(Mix(idx, gs), mr)
  {
    var after := gs[idx := r.after];
    SameIntro(idx, after, gs);
    var next := Replaced(gs, idx, r.next);
    assert SomeInexhaustible(next) by {
      var i :| 0 <= i < |gs| && Inexhaustible(gs[i]);
      assert Inexhaustible(next[i]);
    }
    MixIntro(draw % |next|, next);
    OpResult(r.op, Mix(draw % |next|, next), Mix(idx, after))
  }

  lemma MixKeptIs(idx: int, gs: seq<Gen>, r: OpResult, draw: nat)
    requires WellFormed(Mix(idx, gs)) && Answer(gs[idx], r) && r.NotNil()
    ensures 0 <= idx < |gs| && AllWellFormed(gs) && WellFormed(r.next)
    ensures MixKept(idx, gs, r, draw) ==
            OpResult(r.op, Mix(draw % |gs|, Replaced(gs, idx, r.next)), Mix(idx, gs[idx := r.after]))
  {
    hide Erase, Copy, Inexhaustible, Replaced;
  }

  /** The mix without its exhausted child, with a new index. */
  function Remixed(idx: int, gs: seq<Gen>, r: OpResult, draw: nat): (rest: Gen)
    requires WellFormed(Mix(idx, gs)) && Answer(gs[idx], r) && !r.NotNil()
    ensures rest.Mix? && Same(rest, Mix(rest.idx, Without(gs, idx)))
    ensures AllReady(Without(gs, idx)) && rest.gens == CopyAll(Without(gs, idx))
    ensures WellFormed(rest) && Size(rest) < Size(Mix(idx, gs))
  {
    var others := Without(gs, idx);
    RemixedOk(idx, gs, r);
    assert 0 <= draw % |others| < |others|;
    Mix(draw % |others|, CopyAll(others))
  }

  /** Dropping a child that is not inexhaustible leaves an inexhaustible one behind. */
  lemma RemixedOk(idx: int, gs: seq<Gen>, r: OpResult)
    requires WellFormed(Mix(idx, gs)) && Answer(gs[idx], r) && !r.NotNil()
    ensures AllWellFormed(Without(gs, idx)) && |Without(gs, idx)| > 0
    ensures forall i | 0 <= i < |Without(gs, idx)| ::
              var m := Mix(i, CopyAll(Without(gs, idx)));
              WellFormed(m) && Size(m) < Size(Mix(idx, gs)) && Same(m, Mix(i, Without(gs, idx)))
  {
    hide Copy, Erase, Inexhaustible;
    var others := Without(gs, idx);
    assert AllWellFormed(others);
    hide WellFormed;
    CopySameAll(others);
    SameKeepsAll(CopyAll(others), others);
    SizeOfMember(gs, idx);
    SomeOther(idx, gs);
    SomeStays(others, CopyAll(others));
    forall i | 0 <= i < |others|
      ensures var m := Mix(i, CopyAll(others));
              WellFormed(m) && Size(m) < Size(Mix(idx, gs)) && Same(m, Mix(i, others))
    {
      MixIntro(i, CopyAll(others));
      SameIntro(i, CopyAll(others), others);
    }
  }

  lemma SomeOther(idx: int, gs: seq<Gen>)
    requires SomeInexhaustible(gs) && 0 <= idx < |gs| && !Inexhaustible(gs[idx])
    ensures SomeInexhaustible(Without(gs, idx))
  {
    hide Inexhaustible;
    var i :| 0 <= i < |gs| && Inexhaustible(gs[i]);
    assert Without(gs, idx)[if i < idx then i else i - 1] == gs[i];
  }

  lemma SomeStays(gs: seq<Gen>, cs: seq<Gen>)
    requires SomeInexhaustible(gs) && |cs| == |gs|
    requires forall i | 0 <= i < |cs| :: Inexhaustible(cs[i]) == Inexhaustible(gs[i])
    ensures SomeInexhaustible(cs)
  {
    hide Inexhaustible;
    var i :| 0 <= i < |gs| && Inexhaustible(gs[i]);
    assert Inexhaustible(cs[i]);
  }

  /** The other children have answered in place of the exhausted one. */
  function MixDropped(idx: int, gs: seq<Gen>, r: OpResult, rest: Gen, s: OpResult): (mr: OpResult)
    requires WellFormed(Mix(idx, gs)) && Answer(gs[idx], r) && !r.NotNil()
    requires WellFormed(rest) && rest.Mix? && Same(rest, Mix(rest.idx, Without(gs, idx))) && Answer(rest, s)
    ensures Answer(Mix(idx, gs), mr)
  {
    var others := Without(gs, idx);
    SameAllErase(s.after.gens, others);
    WriteBackSameAll(others, s.after.gens);
    var after := Reinserted(gs, idx, WriteBackAll(others, s.after.gens), r.after);
    SameIntro(idx, after, gs);
    SameKeeps(rest, Mix(rest.idx, others));
    OpResult(s.op, s.next, Mix(idx, after))
  }

  lemma MixDroppedIs(idx: int, gs: seq<Gen>, r: OpResult, rest: Gen, s: OpResult)
    requires WellFormed(Mix(idx, gs)) && Answer(gs[idx], r) && !r.NotNil()
    requires WellFormed(rest) && rest.Mix? && Same(rest, Mix(rest.idx, Without(gs, idx))) && Answer(rest, s)
    ensures s.after.Mix?
    ensures var back := WriteBackAll(Without(gs, idx), s.after.gens);
            MixDropped(idx, gs, r, rest, s) == OpResult(s.op, s.next, Mix(idx, back[..idx] + [r.after] + back[idx..]))
  {
    hide WriteBack, WellFormed, Inexhaustible, Size;
  }

  /** The children with the dropped one put back in its place. */
  function Reinserted(gs: seq<Gen>, idx: int, back: seq<Gen>, g: Gen): (after: seq<Gen>)
    requires 0 <= idx < |gs| && SameAll(back, Without(gs, idx)) && Same(g, gs[idx])
    ensures SameAll(after, gs)
  {
    var after := back[..idx] + [g] + back[idx..];
    assert SameAll(after, gs) by {
      forall i | 0 <= i < |gs| ensures Same(after[i], gs[i]) {
        if i < idx {
          assert after[i] == back[i] && Without(gs, idx)[i] == gs[i];
        } else if i > idx {
          assert after[i] == back[i - 1] && Without(gs, idx)[i - 1] == gs[i];
        }
      }
    }
    after
  }

  function OffersOf(rs: seq<OpResult>): (os: Offers)
    ensures |os| == |rs|
    ensures forall i | 0 <= i < |rs| :: os[i] == Offer(rs[i].NotNil(), rs[i].op)
  {
    seq(|rs|, i requires 0 <= i < |rs| => Offer(rs[i].NotNil(), rs[i].op))
  }

  function AftersOf(rs: seq<OpResult>): (gs: seq<Gen>)
    ensures |gs| == |rs|
    ensures forall i | 0 <= i < |rs| :: gs[i] == rs[i].after
  {
    seq(|rs|, i requires 0 <= i < |rs| => rs[i].after)
  }

  ghost predicate Answers(gs: seq<Gen>, rs: seq<OpResult>) {
    |rs| == |gs| && forall i | 0 <= i < |gs| :: Answer(gs[i], rs[i])
  }

  lemma AftersSame(gs: seq<Gen>, rs: seq<OpResult>)
    requires AllWellFormed(gs) && Answers(gs, rs)
    ensures SameAll(AftersOf(rs), gs) && AllWellFormed(AftersOf(rs))
    ensures Same(Any(AftersOf(rs)), Any(gs))
  {
    forall i | 0 <= i < |gs| ensures Same(AftersOf(rs)[i], gs[i]) {
      assert Answer(gs[i], rs[i]);
    }
    SameIntro(0, AftersOf(rs), gs);
    SameKeepsAll(AftersOf(rs), gs);
  }

  /** The index of the child that `Any` chooses, or -1. */
  function Chosen(rs: seq<OpResult>, draws: nat -> nat): (idx: int)
    ensures -1 <= idx < |rs|
    ensures idx == -1 ==> forall i | 0 <= i < |rs| :: !rs[i].NotNil()
    ensures idx != -1 ==> rs[idx].NotNil()
  {
    FoldCorrect(OffersOf(rs), draws, |rs|);
    assert forall i | 0 <= i < |rs| :: OffersOf(rs)[i].usable == rs[i].NotNil();
    Fold(OffersOf(rs), draws, |rs|).idx
  }

  lemma PickedKeeps(gs: seq<Gen>, rs: seq<OpResult>, idx: int)
    requires AllWellFormed(gs) && Answers(gs, rs) && 0 <= idx < |rs| && rs[idx].NotNil()
    requires AllWellFormed(AftersOf(rs)) && WellFormed(rs[idx].next) && SomeInexhaustible(gs)
    ensures SomeInexhaustible(Replaced(AftersOf(rs), idx, rs[idx].next))
  {
    var i :| 0 <= i < |gs| && Inexhaustible(gs[i]);
    AftersSame(gs, rs);
    assert Answer(gs[i], rs[i]);
    SameKeeps(AftersOf(rs)[i], gs[i]);
    assert Inexhaustible(Replaced(AftersOf(rs), idx, rs[idx].next)[i]);
  }

  lemma NobodyUsable(gs: seq<Gen>, rs: seq<OpResult>)
    requires Answers(gs, rs) && forall i | 0 <= i < |rs| :: !rs[i].NotNil()
    ensures !SomeInexhaustible(gs)
  {
    forall i | 0 <= i < |gs| ensures !Inexhaustible(gs[i]) {
      assert Answer(gs[i], rs[i]);
    }
  }

  lemma AnyIntro(gs: seq<Gen>)
    requires AllWellFormed(gs)
    ensures WellFormed(Any(gs)) && Inexhaustible(Any(gs)) == SomeInexhaustible(gs)
  {
  }

  lemma PickedOk(gs: seq<Gen>, rs: seq<OpResult>, idx: int)
    requires AllWellFormed(gs) && Answers(gs, rs) && 0 <= idx < |rs| && rs[idx].NotNil()
    ensures WellFormed(rs[idx].next) && AllWellFormed(AftersOf(rs))
    ensures Answer(Any(gs), OpResult(rs[idx].op, Any(Replaced(AftersOf(rs), idx, rs[idx].next)), Any(AftersOf(rs))))
  {
    assert Answer(gs[idx], rs[idx]);
    AftersSame(gs, rs);
    AnyIntro(gs);
    AnyIntro(Replaced(AftersOf(rs), idx, rs[idx].next));
    if SomeInexhaustible(gs) {
      PickedKeeps(gs, rs, idx);
    }
  }

  /** The soonest usable child is replaced by its successor in a copy of the receiver. */
  function AnyPicked(gs: seq<Gen>, rs: seq<OpResult>, draws: nat -> nat): (ar: OpResult)
    requires AllWellFormed(gs) && Answers(gs, rs)
    ensures Answer(Any(gs), ar)
  {
    var idx := Chosen(rs, draws);
    if idx == -1 then
      AftersSame(gs, rs);
      NobodyUsable(gs, rs);
      AnyIntro(gs);
      NilResult(Any(AftersOf(rs)))
    else
      PickedOk(gs, rs, idx);
      OpResult(rs[idx].op, Any(Replaced(AftersOf(rs), idx, rs[idx].next)), Any(AftersOf(rs)))
  }

  lemma AnyPickedIs(gs: seq<Gen>, rs: seq<OpResult>, draws: nat -> nat)
    requires AllWellFormed(gs) && Answers(gs, rs)
    ensures var idx := Chosen(rs, draws);
            if idx == -1 then AnyPicked(gs, rs, draws) == NilResult(Any(AftersOf(rs)))
            else
              && WellFormed(rs[idx].next) && AllWellFormed(AftersOf(rs))
              && AnyPicked(gs, rs, draws) ==
                  OpResult(rs[idx].op, Any(Replaced(AftersOf(rs), idx, rs[idx].next)), Any(AftersOf(rs)))
  {
    hide Inexhaustible, WellFormed, Erase, Copy, Replaced, Fold;
    if Chosen(rs, draws) != -1 {
      PickedOk(gs, rs, Chosen(rs, draws));
    }
  }
}
