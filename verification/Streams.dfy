/** The exact sequence of operations that a finite generator hands out.

    A wrapper passes an answer on only if it has a successor, so it loses the last operation of a
    child that ends without one.  `Stream` predicts both the operations and whether the last of
    them comes without a successor. */
module Streams {
  import opened Operations
  import opened Contexts
  import opened Generators
  import opened Evaluation

  /** Generators built from operations that can be dispatched, lists, Validate, OnThreads and Stagger. */
  ghost predicate Plain(g: Gen) {
    match g
    case Null => true
    case OpGen(o) => o.Dispatchable()
    case ListGen(gs) => forall i | 0 <= i < |gs| :: Plain(gs[i])
    case Validate(c) => Plain(c)
    case OnThreads(c, _) => Plain(c)
    case Stagger(_, _, c) => Plain(c)
    case _ => false
  }

  /** The operations in order, and whether the last one closes the generator. */
  datatype Emits = Emits(ops: seq<Operation>, closes: bool)
  {
    /** What a wrapper lets through. */
    function Wrapped(): Emits {
      Emits(if closes && |ops| > 0 then ops[..|ops| - 1] else ops, false)
    }
  }

  ghost function Stream(g: Gen): (s: Emits)
    ensures s.closes ==> s.ops != []
  {
    match g
    case OpGen(o) => Emits([o], true)
    case ListGen(gs) => StreamAll(gs)
    case Validate(c) => Stream(c)
    case OnThreads(c, _) => Stream(c).Wrapped()
    case Stagger(_, _, c) => Stream(c).Wrapped()
    case _ => Emits([], false)
  }

  /** One after the other; only the last element can close the list. */
  ghost function StreamAll(gs: seq<Gen>): (s: Emits)
    ensures s.closes ==> s.ops != []
  {
    if |gs| == 0 then Emits([], false)
    else
      var s, rest := Stream(gs[0]), StreamAll(gs[1..]);
      Emits(s.ops + rest.ops, if |gs| == 1 then s.closes else rest.closes)
  }

  // ----- Erasure keeps streams -----

  lemma {:induction false} EraseStream(g: Gen)
    ensures Stream(Erase(g)) == Stream(g) && Plain(Erase(g)) == Plain(g)
  {
    match g
    case Null =>
    case OpGen(_) =>
    case FunGen(_) =>
    case ListGen(gs) => EraseStreamAll(gs);
    case Validate(c) => EraseStream(c);
    case OnThreads(c, _) => EraseStream(c);
    case TimeLimit(_, _, _) =>
    case Stagger(_, _, c) => EraseStream(c);
    case Mix(_, _) =>
    case Any(_) =>
  }

  lemma {:induction false} EraseStreamAll(gs: seq<Gen>)
    ensures StreamAll(EraseAll(gs)) == StreamAll(gs)
    ensures forall i | 0 <= i < |gs| :: Plain(EraseAll(gs)[i]) == Plain(gs[i])
  {
    if |gs| > 0 {
      EraseStream(gs[0]);
      EraseStreamAll(gs[1..]);
      assert EraseAll(gs)[1..] == EraseAll(gs[1..]);
      forall i | 0 < i < |gs| ensures Plain(EraseAll(gs)[i]) == Plain(gs[i]) {
        assert gs[i] == gs[1..][i - 1] && EraseAll(gs)[i] == EraseAll(gs[1..])[i - 1];
      }
    }
  }

  lemma SameStream(a: Gen, b: Gen)
    requires Same(a, b)
    ensures Stream(a) == Stream(b) && Plain(a) == Plain(b)
  {
    EraseStream(a);
    EraseStream(b);
  }

  lemma SameStreamAll(xs: seq<Gen>, ys: seq<Gen>)
    requires SameAll(xs, ys)
    ensures StreamAll(xs) == StreamAll(ys)
    ensures forall i | 0 <= i < |xs| :: Plain(xs[i]) == Plain(ys[i])
  {
    SameAllErase(xs, ys);
    EraseStreamAll(xs);
    EraseStreamAll(ys);
    forall i | 0 <= i < |xs| ensures Plain(xs[i]) == Plain(ys[i]) {
      SameStream(xs[i], ys[i]);
    }
  }

  // ----- One step of a stream -----

  /** The answer takes the first operation off the stream, or there is none, or it is pending. */
  ghost predicate Advances(g: Gen, r: OpResult) {
    var s, s' := Stream(g), Stream(r.next);
    && Plain(r.next)
    && (r.op.kind.Nil? ==> s.ops == [])
    && (r.op.kind.Pending? ==> !r.next.Null?)
    && (r.op.Real() ==>
          && r.op.Dispatchable()
          && s.ops != [] && s.ops[0].FilledIn() == r.op.AsIs() && s'.ops == s.ops[1..]
          && (r.next.Null? <==> s.closes && |s.ops| == 1)
          && (!r.next.Null? ==> s'.closes == s.closes))
  }

  lemma WrappedAdvances(c: Gen, r: OpResult, wg: Gen, wr: OpResult)
    requires Advances(c, r)
    requires Plain(wg) && Stream(wg) == Stream(c).Wrapped()
    requires if r.NotNil() then
               && !wr.next.Null? && wr.op.kind == r.op.kind && wr.op.payload == r.op.payload
               && (r.op.Real() ==> Stream(wr.next) == Stream(r.next).Wrapped())
               && Plain(wr.next)
             else wr.op == NIL && wr.next == Null
    ensures Advances(wg, wr)
  {
  }

  lemma {:induction false} ListGoesOn(gs: seq<Gen>, next: seq<Gen>, r: OpResult, after: Gen)
    requires |gs| > 1 && |next| == |gs| && next[0] == r.next && StreamAll(next[1..]) == StreamAll(gs[1..])
    requires Plain(ListGen(gs)) && Plain(ListGen(next)) && !r.op.kind.Nil? && Advances(gs[0], r)
    ensures Advances(ListGen(gs), OpResult(r.op, ListGen(next), after))
  {
    hide Plain, Stream, StreamAll;
    ListStream(next);
    ListStream(gs);
    assert next[0] == r.next;
  }

  lemma {:induction false} ListStream(gs: seq<Gen>)
    requires |gs| > 1
    ensures var s, rest := Stream(gs[0]), StreamAll(gs[1..]);
            Stream(ListGen(gs)) == Emits(s.ops + rest.ops, rest.closes)
  {
    assert Stream(ListGen(gs)) == StreamAll(gs);
  }

  lemma {:induction false} ListOfOne(gs: seq<Gen>)
    requires |gs| == 1
    ensures Stream(ListGen(gs)) == Stream(gs[0])
  {
    assert Stream(ListGen(gs)) == StreamAll(gs);
    assert StreamAll(gs[1..]).ops == [];
  }

  lemma ListKeptAdvances(gs: seq<Gen>, r: OpResult)
    requires |gs| > 0 && AllReady(gs) && Answer(gs[0], r) && !r.op.kind.Nil?
    requires Plain(ListGen(gs)) && Advances(gs[0], r)
    ensures Advances(ListGen(gs), ListKept(gs, r))
  {
    hide Copy, Erase, Inexhaustible, WellFormed;
    if |gs| == 1 {
      ListOfOne(gs);
    } else {
      var tail := CopyAll(gs[1..]);
      CopySameAll(gs[1..]);
      SameStreamAll(tail, gs[1..]);
      var next := [r.next] + tail;
      assert next[1..] == tail;
      assert Plain(ListGen(next)) by {
        forall i | 0 <= i < |next| ensures Plain(next[i]) {
          assert i > 0 ==> next[i] == tail[i - 1] && gs[i] == gs[1..][i - 1];
        }
      }
      ListGoesOn(gs, next, r, ListKept(gs, r).after);
    }
  }

  /** Every answer of a plain generator advances its stream. */
  lemma {:induction false} OpAdvances(g: Gen, ctx: Context, ch: Oracle)
    requires Ready(g) && ctx.Valid() && Plain(g)
    ensures Advances(g, Op(g, ctx, ch))
    decreases Size(g), 1
  {
    match g
    case Null =>
    case OpGen(o) =>
    case ListGen(gs) => ListAdvances(gs, ctx, ch);
    case Validate(c) =>
      OpAdvances(c, ctx, At(ch, 0));
      ValidateAdvances(c, ctx, ch);
    case OnThreads(c, f) =>
      OpAdvances(c, OnThreadsContext(f, ctx), At(ch, 0));
      OnThreadsAdvances(c, f, ctx, ch);
    case Stagger(dt, due, c) =>
      OpAdvances(c, ctx, At(ch, 0));
      StaggerAdvances(dt, due, c, ctx, ch);
  }

  lemma ValidateAdvances(c: Gen, ctx: Context, ch: Oracle)
    requires WellFormed(Validate(c)) && ctx.Valid() && Plain(c) && Advances(c, Op(c, ctx, At(ch, 0)))
    ensures Advances(Validate(c), Op(Validate(c), ctx, ch))
  {
    hide Op;
    OpValidate(c, ctx, ch);
  }

  lemma OnThreadsAdvances(c: Gen, f: int -> bool, ctx: Context, ch: Oracle)
    requires WellFormed(OnThreads(c, f)) && ctx.Valid() && Plain(c)
    requires Advances(c, Op(c, OnThreadsContext(f, ctx), At(ch, 0)))
    ensures Advances(OnThreads(c, f), Op(OnThreads(c, f), ctx, ch))
  {
    hide Op, Advances;
    OpOnThreads(c, f, ctx, ch);
    var r := Op(c, OnThreadsContext(f, ctx), At(ch, 0));
    AdvancesPlain(c, r);
    WrappedAdvances(c, r, OnThreads(c, f), Op(OnThreads(c, f), ctx, ch));
  }

  lemma AdvancesPlain(g: Gen, r: OpResult)
    requires Advances(g, r)
    ensures Plain(r.next)
  {
  }

  lemma StaggerAdvances(dt: int, due: int, c: Gen, ctx: Context, ch: Oracle)
    requires WellFormed(Stagger(dt, due, c)) && ctx.Valid() && Plain(c) && Advances(c, Op(c, ctx, At(ch, 0)))
    ensures Advances(Stagger(dt, due, c), Op(Stagger(dt, due, c), ctx, ch))
  {
    hide Op, Advances;
    OpStagger(dt, due, c, ctx, ch);
    var r := Op(c, ctx, At(ch, 0));
    AdvancesPlain(c, r);
    SameStream(r.after, c);
    WrappedAdvances(c, r, Stagger(dt, due, c), Op(Stagger(dt, due, c), ctx, ch));
  }

  lemma {:induction false} ListAdvances(gs: seq<Gen>, ctx: Context, ch: Oracle)
    requires WellFormed(ListGen(gs)) && ctx.Valid() && Plain(ListGen(gs))
    ensures Advances(ListGen(gs), Op(ListGen(gs), ctx, ch))
    decreases Size(ListGen(gs)), 0
  {
    hide Op;
    OpList(gs, ctx, ch);
    SizeOfMember(gs, 0);
    OpAdvances(gs[0], ctx, At(ch, 0));
    var r := Op(gs[0], ctx, At(ch, 0));
    if !r.op.kind.Nil? {
      ListKeptAdvances(gs, r);
    } else if |gs| > 1 {
      var rest := Popped(gs, r);
      SameStream(rest, ListGen(gs[1..]));
      assert StreamAll(gs).ops == StreamAll(gs[1..]).ops;
      assert Plain(ListGen(gs[1..]));
      OpAdvances(rest, ctx, At(ch, 1));
    }
  }

  // ----- Lists of operations -----

  function Ops(os: seq<Operation>): (gs: seq<Gen>)
    ensures |gs| == |os| && forall i | 0 <= i < |os| :: gs[i] == OpGen(os[i])
  {
    seq(|os|, i requires 0 <= i < |os| => OpGen(os[i]))
  }

  /** A list of operations hands out exactly those, and closes with the last. */
  lemma {:induction false} ListOfOperations(os: seq<Operation>)
    requires forall i | 0 <= i < |os| :: os[i].Dispatchable()
    ensures Stream(ListGen(Ops(os))) == Emits(os, |os| > 0)
    ensures Plain(ListGen(Ops(os)))
  {
    if |os| > 0 {
      ListOfOperations(os[1..]);
      var gs := Ops(os);
      assert gs[1..] == Ops(os[1..]);
      assert StreamAll(gs[1..]) == Stream(ListGen(gs[1..]));
      assert Stream(gs[0]).ops == [os[0]];
      assert StreamAll(gs).ops == [os[0]] + os[1..] == os;
      assert Stream(ListGen(gs)) == StreamAll(gs);
    }
  }
}
