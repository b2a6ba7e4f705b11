/** What each generator answers and what it leaves behind, in terms of what its children answer: exactly
    when an answer is passed on, what takes the generator's place and what the receiver remembers
    (src/jepsen/generator/Generator.cpp, lines 12 to 70 and 234 to 419). */
module Combinators {
  import opened Operations
  import opened Contexts
  import opened Generators
  import opened Evaluation
  import opened Leaves
  import opened Cutoffs
  import opened Alternatives

  // ----- Operations and functions -----

  /** The operation with its blanks filled in: a type, the time, and a process. */
  function FilledFor(o: Operation, now: int, process: int): Operation {
    Operation(if o.kind.Init? then Invoke else o.kind, o.payload,
              if o.time == 0 then now else o.time,
              if o.process == INVALID_PROCESS then process else o.process)
  }

  /** An operation is offered once, with its blanks filled in for some free thread; with no thread free,
      or pending of itself, it stays. */
  lemma OperationAnswers(o: Operation, ctx: Context, ch: Oracle)
    requires ctx.Valid()
    ensures var r := Op(OpGen(o), ctx, ch);
            && r.after == OpGen(o) && r.next == (if r.op.kind.Pending? then OpGen(o) else Null)
            && (r.op.kind.Pending? <==> ctx.free == {} || o.kind.Pending?)
            && (ctx.free == {} ==> r.op == o.(kind := Pending))
            && (ctx.free != {} ==> exists t | t in ctx.free :: r.op == FilledFor(o, ctx.time, ctx.workers[t]))
  {
    hide Op;
    OpLeaf(o, ctx, ch);
    var t := FillInExplained(ctx, o, Here(ch));
    assert ctx.workers.Keys * ctx.free == ctx.free;
  }

  /** A function is called once for each question.  What it returns is offered as an operation would be.
      Once offered it is gone: a null stands in its place, and the function follows.  While it is pending it
      is kept in front of the function. */
  lemma FunctionAnswers(f: (Context, nat) -> Operation, ctx: Context, ch: Oracle)
    requires WellFormed(FunGen(f)) && ctx.Valid()
    ensures var o, r := f(ctx, ch([0])), Op(FunGen(f), ctx, ch);
            && r.op == Op(OpGen(o), ctx, ch).op && r.after == FunGen(f)
            && r.next == ListGen([if r.op.kind.Pending? then OpGen(o) else Null, FunGen(f)])
  {
    hide Op;
    OpFun(f, ctx, ch);
    OpLeaf(f(ctx, ch([0])), ctx, ch);
  }

  /** After an operation has been handed out the next one comes from a new call. */
  lemma FunctionIsAskedAfresh(f: (Context, nat) -> Operation, ctx: Context, ch: Oracle, later: Context, draws: Oracle)
    requires WellFormed(FunGen(f)) && ctx.Valid() && later.Valid() && Op(FunGen(f), ctx, ch).op.Real()
    ensures Ready(Op(FunGen(f), ctx, ch).next)
    ensures var r, anew := Op(Op(FunGen(f), ctx, ch).next, later, draws), Op(FunGen(f), later, At(At(draws, 1), 0));
            r.op == anew.op && r.next == anew.next
  {
    hide Op, Copy, Inexhaustible;
    FunctionAnswers(f, ctx, ch);
    var gs := [Null, FunGen(f)];
    OpList(gs, later, draws);
    assert Op(gs[0], later, At(draws, 0)).op == NIL by {
      NullAnswers(later, At(draws, 0));
    }
    assert gs[1..] == [FunGen(f)];
    CopyOne(FunGen(f));
    OpList([FunGen(f)], later, At(draws, 1));
    FunctionAnswers(f, later, At(At(draws, 1), 0));
  }

  /** After a pending answer the operation already returned is offered before the function is called again. */
  lemma FunctionKeepsPending(f: (Context, nat) -> Operation, ctx: Context, ch: Oracle, later: Context, draws: Oracle)
    requires WellFormed(FunGen(f)) && ctx.Valid() && later.Valid() && Op(FunGen(f), ctx, ch).op.kind.Pending?
    ensures Ready(Op(FunGen(f), ctx, ch).next)
    ensures var o, r := f(ctx, ch([0])), Op(Op(FunGen(f), ctx, ch).next, later, draws);
            && r.op == Op(OpGen(o), later, At(draws, 0)).op
            && r.next == ListGen([if r.op.kind.Pending? then OpGen(o) else Null, FunGen(f)])
  {
    hide Op, Copy, Inexhaustible;
    FunctionAnswers(f, ctx, ch);
    var o := f(ctx, ch([0]));
    var gs := [OpGen(o), FunGen(f)];
    OpList(gs, later, draws);
    OperationAnswers(o, later, At(draws, 0));
    assert gs[1..] == [FunGen(f)];
    CopyOne(FunGen(f));
    assert !o.kind.Nil?;
    NotNilStays(o, later, At(draws, 0));
  }

  lemma NotNilStays(o: Operation, ctx: Context, ch: Oracle)
    requires ctx.Valid() && !o.kind.Nil?
    ensures !Op(OpGen(o), ctx, ch).op.kind.Nil?
  {
    hide Op;
    OperationAnswers(o, ctx, ch);
  }

  lemma NullAnswers(ctx: Context, ch: Oracle)
    requires ctx.Valid()
    ensures Op(Null, ctx, ch) == NilResult(Null)
  {
  }

  lemma CopyOne(g: Gen)
    requires g.FunGen? && WellFormed(g)
    ensures CopyAll([g]) == [g]
  {
  }

  // ----- Lists -----

  /** A list answers with its first element.  An answer other than nil is passed on; the successor takes the
      element's place in front of the others, or of nothing if it was alone. */
  lemma ListAnswers(gs: seq<Gen>, ctx: Context, ch: Oracle)
    requires WellFormed(ListGen(gs)) && Ready(gs[0]) && ctx.Valid() && !Op(gs[0], ctx, At(ch, 0)).op.kind.Nil?
    ensures var r, first := Op(ListGen(gs), ctx, ch), Op(gs[0], ctx, At(ch, 0));
            && r.op == first.op && r.after == ListGen(gs[0 := first.after])
            && if |gs| == 1 then r.next == first.next
               else r.next.ListGen? && |r.next.gens| == |gs| && r.next.gens[0] == first.next
                    && SettledAll(gs[1..], r.next.gens[1..])
  {
    hide Op, Copy, Inexhaustible, Settled, Erase;
    OpList(gs, ctx, ch);
    CopyAllSettled(gs[1..]);
    if |gs| > 1 {
      assert ([Op(gs[0], ctx, At(ch, 0)).next] + CopyAll(gs[1..]))[1..] == CopyAll(gs[1..]);
    }
  }

  /** An exhausted element makes way for the list of the others, which answers; nil is answered when there
      are none.  The receiver keeps the others, with what they share with their copies. */
  lemma ListMovesOn(gs: seq<Gen>, ctx: Context, ch: Oracle) returns (rest: Gen)
    requires WellFormed(ListGen(gs)) && Ready(gs[0]) && ctx.Valid() && Op(gs[0], ctx, At(ch, 0)).op.kind.Nil?
    ensures |gs| == 1 ==> Op(ListGen(gs), ctx, ch) == NilResult(ListGen([Op(gs[0], ctx, At(ch, 0)).after]))
    ensures |gs| > 1 ==>
              && rest.ListGen? && WellFormed(rest) && SettledAll(gs[1..], rest.gens)
              && Op(rest, ctx, At(ch, 1)).after.ListGen?
              && Op(ListGen(gs), ctx, ch) ==
                  OpResult(Op(rest, ctx, At(ch, 1)).op, Op(rest, ctx, At(ch, 1)).next,
                    ListGen([Op(gs[0], ctx, At(ch, 0)).after]
                            + WriteBackAll(gs[1..], Op(rest, ctx, At(ch, 1)).after.gens)))
  {
    hide Op, Copy, Inexhaustible, WriteBack, Settled, Erase, ListPopped;
    OpList(gs, ctx, ch);
    var first := Op(gs[0], ctx, At(ch, 0));
    if |gs| > 1 {
      CopyAllSettled(gs[1..]);
      rest := Popped(gs, first);
      ListPoppedIs(gs, first, rest, Op(rest, ctx, At(ch, 1)));
      assert SettledAll(gs[1..], rest.gens);
    } else {
      rest := Null;
      assert gs[0 := first.after] == [first.after];
    }
  }

  // ----- Wrappers -----

  /** Validate passes every answer on. */
  lemma ValidateAnswers(c: Gen, ctx: Context, ch: Oracle)
    requires WellFormed(Validate(c)) && Ready(c) && ctx.Valid()
    ensures var r, child := Op(Validate(c), ctx, ch), Op(c, ctx, At(ch, 0));
            && r.op == child.op && r.after == Validate(child.after)
            && r.next == if child.next.Null? then Null else Validate(child.next)
  {
    hide Op;
    OpValidate(c, ctx, ch);
  }

  /** A filter asks in the restricted context and passes on every answer that has a successor. */
  lemma FilterAnswers(c: Gen, f: int -> bool, ctx: Context, ch: Oracle)
    requires WellFormed(OnThreads(c, f)) && Ready(c) && ctx.Valid()
    ensures var r, child := Op(OnThreads(c, f), ctx, ch), Op(c, OnThreadsContext(f, ctx), At(ch, 0));
            && r.after == OnThreads(child.after, f)
            && if child.NotNil() then r.op == child.op && r.next == OnThreads(child.next, f)
               else r.op == NIL && r.next == Null
  {
    hide Op;
    OpOnThreads(c, f, ctx, ch);
  }

  /** The cutoff that counts for an operation at `time`: the one that is set, or the one that it sets. */
  function CutoffFor(limit: int, cutoff: int, time: int): int {
    if cutoff == INVALID_TIME then time + limit else cutoff
  }

  /** A time limit passes on every pending answer that has a successor, and every operation that has one
      and comes before the cutoff; it answers nil exactly otherwise. */
  lemma LimitAnswers(limit: int, cutoff: int, c: Gen, ctx: Context, ch: Oracle)
    requires WellFormed(TimeLimit(limit, cutoff, c)) && Ready(c) && ctx.Valid()
    ensures var r, child := Op(TimeLimit(limit, cutoff, c), ctx, ch), Op(c, ctx, At(ch, 0));
            var cut := if child.NotNil() && child.op.Real() then CutoffFor(limit, cutoff, child.op.time) else cutoff;
            && r.after == TimeLimit(limit, cut, child.after)
            && if child.NotNil() && (child.op.kind.Pending? || child.op.time < cut) then
                 r.op == child.op && r.next == TimeLimit(limit, cut, child.next)
               else
                 r.op == NIL && r.next == Null
  {
    hide Op;
    OpTimeLimit(limit, cutoff, c, ctx, ch);
  }

  /** In particular the first operation gets through if and only if the limit is positive, and a later one if
      and only if it comes before the cutoff. */
  lemma LimitLetsThroughIff(limit: int, cutoff: int, c: Gen, ctx: Context, ch: Oracle)
    requires WellFormed(TimeLimit(limit, cutoff, c)) && Ready(c) && ctx.Valid()
    requires Op(c, ctx, At(ch, 0)).NotNil() && Op(c, ctx, At(ch, 0)).op.Real()
    ensures Op(TimeLimit(limit, cutoff, c), ctx, ch).op == Op(c, ctx, At(ch, 0)).op <==>
            if cutoff == INVALID_TIME then limit > 0 else Op(c, ctx, At(ch, 0)).op.time < cutoff
  {
    hide Op;
    LimitAnswers(limit, cutoff, c, ctx, ch);
  }

  /** A stagger passes on every answer that has a successor.  Its receiver remembers from when on it hands
      out, which is now if it had no next time; an operation offered for earlier is put off until then.
      After a pending answer the child is kept as it is and the next time remembered; after an operation the
      next time is lost. */
  lemma StaggerAnswers(dt: int, next: int, c: Gen, ctx: Context, ch: Oracle)
    requires WellFormed(Stagger(dt, next, c)) && Ready(c) && ctx.Valid()
    ensures var r, child := Op(Stagger(dt, next, c), ctx, ch), Op(c, ctx, At(ch, 0));
            var due := if next == INVALID_TIME then ctx.time else next;
            if !child.NotNil() then r == NilResult(Stagger(dt, next, child.after))
            else
              && r.after == Stagger(dt, due, child.after)
              && if child.op.kind.Pending? then r.op == child.op && r.next == Stagger(dt, due, child.after)
                 else r.op == child.op.(time := if due > child.op.time then due else child.op.time)
                      && r.next == Stagger(dt, INVALID_TIME, child.next)
  {
    hide Op;
    OpStagger(dt, next, c, ctx, ch);
  }

  // ----- Mixes -----

  /** A mix whose current child has a usable answer gives it, and remembers what the child has become. */
  lemma MixGives(idx: int, gs: seq<Gen>, ctx: Context, ch: Oracle)
    requires WellFormed(Mix(idx, gs)) && WellFormed(gs[idx]) && ctx.Valid() && Op(gs[idx], ctx, At(ch, 0)).NotNil()
    ensures var r, child := Op(Mix(idx, gs), ctx, ch), Op(gs[idx], ctx, At(ch, 0));
            && r.op == child.op && r.after == Mix(idx, gs[idx := child.after])
            && r.next.Mix? && |r.next.gens| == |gs| && r.next.gens[idx] == child.next
            && r.next.idx == Here(ch) % |gs|
  {
    hide Op, Copy, Erase, Inexhaustible;
    OpMix(idx, gs, ctx, ch);
  }

  /** When the current child has none, the child that is drawn among the others answers in its place. */
  lemma MixPassesOn(idx: int, gs: seq<Gen>, ctx: Context, ch: Oracle) returns (rest: Gen)
    requires WellFormed(Mix(idx, gs)) && WellFormed(gs[idx]) && ctx.Valid() && !Op(gs[idx], ctx, At(ch, 0)).NotNil()
    ensures |gs| > 1 && rest.Mix? && SettledAll(Without(gs, idx), rest.gens)
    ensures rest.idx == Here(ch) % (|gs| - 1) && 0 <= rest.idx < |rest.gens| && WellFormed(rest.gens[rest.idx])
    ensures Op(rest.gens[rest.idx], ctx, At(At(ch, 1), 0)).NotNil() ==>
              && Op(Mix(idx, gs), ctx, ch).op == Op(rest.gens[rest.idx], ctx, At(At(ch, 1), 0)).op
              && Op(Mix(idx, gs), ctx, ch).next.Mix? && |Op(Mix(idx, gs), ctx, ch).next.gens| == |gs| - 1
              && Op(Mix(idx, gs), ctx, ch).next.gens[rest.idx] == Op(rest.gens[rest.idx], ctx, At(At(ch, 1), 0)).next
  {
    hide Op, Copy, Inexhaustible, WriteBack, Settled, Erase;
    rest := MixDrops(idx, gs, ctx, ch);
    MixChildren(rest.idx, rest.gens);
    if Op(rest.gens[rest.idx], ctx, At(At(ch, 1), 0)).NotNil() {
      MixGives(rest.idx, rest.gens, ctx, At(ch, 1));
    }
  }

  lemma MixChildren(idx: int, gs: seq<Gen>)
    requires WellFormed(Mix(idx, gs))
    ensures 0 <= idx < |gs| && WellFormed(gs[idx])
  {
  }

  /** The receiver keeps all children, the exhausted one in its place, and what the others share with their
      copies. */
  lemma MixRemembers(idx: int, gs: seq<Gen>, ctx: Context, ch: Oracle) returns (rest: Gen, back: seq<Gen>)
    requires WellFormed(Mix(idx, gs)) && WellFormed(gs[idx]) && ctx.Valid() && !Op(gs[idx], ctx, At(ch, 0)).NotNil()
    ensures rest.Mix? && WellFormed(rest) && SettledAll(Without(gs, idx), rest.gens)
    ensures Op(rest, ctx, At(ch, 1)).after.Mix?
    ensures back == WriteBackAll(Without(gs, idx), Op(rest, ctx, At(ch, 1)).after.gens) && |back| == |gs| - 1
    ensures Op(Mix(idx, gs), ctx, ch).after == Mix(idx, back[..idx] + [Op(gs[idx], ctx, At(ch, 0)).after] + back[idx..])
  {
    hide Op, Copy, Inexhaustible, WriteBack, Settled, Erase, MixDropped;
    OpMix(idx, gs, ctx, ch);
    var child := Op(gs[idx], ctx, At(ch, 0));
    rest := Remixed(idx, gs, child, Here(ch));
    MixDroppedIs(idx, gs, child, rest, Op(rest, ctx, At(ch, 1)));
    back := WriteBackAll(Without(gs, idx), Op(rest, ctx, At(ch, 1)).after.gens);
    CopyAllSettled(Without(gs, idx));
    assert SettledAll(Without(gs, idx), rest.gens);
  }

  // ----- Any -----

  /** `Any` asks all its children, and its receiver remembers what each has become, chosen or not; so does
      the successor for those not chosen. */
  lemma AnyRemembers(gs: seq<Gen>, ctx: Context, ch: Oracle) returns (idx: int)
    requires WellFormed(Any(gs)) && AllWellFormed(gs) && ctx.Valid()
    ensures Op(Any(gs), ctx, ch).after.Any? && |Op(Any(gs), ctx, ch).after.gens| == |gs|
    ensures forall i: nat | i < |gs| :: Op(Any(gs), ctx, ch).after.gens[i] == ChildAnswer(gs, ctx, ch, i).after
    ensures idx == -1 ==> Op(Any(gs), ctx, ch).op == NIL && Op(Any(gs), ctx, ch).next.Null?
    ensures idx != -1 ==>
              var r := Op(Any(gs), ctx, ch);
              && 0 <= idx < |gs| && r.op == ChildAnswer(gs, ctx, ch, idx).op
              && r.next.Any? && |r.next.gens| == |gs| && r.next.gens[idx] == ChildAnswer(gs, ctx, ch, idx).next
              && forall i: nat | i < |gs| && i != idx :: Settled(ChildAnswer(gs, ctx, ch, i).after, r.next.gens[i])
  {
    hide Op, Copy, Inexhaustible, WellFormed, Settled, Chosen, AnyPicked, Answer;
    OpAny(gs, ctx, ch);
    var rs := OpAll(gs, ctx, ch, 1);
    idx := Chosen(rs, Draws(ch));
    AnyPickedIs(gs, rs, Draws(ch));
    assert forall i: nat | i < |gs| :: ChildAnswer(gs, ctx, ch, i) == rs[i];
    if idx != -1 {
      SettledAllSelf(AftersOf(rs));
      PickedSettled(AftersOf(rs), AftersOf(rs), idx, rs[idx].next);
    }
  }

  // ----- What a list's receiver keeps -----

  /** Without a Mix a copy has nothing in common with its original, which stays as it was. */
  ghost predicate Unshared(g: Gen) {
    match g
    case ListGen(gs) => forall i | 0 <= i < |gs| :: Unshared(gs[i])
    case Validate(c) => Unshared(c)
    case OnThreads(c, _) => Unshared(c)
    case TimeLimit(_, _, c) => Unshared(c)
    case Stagger(_, _, c) => Unshared(c)
    case Mix(_, _) => false
    case Any(gs) => forall i | 0 <= i < |gs| :: Unshared(gs[i])
    case _ => true
  }

  lemma {:induction false} UnsharedStays(g: Gen, after: Gen)
    requires Unshared(g)
    ensures WriteBack(g, after) == g
    decreases g
  {
    match g
    case Null =>
    case OpGen(_) =>
    case FunGen(_) =>
    case ListGen(gs) =>
      if after.ListGen? {
        UnsharedAllStay(gs, after.gens);
      }
    case Validate(c) =>
      if after.Validate? {
        UnsharedStays(c, after.gen);
      }
    case OnThreads(c, _) =>
      if after.OnThreads? {
        UnsharedStays(c, after.gen);
      }
    case TimeLimit(_, _, c) =>
      if after.TimeLimit? {
        UnsharedStays(c, after.gen);
      }
    case Stagger(_, _, c) =>
      if after.Stagger? {
        UnsharedStays(c, after.gen);
      }
    case Any(gs) =>
      if after.Any? {
        UnsharedAllStay(gs, after.gens);
      }
  }

  lemma {:induction false} UnsharedAllStay(gs: seq<Gen>, afters: seq<Gen>)
    requires forall i | 0 <= i < |gs| :: Unshared(gs[i])
    ensures WriteBackAll(gs, afters) == gs
    decreases gs
  {
    if |gs| > 0 && |afters| > 0 {
      UnsharedStays(gs[0], afters[0]);
      UnsharedAllStay(gs[1..], afters[1..]);
    }
  }

  /** The children of a Mix are those of its copy, wherever the Mix stands among wrappers. */
  ghost predicate MixesShared(g: Gen, after: Gen, back: Gen) {
    match g
    case Mix(idx, _) => after.Mix? ==> back == Mix(idx, after.gens)
    case Validate(c) => after.Validate? ==> back.Validate? && MixesShared(c, after.gen, back.gen)
    case OnThreads(c, _) => after.OnThreads? ==> back.OnThreads? && MixesShared(c, after.gen, back.gen)
    case TimeLimit(_, cutoff, c) =>
      after.TimeLimit? ==> back.TimeLimit? && back.cutoff == cutoff && MixesShared(c, after.gen, back.gen)
    case Stagger(_, next, c) =>
      after.Stagger? ==> back.Stagger? && back.nextTime == next && MixesShared(c, after.gen, back.gen)
    case ListGen(gs) =>
      after.ListGen? && |after.gens| == |gs| ==>
        back.ListGen? && |back.gens| == |gs|
        && forall i | 0 <= i < |gs| :: MixesShared(gs[i], after.gens[i], back.gens[i])
    case Any(gs) =>
      after.Any? && |after.gens| == |gs| ==>
        back.Any? && |back.gens| == |gs|
        && forall i | 0 <= i < |gs| :: MixesShared(gs[i], after.gens[i], back.gens[i])
    case _ => back == g
  }

  lemma {:induction false} WriteBackShares(g: Gen, after: Gen)
    ensures MixesShared(g, after, WriteBack(g, after))
    decreases g
  {
    match g
    case Validate(c) =>
      if after.Validate? {
        WriteBackShares(c, after.gen);
      }
    case OnThreads(c, _) =>
      if after.OnThreads? {
        WriteBackShares(c, after.gen);
      }
    case TimeLimit(_, _, c) =>
      if after.TimeLimit? {
        WriteBackShares(c, after.gen);
      }
    case Stagger(_, _, c) =>
      if after.Stagger? {
        WriteBackShares(c, after.gen);
      }
    case ListGen(gs) =>
      if after.ListGen? && |after.gens| == |gs| {
        forall i | 0 <= i < |gs| ensures MixesShared(gs[i], after.gens[i], WriteBackAll(gs, after.gens)[i]) {
          WriteBackShares(gs[i], after.gens[i]);
        }
      }
    case Any(gs) =>
      if after.Any? && |after.gens| == |gs| {
        forall i | 0 <= i < |gs| ensures MixesShared(gs[i], after.gens[i], WriteBackAll(gs, after.gens)[i]) {
          WriteBackShares(gs[i], after.gens[i]);
        }
      }
    case _ =>
  }
}
