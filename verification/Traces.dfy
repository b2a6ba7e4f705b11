/** The sequences of operations that a generator can hand out, for every nesting of the combinators,
    stated without `op` and `update`: lists run in order, `Mix` and `Any` interleave their children,
    and each child contributes, in order, a prefix of what it would hand out alone. */
module Traces {
  import opened Operations
  import opened Contexts
  import opened Generators
  import opened Evaluation

  /** Where a trace leaves its generator: with a successor, at an operation that came without one,
      or exhausted by a nil answer. */
  datatype Mode = Going | Closing | Drying

  /** The elements of `ps` that belong to `i`. */
  function Part(ps: seq<Request>, owner: seq<nat>, i: nat): seq<Request>
    requires |owner| == |ps|
  {
    if |ps| == 0 then []
    else (if owner[0] == i then [ps[0]] else []) + Part(ps[1..], owner[1..], i)
  }

  /** Each element of `ps` has one of `n` owners. */
  predicate Owners(ps: seq<Request>, owner: seq<nat>, n: nat) {
    |owner| == |ps| && forall j | 0 <= j < |owner| :: owner[j] < n
  }

  predicate Cut(ps: seq<Request>, k: int) {
    0 <= k <= |ps|
  }

  ghost predicate Returns(f: (Context, nat) -> Operation, p: Request) {
    exists c, k :: f(c, k).Real() && f(c, k).FilledIn() == p
  }

  ghost predicate Can(g: Gen, ps: seq<Request>, m: Mode)
    decreases g, 0
  {
    match g
    case Null => ps == [] && !m.Closing?
    case OpGen(o) =>
      (match m
       case Going => ps == []
       case Closing => o.Real() && ps == [o.FilledIn()]
       case Drying => o.kind.Nil? && ps == [])
    case FunGen(f) => m.Going? && forall i | 0 <= i < |ps| :: Returns(f, ps[i])
    case ListGen(gs) => CanAll(gs, ps, m)
    case Validate(c) => Can(c, ps, m)
    case OnThreads(c, _) => CanWrap(c, ps, m)
    case TimeLimit(_, _, c) => !m.Closing? && Can(c, ps, Going)
    case Stagger(_, _, c) => CanWrap(c, ps, m)
    case Mix(_, gs) => m.Going? && exists owner :: Owners(ps, owner, |gs|) && Shared(gs, ps, owner, Going)
    case Any(gs) => exists owner :: Owners(ps, owner, |gs|) && Shared(gs, ps, owner, m)
  }

  /** Complete, one way or the other. */
  ghost predicate Over(g: Gen, ps: seq<Request>)
    decreases g, 1
  {
    Can(g, ps, Closing) || Can(g, ps, Drying)
  }

  /** A wrapper never closes; a child that does has its last operation dropped. */
  ghost predicate CanWrap(g: Gen, ps: seq<Request>, m: Mode)
    decreases g, 1
  {
    match m
    case Going => Can(g, ps, Going)
    case Closing => false
    case Drying => Can(g, ps, Drying) || exists p :: Can(g, ps + [p], Closing)
  }

  /** One after the other: an element starts when the ones before it are over. */
  ghost predicate CanAll(gs: seq<Gen>, ps: seq<Request>, m: Mode)
    decreases gs, 1
  {
    if |gs| == 0 then ps == [] && !m.Closing?
    else if |gs| == 1 then Can(gs[0], ps, m)
    else (m.Going? && Can(gs[0], ps, Going)) || exists k :: Cut(ps, k) && SplitAt(gs, ps, k, m)
  }

  ghost predicate SplitAt(gs: seq<Gen>, ps: seq<Request>, k: int, m: Mode)
    requires |gs| > 1 && Cut(ps, k)
    decreases gs, 0
  {
    Over(gs[0], ps[..k]) && CanAll(gs[1..], ps[k..], m)
  }

  /** Each operation belongs to one child, and the child can hand out those that belong to it. */
  ghost predicate Shared(gs: seq<Gen>, ps: seq<Request>, owner: seq<nat>, m: Mode)
    decreases gs, 0
  {
    Owners(ps, owner, |gs|) && forall i | 0 <= i < |gs| :: CanWrap(gs[i], Part(ps, owner, i), m)
  }

  // ----- Erasure keeps traces -----

  lemma {:induction false} EraseCan(g: Gen, ps: seq<Request>, m: Mode)
    ensures Can(Erase(g), ps, m) == Can(g, ps, m)
    decreases g, 0
  {
    match g
    case Null =>
    case OpGen(_) =>
    case FunGen(_) =>
    case ListGen(gs) => EraseCanAll(gs, ps, m);
    case Validate(c) => EraseCan(c, ps, m);
    case OnThreads(c, _) => EraseCanWrap(c, ps, m);
    case TimeLimit(_, _, c) => EraseCan(c, ps, Going);
    case Stagger(_, _, c) => EraseCanWrap(c, ps, m);
    case Mix(idx, gs) => EraseCanMix(idx, gs, ps, m);
    case Any(gs) => EraseCanAny(gs, ps, m);
  }

  lemma {:induction false} EraseCanWrap(g: Gen, ps: seq<Request>, m: Mode)
    ensures CanWrap(Erase(g), ps, m) == CanWrap(g, ps, m)
    decreases g, 1
  {
    hide Can;
    EraseCan(g, ps, Going);
    EraseCan(g, ps, Drying);
    forall p ensures Can(Erase(g), ps + [p], Closing) == Can(g, ps + [p], Closing) {
      EraseCan(g, ps + [p], Closing);
    }
  }

  lemma {:induction false} EraseCanAll(gs: seq<Gen>, ps: seq<Request>, m: Mode)
    ensures CanAll(EraseAll(gs), ps, m) == CanAll(gs, ps, m)
    decreases gs, 1
  {
    hide Can;
    if |gs| > 0 {
      EraseCan(gs[0], ps, m);
      EraseCan(gs[0], ps, Going);
      if |gs| > 1 {
        forall k | Cut(ps, k) ensures SplitAt(EraseAll(gs), ps, k, m) == SplitAt(gs, ps, k, m) {
          EraseCan(gs[0], ps[..k], Closing);
          EraseCan(gs[0], ps[..k], Drying);
          EraseCanAll(gs[1..], ps[k..], m);
          assert EraseAll(gs)[1..] == EraseAll(gs[1..]);
        }
      }
    }
  }

  lemma {:induction false} EraseShared(gs: seq<Gen>, ps: seq<Request>, owner: seq<nat>, m: Mode)
    ensures Shared(EraseAll(gs), ps, owner, m) == Shared(gs, ps, owner, m)
    decreases gs, 0
  {
    hide CanWrap;
    if |owner| == |ps| {
      forall i | 0 <= i < |gs| ensures CanWrap(EraseAll(gs)[i], Part(ps, owner, i), m) ==
          CanWrap(gs[i], Part(ps, owner, i), m) {
        EraseCanWrap(gs[i], Part(ps, owner, i), m);
      }
    }
  }

  lemma {:induction false} EraseCanMix(idx: int, gs: seq<Gen>, ps: seq<Request>, m: Mode)
    ensures Can(Erase(Mix(idx, gs)), ps, m) == Can(Mix(idx, gs), ps, m)
    decreases gs, 1
  {
    hide Shared;
    forall owner ensures Shared(EraseAll(gs), ps, owner, Going) == Shared(gs, ps, owner, Going) {
      EraseShared(gs, ps, owner, Going);
    }
  }

  lemma {:induction false} EraseCanAny(gs: seq<Gen>, ps: seq<Request>, m: Mode)
    ensures Can(Erase(Any(gs)), ps, m) == Can(Any(gs), ps, m)
    decreases gs, 1
  {
    hide Shared;
    forall owner ensures Shared(EraseAll(gs), ps, owner, m) == Shared(gs, ps, owner, m) {
      EraseShared(gs, ps, owner, m);
    }
  }

  lemma SameCan(a: Gen, b: Gen, ps: seq<Request>, m: Mode)
    requires Same(a, b)
    ensures Can(a, ps, m) == Can(b, ps, m)
  {
    EraseCan(a, ps, m);
    EraseCan(b, ps, m);
  }

  lemma SameCanWrap(a: Gen, b: Gen, ps: seq<Request>, m: Mode)
    requires Same(a, b)
    ensures CanWrap(a, ps, m) == CanWrap(b, ps, m)
  {
    EraseCanWrap(a, ps, m);
    EraseCanWrap(b, ps, m);
  }

  lemma SameCanAll(xs: seq<Gen>, ys: seq<Gen>, ps: seq<Request>, m: Mode)
    requires SameAll(xs, ys)
    ensures CanAll(xs, ps, m) == CanAll(ys, ps, m)
  {
    SameAllErase(xs, ys);
    EraseCanAll(xs, ps, m);
    EraseCanAll(ys, ps, m);
  }

  // ----- Nothing is always possible -----

  lemma {:induction false} CanNothing(g: Gen)
    ensures Can(g, [], Going)
  {
    match g
    case Null =>
    case OpGen(_) =>
    case FunGen(_) =>
    case ListGen(gs) => CanAllNothing(gs);
    case Validate(c) => CanNothing(c);
    case OnThreads(c, _) => CanNothing(c);
    case TimeLimit(_, _, c) => CanNothing(c);
    case Stagger(_, _, c) => CanNothing(c);
    case Mix(_, gs) => SharedNothing(gs);
    case Any(gs) => SharedNothing(gs);
  }

  lemma {:induction false} CanAllNothing(gs: seq<Gen>)
    ensures CanAll(gs, [], Going)
  {
    if |gs| > 0 {
      CanNothing(gs[0]);
    }
  }

  lemma {:induction false} SharedNothing(gs: seq<Gen>)
    ensures Shared(gs, [], [], Going)
  {
    forall i | 0 <= i < |gs| ensures CanWrap(gs[i], Part([], [], i), Going) {
      CanNothing(gs[i]);
    }
  }

  // ----- One step of a trace -----

  /** The answer is the first step of a trace, and the traces of its successor go on from there. */
  ghost predicate Leads(g: Gen, r: OpResult) {
    && (r.op.kind.Nil? ==> Can(g, [], Drying))
    && (r.op.kind.Pending? ==> !r.next.Null?)
    && (r.op.Real() && r.next.Null? ==> Can(g, [r.op.AsIs()], Closing))
    && (r.op.Real() && !r.next.Null? ==> forall ps, m | Can(r.next, ps, m) :: Can(g, [r.op.AsIs()] + ps, m))
  }

  lemma WrapLeads(c: Gen, r: OpResult)
    requires Leads(c, r)
    ensures !r.NotNil() ==> CanWrap(c, [], Drying)
    ensures r.NotNil() && r.op.Real() ==> forall ps, m | CanWrap(r.next, ps, m) :: CanWrap(c, [r.op.AsIs()] + ps, m)
  {
    hide Can;
    var p := r.op.AsIs();
    if r.NotNil() && r.op.Real() {
      forall ps, m | CanWrap(r.next, ps, m) ensures CanWrap(c, [p] + ps, m) {
        if m.Drying? && !Can(r.next, ps, Drying) {
          var q :| Can(r.next, ps + [q], Closing);
          assert [p] + (ps + [q]) == ([p] + ps) + [q];
        }
      }
    } else if r.op.Real() {
      assert [] + [p] == [p];
    }
  }

  lemma ValidateLeads(c: Gen, ctx: Context, ch: Oracle)
    requires WellFormed(Validate(c)) && ctx.Valid() && Leads(c, Op(c, ctx, At(ch, 0)))
    ensures Leads(Validate(c), Op(Validate(c), ctx, ch))
  {
    hide Op;
    OpValidate(c, ctx, ch);
    assert forall ps, m :: Can(Validate(c), ps, m) == Can(c, ps, m);
  }

  lemma TimeLimitLeads(limit: int, cutoff: int, c: Gen, ctx: Context, ch: Oracle)
    requires WellFormed(TimeLimit(limit, cutoff, c)) && ctx.Valid() && Leads(c, Op(c, ctx, At(ch, 0)))
    ensures Leads(TimeLimit(limit, cutoff, c), Op(TimeLimit(limit, cutoff, c), ctx, ch))
  {
    hide Op, Can;
    OpTimeLimit(limit, cutoff, c, ctx, ch);
    CanNothing(c);
    forall cut, d, ps, m ensures Can(TimeLimit(limit, cut, d), ps, m) <==> !m.Closing? && Can(d, ps, Going) {
      TimeLimitCan(limit, cut, d, ps, m);
    }
  }

  lemma TimeLimitCan(limit: int, cutoff: int, c: Gen, ps: seq<Request>, m: Mode)
    ensures Can(TimeLimit(limit, cutoff, c), ps, m) <==> !m.Closing? && Can(c, ps, Going)
  {
  }

  /** Wrappers that only drop an operation without a successor. */
  lemma WrappedLeads(c: Gen, r: OpResult, wg: Gen, wr: OpResult)
    requires Leads(c, r) && (wg.OnThreads? || wg.Stagger?) && wg.gen == c
    requires if r.NotNil() then
               && wr.op.kind == r.op.kind && wr.op.AsIs() == r.op.AsIs() && !wr.next.Null?
               && (r.op.Real() ==> (wr.next.OnThreads? || wr.next.Stagger?) && wr.next.gen == r.next)
             else wr.op == NIL
    ensures Leads(wg, wr)
  {
    hide Can, CanWrap;
    WrapLeads(c, r);
    WrapperCan(wg, [], Drying);
    if wr.op.Real() {
      forall ps, m | Can(wr.next, ps, m) ensures Can(wg, [wr.op.AsIs()] + ps, m) {
        WrapperCan(wr.next, ps, m);
        WrapperCan(wg, [wr.op.AsIs()] + ps, m);
      }
    }
  }

  lemma WrapperCan(g: Gen, ps: seq<Request>, m: Mode)
    requires g.OnThreads? || g.Stagger?
    ensures Can(g, ps, m) == CanWrap(g.gen, ps, m)
  {
  }

  lemma OnThreadsLeads(c: Gen, f: int -> bool, ctx: Context, ch: Oracle)
    requires WellFormed(OnThreads(c, f)) && ctx.Valid() && Leads(c, Op(c, OnThreadsContext(f, ctx), At(ch, 0)))
    ensures Leads(OnThreads(c, f), Op(OnThreads(c, f), ctx, ch))
  {
    hide Op, Leads;
    OpOnThreads(c, f, ctx, ch);
    WrappedLeads(c, Op(c, OnThreadsContext(f, ctx), At(ch, 0)), OnThreads(c, f), Op(OnThreads(c, f), ctx, ch));
  }

  lemma StaggerLeads(dt: int, due: int, c: Gen, ctx: Context, ch: Oracle)
    requires WellFormed(Stagger(dt, due, c)) && ctx.Valid() && Leads(c, Op(c, ctx, At(ch, 0)))
    ensures Leads(Stagger(dt, due, c), Op(Stagger(dt, due, c), ctx, ch))
  {
    hide Op, Leads;
    OpStagger(dt, due, c, ctx, ch);
    WrappedLeads(c, Op(c, ctx, At(ch, 0)), Stagger(dt, due, c), Op(Stagger(dt, due, c), ctx, ch));
  }

  lemma FunLeads(f: (Context, nat) -> Operation, ctx: Context, ch: Oracle)
    requires WellFormed(FunGen(f)) && ctx.Valid()
    ensures Leads(FunGen(f), Op(FunGen(f), ctx, ch))
  {
    hide Op;
    OpFun(f, ctx, ch);
    var r := Op(FunGen(f), ctx, ch);
    if r.op.Real() {
      assert Returns(f, r.op.AsIs());
      forall ps, m | Can(r.next, ps, m) ensures Can(FunGen(f), [r.op.AsIs()] + ps, m) {
        UnfoldedCan(f, ps, m);
      }
    }
  }

  lemma UnfoldedCan(f: (Context, nat) -> Operation, ps: seq<Request>, m: Mode)
    requires Can(ListGen([Null, FunGen(f)]), ps, m)
    ensures Can(FunGen(f), ps, m)
  {
    var gs := [Null, FunGen(f)];
    ListCan(gs, ps, m);
    if !(m.Going? && Can(gs[0], ps, Going)) {
      var k := SplitOf(gs, ps, m);
      assert gs[1..] == [FunGen(f)];
      assert ps[..k] == [] && ps[k..] == ps;
    }
  }

  /** The first element goes on. */
  lemma ListKeptLeads(gs: seq<Gen>, r: OpResult)
    requires |gs| > 0 && AllReady(gs) && Answer(gs[0], r) && !r.op.kind.Nil? && Leads(gs[0], r)
    ensures Leads(ListGen(gs), ListKept(gs, r))
  {
    hide Inexhaustible, Copy, Erase, WellFormed, Can, CanAll;
    if |gs| == 1 {
      forall ps, m ensures Can(ListGen(gs), ps, m) == Can(gs[0], ps, m) {
        SingleCan(gs, ps, m);
      }
    } else if r.op.Real() {
      var copies := CopyAll(gs[1..]);
      CopySameAll(gs[1..]);
      var next := [r.next] + copies;
      forall ps, m | Can(ListGen(next), ps, m) ensures Can(ListGen(gs), [r.op.AsIs()] + ps, m) {
        assert next[1..] == copies;
        ListCan(next, ps, m);
        ListCan(gs, [r.op.AsIs()] + ps, m);
        ListGoesOn(gs, next, r, ps, m);
      }
    }
  }

  lemma Split(gs: seq<Gen>, ps: seq<Request>, k: int, m: Mode)
    requires |gs| > 1 && Cut(ps, k) && Over(gs[0], ps[..k]) && CanAll(gs[1..], ps[k..], m)
    ensures CanAll(gs, ps, m)
  {
    assert SplitAt(gs, ps, k, m);
  }

  /** A trace of a list stays in the first element, or the first element is over at some point. */
  lemma SplitOf(gs: seq<Gen>, ps: seq<Request>, m: Mode) returns (k: int)
    requires |gs| > 1 && CanAll(gs, ps, m) && !(m.Going? && Can(gs[0], ps, Going))
    ensures Cut(ps, k) && Over(gs[0], ps[..k]) && CanAll(gs[1..], ps[k..], m)
  {
    k :| Cut(ps, k) && SplitAt(gs, ps, k, m);
  }

  lemma FirstGoing(gs: seq<Gen>, ps: seq<Request>)
    requires |gs| > 0 && Can(gs[0], ps, Going)
    ensures CanAll(gs, ps, Going)
  {
  }

  lemma ListGoesOn(gs: seq<Gen>, next: seq<Gen>, r: OpResult, ps: seq<Request>, m: Mode)
    requires |gs| > 1 && |next| == |gs| && next[0] == r.next && SameAll(next[1..], gs[1..])
    requires Leads(gs[0], r) && r.op.Real() && CanAll(next, ps, m)
    ensures CanAll(gs, [r.op.AsIs()] + ps, m)
  {
    hide Can, CanAll, Same;
    var p, all := r.op.AsIs(), [r.op.AsIs()] + ps;
    if m.Going? && Can(next[0], ps, Going) {
      if r.next.Null? {
        NullCan(ps, Going);
        assert all[..1] == [p] && all[1..] == [];
        CanAllNothing(gs[1..]);
        Split(gs, all, 1, m);
      } else {
        FirstGoing(gs, all);
      }
    } else {
      var k := SplitOf(next, ps, m);
      assert all[..k + 1] == [p] + ps[..k] && all[k + 1..] == ps[k..];
      SameCanAll(next[1..], gs[1..], ps[k..], m);
      if r.next.Null? {
        NullCan(ps[..k], Closing);
        NullCan(ps[..k], Drying);
        assert [p] + ps[..k] == [p];
      }
      Split(gs, all, k + 1, m);
    }
  }

  lemma ListCan(gs: seq<Gen>, ps: seq<Request>, m: Mode)
    ensures Can(ListGen(gs), ps, m) == CanAll(gs, ps, m)
  {
  }

  lemma NullCan(ps: seq<Request>, m: Mode)
    ensures Can(Null, ps, m) <==> ps == [] && !m.Closing?
  {
  }

  /** The first element is exhausted. */
  lemma ListPoppedCan(gs: seq<Gen>, rest: Gen, ps: seq<Request>, m: Mode)
    requires |gs| > 1 && Same(rest, ListGen(gs[1..])) && Can(gs[0], [], Drying) && Can(rest, ps, m)
    ensures Can(ListGen(gs), ps, m)
  {
    hide Can, CanAll, Same;
    SameCan(rest, ListGen(gs[1..]), ps, m);
    ListCan(gs[1..], ps, m);
    ListCan(gs, ps, m);
    assert ps[..0] == [] && ps[0..] == ps;
    Split(gs, ps, 0, m);
  }

  /** Every answer of every well-formed generator is a step of one of its traces. */
  lemma {:induction false} OpLeads(g: Gen, ctx: Context, ch: Oracle)
    requires Ready(g) && ctx.Valid()
    ensures Leads(g, Op(g, ctx, ch))
    decreases Size(g), 1
  {
    match g
    case Null =>
    case OpGen(o) => LeafLeads(o, ctx, ch);
    case FunGen(f) => FunLeads(f, ctx, ch);
    case ListGen(gs) => ListLeads(gs, ctx, ch);
    case Validate(c) =>
      OpLeads(c, ctx, At(ch, 0));
      ValidateLeads(c, ctx, ch);
    case OnThreads(c, f) =>
      OpLeads(c, OnThreadsContext(f, ctx), At(ch, 0));
      OnThreadsLeads(c, f, ctx, ch);
    case TimeLimit(limit, cutoff, c) =>
      OpLeads(c, ctx, At(ch, 0));
      TimeLimitLeads(limit, cutoff, c, ctx, ch);
    case Stagger(dt, due, c) =>
      OpLeads(c, ctx, At(ch, 0));
      StaggerLeads(dt, due, c, ctx, ch);
    case Mix(idx, gs) => MixLeads(idx, gs, ctx, ch);
    case Any(gs) => AnyLeads(gs, ctx, ch);
  }

  lemma LeafLeads(o: Operation, ctx: Context, ch: Oracle)
    requires ctx.Valid()
    ensures Leads(OpGen(o), Op(OpGen(o), ctx, ch))
  {
    hide Op;
    OpLeaf(o, ctx, ch);
  }

  lemma {:induction false} ListLeads(gs: seq<Gen>, ctx: Context, ch: Oracle)
    requires WellFormed(ListGen(gs)) && ctx.Valid()
    ensures Leads(ListGen(gs), Op(ListGen(gs), ctx, ch))
    decreases Size(ListGen(gs)), 0
  {
    hide Op, Can;
    OpList(gs, ctx, ch);
    SizeOfMember(gs, 0);
    OpLeads(gs[0], ctx, At(ch, 0));
    var r := Op(gs[0], ctx, At(ch, 0));
    if !r.op.kind.Nil? {
      ListKeptLeads(gs, r);
    } else if |gs| > 1 {
      var rest := Popped(gs, r);
      OpLeads(rest, ctx, At(ch, 1));
      forall ps, m | Can(rest, ps, m) ensures Can(ListGen(gs), ps, m) {
        ListPoppedCan(gs, rest, ps, m);
      }
    } else {
      SingleCan(gs, [], Drying);
    }
  }

  lemma SingleCan(gs: seq<Gen>, ps: seq<Request>, m: Mode)
    requires |gs| == 1
    ensures Can(ListGen(gs), ps, m) == Can(gs[0], ps, m)
  {
  }

  /** One child goes on, the others are as they were. */
  lemma SharedGoesOn(gs: seq<Gen>, next: seq<Gen>, idx: nat, r: OpResult, ps: seq<Request>, owner: seq<nat>, m: Mode)
    requires |next| == |gs| && idx < |gs| && next[idx] == r.next
    requires forall i | 0 <= i < |gs| && i != idx :: Same(next[i], gs[i])
    requires Leads(gs[idx], r) && r.op.Real() && r.NotNil() && Shared(next, ps, owner, m)
    ensures Shared(gs, [r.op.AsIs()] + ps, [idx] + owner, m)
  {
    hide Can, CanWrap, Leads, Same, Part;
    var p := r.op.AsIs();
    WrapLeads(gs[idx], r);
    forall i | 0 <= i < |gs| ensures CanWrap(gs[i], Part([p] + ps, [idx] + owner, i), m) {
      PartNext(p, ps, idx, owner, i);
      assert CanWrap(next[i], Part(ps, owner, i), m);
      if i != idx {
        SameCanWrap(next[i], gs[i], Part(ps, owner, i), m);
      }
    }
  }

  lemma PartNext(p: Request, ps: seq<Request>, idx: nat, owner: seq<nat>, i: nat)
    requires |owner| == |ps|
    ensures Part([p] + ps, [idx] + owner, i) == if i == idx then [p] + Part(ps, owner, i) else Part(ps, owner, i)
  {
    assert ([p] + ps)[1..] == ps && ([idx] + owner)[1..] == owner;
  }

  /** A child that is left out owns nothing. */
  function Renumbered(owner: seq<nat>, idx: nat): (r: seq<nat>)
    ensures |r| == |owner| && forall j | 0 <= j < |owner| :: r[j] == if owner[j] < idx then owner[j] else owner[j] + 1
  {
    seq(|owner|, j requires 0 <= j < |owner| => if owner[j] < idx then owner[j] else owner[j] + 1)
  }

  lemma {:induction false} PartRenumbered(ps: seq<Request>, owner: seq<nat>, idx: nat, i: nat)
    requires |owner| == |ps|
    ensures Part(ps, Renumbered(owner, idx), i) ==
            if i < idx then Part(ps, owner, i) else if i == idx then [] else Part(ps, owner, i - 1)
  {
    if |ps| > 0 {
      assert Renumbered(owner, idx)[1..] == Renumbered(owner[1..], idx);
      PartRenumbered(ps[1..], owner[1..], idx, i);
    }
  }

  lemma SharedReinserted(gs: seq<Gen>, idx: nat, ps: seq<Request>, owner: seq<nat>)
    requires idx < |gs| && Shared(Without(gs, idx), ps, owner, Going)
    ensures Shared(gs, ps, Renumbered(owner, idx), Going)
  {
    hide Can, Part;
    var others := Without(gs, idx);
    forall i | 0 <= i < |gs| ensures CanWrap(gs[i], Part(ps, Renumbered(owner, idx), i), Going) {
      PartRenumbered(ps, owner, idx, i);
      CanNothing(gs[i]);
      if i != idx {
        var j := if i < idx then i else i - 1;
        assert others[j] == gs[i];
        assert CanWrap(others[j], Part(ps, owner, j), Going);
      }
    }
  }

  lemma MixCan(idx: int, gs: seq<Gen>, ps: seq<Request>, m: Mode)
    ensures Can(Mix(idx, gs), ps, m) <==>
            m.Going? && exists owner :: Owners(ps, owner, |gs|) && Shared(gs, ps, owner, Going)
  {
  }

  lemma AnyCan(gs: seq<Gen>, ps: seq<Request>, m: Mode)
    ensures Can(Any(gs), ps, m) <==> exists owner :: Owners(ps, owner, |gs|) && Shared(gs, ps, owner, m)
  {
  }

  lemma MixDroppedCan(idx: int, gs: seq<Gen>, rest: Gen, ps: seq<Request>, m: Mode)
    requires 0 <= idx < |gs| && rest.Mix? && Same(rest, Mix(rest.idx, Without(gs, idx))) && Can(rest, ps, m)
    ensures Can(Mix(idx, gs), ps, m)
  {
    hide Can, Shared;
    SameCan(rest, Mix(rest.idx, Without(gs, idx)), ps, m);
    MixCan(rest.idx, Without(gs, idx), ps, m);
    MixCan(idx, gs, ps, m);
    var owner :| Owners(ps, owner, |gs| - 1) && Shared(Without(gs, idx), ps, owner, Going);
    SharedReinserted(gs, idx, ps, owner);
  }

  lemma MixKeptCan(idx: int, gs: seq<Gen>, r: OpResult, next: seq<Gen>, j: int, ps: seq<Request>, m: Mode)
    requires |next| == |gs| && 0 <= idx < |gs| && next[idx] == r.next
    requires forall i | 0 <= i < |gs| && i != idx :: Same(next[i], gs[i])
    requires Leads(gs[idx], r) && r.op.Real() && r.NotNil() && Can(Mix(j, next), ps, m)
    ensures Can(Mix(idx, gs), [r.op.AsIs()] + ps, m)
  {
    hide Can, Shared, Leads, Same;
    MixCan(j, next, ps, m);
    MixCan(idx, gs, [r.op.AsIs()] + ps, m);
    var owner :| Owners(ps, owner, |next|) && Shared(next, ps, owner, Going);
    SharedGoesOn(gs, next, idx, r, ps, owner, Going);
  }

  lemma {:induction false} MixLeads(idx: int, gs: seq<Gen>, ctx: Context, ch: Oracle)
    requires WellFormed(Mix(idx, gs)) && ctx.Valid()
    ensures Leads(Mix(idx, gs), Op(Mix(idx, gs), ctx, ch))
    decreases Size(Mix(idx, gs)), 0
  {
    hide Op, Inexhaustible, Copy, WriteBack, Can, MixKept, MixDropped, Erase;
    OpMix(idx, gs, ctx, ch);
    SizeOfMember(gs, idx);
    OpLeads(gs[idx], ctx, At(ch, 0));
    var r := Op(gs[idx], ctx, At(ch, 0));
    if r.NotNil() {
      MixKeptIs(idx, gs, r, Here(ch));
      var next := Op(Mix(idx, gs), ctx, ch).next;
      if r.op.Real() {
        forall ps, m | Can(next, ps, m) ensures Can(Mix(idx, gs), [r.op.AsIs()] + ps, m) {
          MixKeptCan(idx, gs, r, next.gens, next.idx, ps, m);
        }
      }
    } else {
      var rest := Remixed(idx, gs, r, Here(ch));
      OpLeads(rest, ctx, At(ch, 1));
      MixDroppedIs(idx, gs, r, rest, Op(rest, ctx, At(ch, 1)));
      forall ps, m | Can(rest, ps, m) ensures Can(Mix(idx, gs), ps, m) {
        MixDroppedCan(idx, gs, rest, ps, m);
      }
    }
  }

  lemma AnyKeptCan(gs: seq<Gen>, idx: int, r: OpResult, next: seq<Gen>, ps: seq<Request>, m: Mode)
    requires |next| == |gs| && 0 <= idx < |gs| && next[idx] == r.next
    requires forall i | 0 <= i < |gs| && i != idx :: Same(next[i], gs[i])
    requires Leads(gs[idx], r) && r.op.Real() && r.NotNil() && Can(Any(next), ps, m)
    ensures Can(Any(gs), [r.op.AsIs()] + ps, m)
  {
    hide Can, Shared, Leads, Same;
    AnyCan(next, ps, m);
    AnyCan(gs, [r.op.AsIs()] + ps, m);
    var owner :| Owners(ps, owner, |next|) && Shared(next, ps, owner, m);
    SharedGoesOn(gs, next, idx, r, ps, owner, m);
  }

  lemma NoneLeads(gs: seq<Gen>, rs: seq<OpResult>)
    requires |rs| == |gs| && forall i | 0 <= i < |gs| :: Leads(gs[i], rs[i]) && !rs[i].NotNil()
    ensures Can(Any(gs), [], Drying)
  {
    hide Can, CanWrap, Leads;
    forall i | 0 <= i < |gs| ensures CanWrap(gs[i], Part([], [], i), Drying) {
      WrapLeads(gs[i], rs[i]);
    }
    assert Shared(gs, [], [], Drying);
    AnyCan(gs, [], Drying);
  }

  lemma OneLeads(gs: seq<Gen>, idx: int, r: OpResult, next: seq<Gen>, after: Gen)
    requires |next| == |gs| && 0 <= idx < |gs| && next[idx] == r.next && r.NotNil() && Leads(gs[idx], r)
    requires forall i | 0 <= i < |gs| && i != idx :: Same(next[i], gs[i])
    ensures Leads(Any(gs), OpResult(r.op, Any(next), after))
  {
    hide Can, Same;
    if r.op.Real() {
      forall ps, m | Can(Any(next), ps, m) ensures Can(Any(gs), [r.op.AsIs()] + ps, m) {
        AnyKeptCan(gs, idx, r, next, ps, m);
      }
    }
  }

  lemma AnyPickedLeads(gs: seq<Gen>, rs: seq<OpResult>, draws: nat -> nat)
    requires AllWellFormed(gs) && Answers(gs, rs) && forall i | 0 <= i < |gs| :: Leads(gs[i], rs[i])
    ensures Leads(Any(gs), AnyPicked(gs, rs, draws))
  {
    hide Leads, WellFormed, AnyPicked, Chosen, Replaced, Answer, Same;
    var idx := Chosen(rs, draws);
    AnyPickedIs(gs, rs, draws);
    if idx == -1 {
      NoneLeads(gs, rs);
      NilLeads(Any(gs), Any(AftersOf(rs)));
    } else {
      AftersSame(gs, rs);
      var next := Replaced(AftersOf(rs), idx, rs[idx].next);
      forall i | 0 <= i < |gs| && i != idx ensures Same(next[i], gs[i]) {
        SameTrans(next[i], AftersOf(rs)[i], gs[i]);
      }
      OneLeads(gs, idx, rs[idx], next, Any(AftersOf(rs)));
    }
  }

  lemma NilLeads(g: Gen, after: Gen)
    requires Can(g, [], Drying)
    ensures Leads(g, NilResult(after))
  {
  }

  lemma SameTrans(a: Gen, b: Gen, c: Gen)
    requires Same(a, b) && Same(b, c)
    ensures Same(a, c)
  {
  }

  lemma {:induction false} AnyLeads(gs: seq<Gen>, ctx: Context, ch: Oracle)
    requires WellFormed(Any(gs)) && ctx.Valid()
    ensures Leads(Any(gs), Op(Any(gs), ctx, ch))
    decreases Size(Any(gs)), 0
  {
    hide Op, Leads, WellFormed, AnyPicked;
    AnyChildren(gs);
    OpAny(gs, ctx, ch);
    var rs := OpAll(gs, ctx, ch, 1);
    forall i | 0 <= i < |gs| ensures Leads(gs[i], rs[i]) {
      SizeOfMember(gs, i);
      OpLeads(gs[i], ctx, At(ch, i + 1));
    }
    AnyPickedLeads(gs, rs, Draws(ch));
  }
}
