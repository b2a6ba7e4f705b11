/** The generator language and its two operations, `op` and `update`
    (src/jepsen/generator/Generator.h, Generator.cpp, GeneratorFactory.h).

    Generators are shared objects in the program.  Here a generator is a value, and `Op`
    returns besides the operation and the successor what the receiver has become: `TimeLimit`
    and `Stagger` write their own fields, and the runner keeps the receiver whenever it
    throws the successor away. */
module Generators {
  import opened Operations
  import opened Contexts

  datatype Gen =
    | Null
    | OpGen(operation: Operation)
    | FunGen(func: (Context, nat) -> Operation)
    | ListGen(gens: seq<Gen>)
    | Validate(gen: Gen)
    | OnThreads(gen: Gen, filter: int -> bool)
    | TimeLimit(limit: int, cutoff: int, gen: Gen)
    | Stagger(dt: int, nextTime: int, gen: Gen)
    | Mix(idx: int, gens: seq<Gen>)
    | Any(gens: seq<Gen>)

  /** The source of randomness: the value of the draw at each position of the evaluation. */
  type Oracle = seq<nat> -> nat

  function Here(ch: Oracle): nat { ch([]) }

  function At(ch: Oracle, i: nat): Oracle {
    (p: seq<nat>) => ch([i] + p)
  }

  // ----- Well-formed generators -----

  /** The generator answers every request with an operation and a successor. */
  ghost predicate Inexhaustible(g: Gen) {
    match g
    case FunGen(_) => true
    case ListGen(gs) => exists i :: 0 <= i < |gs| && Inexhaustible(gs[i])
    case Validate(c) => Inexhaustible(c)
    case OnThreads(c, _) => Inexhaustible(c)
    case Stagger(_, _, c) => Inexhaustible(c)
    case Mix(_, gs) => exists i :: 0 <= i < |gs| && Inexhaustible(gs[i])
    case Any(gs) => exists i :: 0 <= i < |gs| && Inexhaustible(gs[i])
    case _ => false
  }

  ghost predicate SomeInexhaustible(gs: seq<Gen>) {
    exists i :: 0 <= i < |gs| && Inexhaustible(gs[i])
  }

  /** What the program needs to run without a null dereference, a division by zero or an endless
      unfolding: functions never return nil, lists are not empty, only lists, Validate and OnThreads
      may hold null, a Mix has a valid index and an inexhaustible child, and Stagger's interval is positive. */
  ghost predicate WellFormed(g: Gen) {
    match g
    case Null => false
    case OpGen(_) => true
    case FunGen(f) => forall c, k :: !f(c, k).kind.Nil?
    case ListGen(gs) => |gs| > 0 && forall i | 0 <= i < |gs| :: gs[i].Null? || WellFormed(gs[i])
    case Validate(c) => c.Null? || WellFormed(c)
    case OnThreads(c, _) => c.Null? || WellFormed(c)
    case TimeLimit(_, _, c) => WellFormed(c)
    case Stagger(dt, _, c) => dt > 0 && WellFormed(c)
    case Mix(idx, gs) =>
      && 0 <= idx < |gs|
      && (forall i | 0 <= i < |gs| :: WellFormed(gs[i]))
      && SomeInexhaustible(gs)
    case Any(gs) => forall i | 0 <= i < |gs| :: WellFormed(gs[i])
  }

  ghost predicate AllWellFormed(gs: seq<Gen>) {
    forall i | 0 <= i < |gs| :: WellFormed(gs[i])
  }

  /** Null, or well-formed: what a generator pointer may hold. */
  ghost predicate Ready(g: Gen) {
    g.Null? || WellFormed(g)
  }

  ghost predicate AllReady(gs: seq<Gen>) {
    forall i | 0 <= i < |gs| :: Ready(gs[i])
  }

  // ----- Size, for termination -----

  ghost function Size(g: Gen): (n: nat)
    ensures n >= 1
  {
    match g
    case Null => 1
    case OpGen(_) => 1
    case FunGen(_) => 1
    case ListGen(gs) => 1 + SizeAll(gs)
    case Validate(c) => 1 + Size(c)
    case OnThreads(c, _) => 1 + Size(c)
    case TimeLimit(_, _, c) => 1 + Size(c)
    case Stagger(_, _, c) => 1 + Size(c)
    case Mix(_, gs) => 1 + SizeAll(gs)
    case Any(gs) => 1 + SizeAll(gs)
  }

  ghost function SizeAll(gs: seq<Gen>): nat {
    if |gs| == 0 then 0 else Size(gs[0]) + SizeAll(gs[1..])
  }

  lemma {:induction false} SizeAllConcat(a: seq<Gen>, b: seq<Gen>)
    ensures SizeAll(a + b) == SizeAll(a) + SizeAll(b)
  {
    if |a| == 0 {
      assert a + b == b;
    } else {
      SizeAllConcat(a[1..], b);
      assert (a + b)[1..] == a[1..] + b;
    }
  }

  function Without(gs: seq<Gen>, i: int): seq<Gen>
    requires 0 <= i < |gs|
  {
    gs[..i] + gs[i + 1..]
  }

  lemma {:induction false} SizeAllCons(g: Gen, gs: seq<Gen>)
    ensures SizeAll([g] + gs) == Size(g) + SizeAll(gs)
  {
    assert ([g] + gs)[1..] == gs;
  }

  lemma {:induction false} SizeOfMember(gs: seq<Gen>, i: int)
    requires 0 <= i < |gs|
    ensures SizeAll(gs) == Size(gs[i]) + SizeAll(Without(gs, i))
  {
    hide Size, SizeAll;
    var a, g, b := gs[..i], gs[i], gs[i + 1..];
    assert gs == a + ([g] + b);
    SizeAllConcat(a, [g] + b);
    SizeAllCons(g, b);
    SizeAllConcat(a, b);
  }

  // ----- Erasure: a generator up to the fields that op writes -----

  ghost function Erase(g: Gen): Gen {
    match g
    case Null => g
    case OpGen(_) => g
    case FunGen(_) => g
    case ListGen(gs) => ListGen(EraseAll(gs))
    case Validate(c) => Validate(Erase(c))
    case OnThreads(c, f) => OnThreads(Erase(c), f)
    case TimeLimit(l, _, c) => TimeLimit(l, INVALID_TIME, Erase(c))
    case Stagger(dt, _, c) => Stagger(dt, INVALID_TIME, Erase(c))
    case Mix(idx, gs) => Mix(idx, EraseAll(gs))
    case Any(gs) => Any(EraseAll(gs))
  }

  ghost function EraseAll(gs: seq<Gen>): (es: seq<Gen>)
    ensures |es| == |gs|
    ensures forall i | 0 <= i < |gs| :: es[i] == Erase(gs[i])
  {
    if |gs| == 0 then [] else [Erase(gs[0])] + EraseAll(gs[1..])
  }

  /** The two generators differ at most in cutoffs and next times. */
  ghost predicate Same(a: Gen, b: Gen) {
    Erase(a) == Erase(b)
  }

  ghost predicate SameAll(xs: seq<Gen>, ys: seq<Gen>) {
    |xs| == |ys| && forall i | 0 <= i < |xs| :: Same(xs[i], ys[i])
  }

  lemma {:induction false} SameAllErase(xs: seq<Gen>, ys: seq<Gen>)
    ensures SameAll(xs, ys) <==> EraseAll(xs) == EraseAll(ys)
  {
    if EraseAll(xs) == EraseAll(ys) {
      forall i | 0 <= i < |xs| ensures Same(xs[i], ys[i]) {
        assert EraseAll(xs)[i] == EraseAll(ys)[i];
      }
    }
  }

  lemma {:induction false} EraseKeepsSize(g: Gen)
    ensures Size(Erase(g)) == Size(g)
  {
    match g
    case Null =>
    case OpGen(_) =>
    case FunGen(_) =>
    case ListGen(gs) => EraseKeepsSizeAll(gs);
    case Validate(c) => EraseKeepsSize(c);
    case OnThreads(c, _) => EraseKeepsSize(c);
    case TimeLimit(_, _, c) => EraseKeepsSize(c);
    case Stagger(_, _, c) => EraseKeepsSize(c);
    case Mix(_, gs) => EraseKeepsSizeAll(gs);
    case Any(gs) => EraseKeepsSizeAll(gs);
  }

  lemma {:induction false} EraseKeepsSizeAll(gs: seq<Gen>)
    ensures SizeAll(EraseAll(gs)) == SizeAll(gs)
  {
    if |gs| > 0 {
      EraseKeepsSize(gs[0]);
      EraseKeepsSizeAll(gs[1..]);
      assert EraseAll(gs)[1..] == EraseAll(gs[1..]);
    }
  }

  lemma {:induction false} EraseKeepsInexhaustible(g: Gen)
    ensures Inexhaustible(Erase(g)) == Inexhaustible(g)
  {
    match g
    case Null =>
    case OpGen(_) =>
    case FunGen(_) =>
    case ListGen(gs) => EraseKeepsInexhaustibleAll(gs);
    case Validate(c) => EraseKeepsInexhaustible(c);
    case OnThreads(c, _) => EraseKeepsInexhaustible(c);
    case TimeLimit(_, _, c) =>
    case Stagger(_, _, c) => EraseKeepsInexhaustible(c);
    case Mix(_, gs) => EraseKeepsInexhaustibleAll(gs);
    case Any(gs) => EraseKeepsInexhaustibleAll(gs);
  }

  lemma {:induction false} EraseKeepsInexhaustibleAll(gs: seq<Gen>)
    ensures forall i | 0 <= i < |gs| :: Inexhaustible(EraseAll(gs)[i]) == Inexhaustible(gs[i])
    ensures SomeInexhaustible(EraseAll(gs)) == SomeInexhaustible(gs)
  {
    forall i | 0 <= i < |gs| ensures Inexhaustible(EraseAll(gs)[i]) == Inexhaustible(gs[i]) {
      EraseKeepsInexhaustible(gs[i]);
    }
    if SomeInexhaustible(gs) {
      var i :| 0 <= i < |gs| && Inexhaustible(gs[i]);
      assert Inexhaustible(EraseAll(gs)[i]);
    }
  }

  lemma {:induction false} EraseKeepsWellFormed(g: Gen)
    ensures WellFormed(Erase(g)) == WellFormed(g)
    decreases g
  {
    hide Inexhaustible, SomeInexhaustible;
    match g
    case Null =>
    case OpGen(_) =>
    case FunGen(_) =>
    case ListGen(gs) => EraseKeepsWellFormedBranches(gs);
    case Validate(c) => EraseKeepsWellFormed(c);
    case OnThreads(c, _) => EraseKeepsWellFormed(c);
    case TimeLimit(_, _, c) => EraseKeepsWellFormed(c);
    case Stagger(_, _, c) => EraseKeepsWellFormed(c);
    case Mix(idx, gs) => EraseKeepsWellFormedMix(idx, gs);
    case Any(gs) => EraseKeepsWellFormedBranches(gs);
  }

  lemma {:induction false} EraseKeepsWellFormedBranches(gs: seq<Gen>)
    ensures WellFormed(ListGen(EraseAll(gs))) == WellFormed(ListGen(gs)) &&
            WellFormed(Any(EraseAll(gs))) == WellFormed(Any(gs))
    decreases gs, 1
  {
    hide WellFormed, AllReady, AllWellFormed;
    EraseKeepsWellFormedAll(gs);
    WellFormedBranches(gs);
    WellFormedBranches(EraseAll(gs));
  }

  lemma {:induction false} EraseKeepsWellFormedMix(idx: int, gs: seq<Gen>)
    ensures WellFormed(Erase(Mix(idx, gs))) == WellFormed(Mix(idx, gs))
    decreases gs, 1
  {
    hide Inexhaustible, SomeInexhaustible, WellFormed;
    EraseKeepsWellFormedAll(gs);
    EraseKeepsInexhaustibleAll(gs);
    WellFormedMix(idx, gs);
    WellFormedMix(idx, EraseAll(gs));
  }

  lemma WellFormedMix(idx: int, gs: seq<Gen>)
    ensures WellFormed(Mix(idx, gs)) <==> 0 <= idx < |gs| && AllWellFormed(gs) && SomeInexhaustible(gs)
  {
  }

  lemma WellFormedBranches(gs: seq<Gen>)
    ensures WellFormed(ListGen(gs)) <==> |gs| > 0 && AllReady(gs)
    ensures WellFormed(Any(gs)) <==> AllWellFormed(gs)
  {
  }

  lemma {:induction false} EraseKeepsWellFormedAll(gs: seq<Gen>)
    ensures forall i | 0 <= i < |gs| :: WellFormed(EraseAll(gs)[i]) == WellFormed(gs[i])
    ensures AllWellFormed(EraseAll(gs)) == AllWellFormed(gs)
    ensures AllReady(EraseAll(gs)) == AllReady(gs)
    decreases gs, 0
  {
    hide WellFormed, Erase;
    forall i | 0 <= i < |gs|
      ensures WellFormed(EraseAll(gs)[i]) == WellFormed(gs[i])
      ensures EraseAll(gs)[i].Null? == gs[i].Null?
    {
      EraseKeepsWellFormed(gs[i]);
      EraseKeepsNull(gs[i]);
    }
  }

  lemma EraseKeepsNull(g: Gen)
    ensures Erase(g).Null? == g.Null?
  {
  }

  lemma SameKeeps(a: Gen, b: Gen)
    requires Same(a, b)
    ensures WellFormed(a) == WellFormed(b) && Inexhaustible(a) == Inexhaustible(b)
    ensures Size(a) == Size(b) && a.Null? == b.Null?
  {
    EraseKeepsSize(a);
    EraseKeepsSize(b);
    EraseKeepsInexhaustible(a);
    EraseKeepsInexhaustible(b);
    EraseKeepsWellFormed(a);
    EraseKeepsWellFormed(b);
  }

  lemma {:induction false} SameKeepsAll(xs: seq<Gen>, ys: seq<Gen>)
    requires SameAll(xs, ys)
    ensures SizeAll(xs) == SizeAll(ys)
    ensures forall i | 0 <= i < |xs| ::
              && WellFormed(xs[i]) == WellFormed(ys[i])
              && Inexhaustible(xs[i]) == Inexhaustible(ys[i])
              && xs[i].Null? == ys[i].Null?
  {
    SameAllErase(xs, ys);
    EraseKeepsSizeAll(xs);
    EraseKeepsSizeAll(ys);
    forall i | 0 <= i < |xs|
      ensures WellFormed(xs[i]) == WellFormed(ys[i])
      ensures Inexhaustible(xs[i]) == Inexhaustible(ys[i])
      ensures xs[i].Null? == ys[i].Null?
    {
      SameKeeps(xs[i], ys[i]);
    }
  }

  // ----- copyOne -----

  /** Copying drops Stagger's next time; a Mix copies its children and then shares the originals. */
  function Copy(g: Gen): (c: Gen)
    requires Ready(g)
  {
    match g
    case Null => Null
    case OpGen(o) => OpGen(o)
    case FunGen(f) => FunGen(f)
    case ListGen(gs) => ListGen(CopyAll(gs))
    case Validate(c) => Validate(Copy(c))
    case OnThreads(c, f) => OnThreads(Copy(c), f)
    case TimeLimit(l, cutoff, c) => TimeLimit(l, cutoff, Copy(c))
    case Stagger(dt, _, c) => Stagger(dt, INVALID_TIME, Copy(c))
    case Mix(idx, gs) => Mix(idx, gs)
    case Any(gs) => Any(CopyAll(gs))
  }

  function CopyAll(gs: seq<Gen>): (cs: seq<Gen>)
    requires AllReady(gs)
    ensures |cs| == |gs|
    ensures forall i | 0 <= i < |gs| :: cs[i] == Copy(gs[i])
  {
    if |gs| == 0 then [] else [Copy(gs[0])] + CopyAll(gs[1..])
  }

  lemma {:induction false} CopySame(g: Gen)
    requires Ready(g)
    ensures Same(Copy(g), g)
  {
    match g
    case Null =>
    case OpGen(_) =>
    case FunGen(_) =>
    case ListGen(gs) => CopySameAll(gs);
    case Validate(c) => CopySame(c);
    case OnThreads(c, _) => CopySame(c);
    case TimeLimit(_, _, c) => CopySame(c);
    case Stagger(_, _, c) => CopySame(c);
    case Mix(_, gs) =>
    case Any(gs) => CopySameAll(gs);
  }

  lemma {:induction false} CopySameAll(gs: seq<Gen>)
    requires AllReady(gs)
    ensures SameAll(CopyAll(gs), gs)
    ensures EraseAll(CopyAll(gs)) == EraseAll(gs)
  {
    forall i | 0 <= i < |gs| ensures Same(CopyAll(gs)[i], gs[i]) {
      CopySame(gs[i]);
    }
    SameAllErase(CopyAll(gs), gs);
  }

  // ----- update -----

  function Update(g: Gen, ctx: Context, event: Operation): (u: Gen)
    requires Ready(g)
  {
    match g
    case Null => Null
    case OpGen(_) => Copy(g)
    case FunGen(_) => Copy(g)
    case ListGen(gs) => ListGen([Update(gs[0], ctx, event)] + CopyAll(gs[1..]))
    case Validate(c) => Validate(Update(c, ctx, event))
    case OnThreads(c, f) =>
      if f(ProcessToThread(ctx.workers, event.process)) then
        OnThreads(Update(c, OnThreadsContext(f, ctx), event), f)
      else
        OnThreads(c, f)
    case TimeLimit(l, cutoff, c) => TimeLimit(l, cutoff, Update(c, ctx, event))
    case Stagger(dt, _, c) => Stagger(dt, INVALID_TIME, Update(c, ctx, event))
    case Mix(idx, gs) => Mix(idx, gs)
    case Any(gs) => Any(UpdateAll(gs, ctx, event))
  }

  function UpdateAll(gs: seq<Gen>, ctx: Context, event: Operation): (us: seq<Gen>)
    requires AllReady(gs)
    ensures |us| == |gs|
    ensures forall i | 0 <= i < |gs| :: us[i] == Update(gs[i], ctx, event)
  {
    if |gs| == 0 then [] else [Update(gs[0], ctx, event)] + UpdateAll(gs[1..], ctx, event)
  }

  lemma {:induction false} UpdateSame(g: Gen, ctx: Context, event: Operation)
    requires Ready(g)
    ensures Same(Update(g, ctx, event), g)
    decreases g
  {
    match g
    case Null =>
    case OpGen(_) =>
    case FunGen(_) =>
    case ListGen(gs) =>
      UpdateSame(gs[0], ctx, event);
      CopySameAll(gs[1..]);
      SameAllErase(Update(g, ctx, event).gens, gs);
    case Validate(c) => UpdateSame(c, ctx, event);
    case OnThreads(c, f) => UpdateSame(c, OnThreadsContext(f, ctx), event);
    case TimeLimit(_, _, c) => UpdateSame(c, ctx, event);
    case Stagger(_, _, c) => UpdateSame(c, ctx, event);
    case Mix(_, gs) =>
    case Any(gs) =>
      forall i | 0 <= i < |gs| ensures Same(UpdateAll(gs, ctx, event)[i], gs[i]) {
        UpdateSame(gs[i], ctx, event);
      }
      SameAllErase(UpdateAll(gs, ctx, event), gs);
  }

  // ----- Children shared between a copy and its original -----

  /** What the original has become after its copy was evaluated into `after`: below a Mix the
      two share their children, elsewhere the copy has its own. */
  function WriteBack(g: Gen, after: Gen): Gen
    decreases g
  {
    match g
    case ListGen(gs) => if after.ListGen? then ListGen(WriteBackAll(gs, after.gens)) else g
    case Validate(c) => if after.Validate? then Validate(WriteBack(c, after.gen)) else g
    case OnThreads(c, f) => if after.OnThreads? then OnThreads(WriteBack(c, after.gen), f) else g
    case TimeLimit(l, cutoff, c) => if after.TimeLimit? then TimeLimit(l, cutoff, WriteBack(c, after.gen)) else g
    case Stagger(dt, next, c) => if after.Stagger? then Stagger(dt, next, WriteBack(c, after.gen)) else g
    case Mix(idx, _) => if after.Mix? then Mix(idx, after.gens) else g
    case Any(gs) => if after.Any? then Any(WriteBackAll(gs, after.gens)) else g
    case _ => g
  }

  function WriteBackAll(gs: seq<Gen>, afters: seq<Gen>): (ws: seq<Gen>)
    ensures |ws| == |gs|
    ensures forall i | 0 <= i < |gs| && i < |afters| :: ws[i] == WriteBack(gs[i], afters[i])
    decreases gs
  {
    if |gs| == 0 || |afters| == 0 then gs
    else [WriteBack(gs[0], afters[0])] + WriteBackAll(gs[1..], afters[1..])
  }

  lemma {:induction false} WriteBackSame(g: Gen, after: Gen)
    requires Same(after, g)
    ensures Same(WriteBack(g, after), g)
    decreases g
  {
    match g
    case Null =>
    case OpGen(_) =>
    case FunGen(_) =>
    case ListGen(gs) => WriteBackSameAll(gs, after.gens);
    case Validate(c) => WriteBackSame(c, after.gen);
    case OnThreads(c, _) => WriteBackSame(c, after.gen);
    case TimeLimit(_, _, c) => WriteBackSame(c, after.gen);
    case Stagger(_, _, c) => WriteBackSame(c, after.gen);
    case Mix(_, gs) =>
    case Any(gs) => WriteBackSameAll(gs, after.gens);
  }

  lemma {:induction false} WriteBackSameAll(gs: seq<Gen>, afters: seq<Gen>)
    requires EraseAll(afters) == EraseAll(gs)
    ensures SameAll(WriteBackAll(gs, afters), gs)
    ensures EraseAll(WriteBackAll(gs, afters)) == EraseAll(gs)
    decreases gs
  {
    SameAllErase(afters, gs);
    forall i | 0 <= i < |gs| ensures Same(WriteBackAll(gs, afters)[i], gs[i]) {
      assert Same(afters[i], gs[i]);
      WriteBackSame(gs[i], afters[i]);
    }
    SameAllErase(WriteBackAll(gs, afters), gs);
  }

  // ----- Without Stagger, copying and updating change nothing -----

  ghost predicate StaggerFree(g: Gen) {
    match g
    case ListGen(gs) => forall i | 0 <= i < |gs| :: StaggerFree(gs[i])
    case Validate(c) => StaggerFree(c)
    case OnThreads(c, _) => StaggerFree(c)
    case TimeLimit(_, _, c) => StaggerFree(c)
    case Stagger(_, _, _) => false
    case Mix(_, gs) => forall i | 0 <= i < |gs| :: StaggerFree(gs[i])
    case Any(gs) => forall i | 0 <= i < |gs| :: StaggerFree(gs[i])
    case _ => true
  }

  lemma {:induction false} EraseStaggerFree(g: Gen)
    ensures StaggerFree(Erase(g)) == StaggerFree(g)
  {
    match g
    case Null =>
    case OpGen(_) =>
    case FunGen(_) =>
    case ListGen(gs) => EraseStaggerFreeAll(gs);
    case Validate(c) => EraseStaggerFree(c);
    case OnThreads(c, _) => EraseStaggerFree(c);
    case TimeLimit(_, _, c) => EraseStaggerFree(c);
    case Stagger(_, _, _) =>
    case Mix(_, gs) => EraseStaggerFreeAll(gs);
    case Any(gs) => EraseStaggerFreeAll(gs);
  }

  lemma {:induction false} EraseStaggerFreeAll(gs: seq<Gen>)
    ensures forall i | 0 <= i < |gs| :: StaggerFree(EraseAll(gs)[i]) == StaggerFree(gs[i])
  {
    forall i | 0 <= i < |gs| ensures StaggerFree(EraseAll(gs)[i]) == StaggerFree(gs[i]) {
      EraseStaggerFree(gs[i]);
    }
  }

  lemma SameStaggerFree(a: Gen, b: Gen)
    requires Same(a, b)
    ensures StaggerFree(a) == StaggerFree(b)
  {
    EraseStaggerFree(a);
    EraseStaggerFree(b);
  }

  /** No Stagger waits for a time later than `now`. */
  ghost predicate Due(g: Gen, now: int) {
    match g
    case ListGen(gs) => forall i | 0 <= i < |gs| :: Due(gs[i], now)
    case Validate(c) => Due(c, now)
    case OnThreads(c, _) => Due(c, now)
    case TimeLimit(_, _, c) => Due(c, now)
    case Stagger(_, next, c) => (next == INVALID_TIME || next <= now) && Due(c, now)
    case Mix(_, gs) => forall i | 0 <= i < |gs| :: Due(gs[i], now)
    case Any(gs) => forall i | 0 <= i < |gs| :: Due(gs[i], now)
    case _ => true
  }

  ghost predicate AllDue(gs: seq<Gen>, now: int) {
    forall i | 0 <= i < |gs| :: Due(gs[i], now)
  }

  lemma {:induction false} CopyDue(g: Gen, now: int)
    requires Ready(g) && Due(g, now)
    ensures Due(Copy(g), now)
  {
    match g
    case Null =>
    case OpGen(_) =>
    case FunGen(_) =>
    case ListGen(gs) => CopyAllDue(gs, now);
    case Validate(c) => CopyDue(c, now);
    case OnThreads(c, _) => CopyDue(c, now);
    case TimeLimit(_, _, c) => CopyDue(c, now);
    case Stagger(_, _, c) => CopyDue(c, now);
    case Mix(_, _) =>
    case Any(gs) => CopyAllDue(gs, now);
  }

  lemma {:induction false} CopyAllDue(gs: seq<Gen>, now: int)
    requires AllReady(gs) && AllDue(gs, now)
    ensures AllDue(CopyAll(gs), now)
  {
    forall i | 0 <= i < |gs| ensures Due(CopyAll(gs)[i], now) {
      CopyDue(gs[i], now);
    }
  }

  /** Sooner or later every next time has come. */
  lemma {:induction false} DueAtLast(g: Gen, from: int) returns (now: int)
    ensures now >= from && Due(g, now)
    decreases g, 0
  {
    match g
    case Null => now := from;
    case OpGen(_) => now := from;
    case FunGen(_) => now := from;
    case ListGen(gs) => now := AllDueAtLast(gs, from);
    case Validate(c) => now := DueAtLast(c, from);
    case OnThreads(c, _) => now := DueAtLast(c, from);
    case TimeLimit(_, _, c) => now := DueAtLast(c, from);
    case Stagger(_, next, c) => now := DueAtLast(c, if next > from then next else from);
    case Mix(_, gs) => now := AllDueAtLast(gs, from);
    case Any(gs) => now := AllDueAtLast(gs, from);
  }

  lemma {:induction false} AllDueAtLast(gs: seq<Gen>, from: int) returns (now: int)
    ensures now >= from && AllDue(gs, now)
    decreases gs, 0
  {
    now := from;
    if |gs| > 0 {
      var head := DueAtLast(gs[0], from);
      now := AllDueAtLast(gs[1..], head);
      DueLater(gs[0], head, now);
      assert forall i | 1 <= i < |gs| :: gs[i] == gs[1..][i - 1];
    }
  }

  lemma {:induction false} DueLater(g: Gen, now: int, later: int)
    requires Due(g, now) && now <= later
    ensures Due(g, later)
  {
    match g
    case Null =>
    case OpGen(_) =>
    case FunGen(_) =>
    case ListGen(gs) => AllDueLater(gs, now, later);
    case Validate(c) => DueLater(c, now, later);
    case OnThreads(c, _) => DueLater(c, now, later);
    case TimeLimit(_, _, c) => DueLater(c, now, later);
    case Stagger(_, _, c) => DueLater(c, now, later);
    case Mix(_, gs) => AllDueLater(gs, now, later);
    case Any(gs) => AllDueLater(gs, now, later);
  }

  lemma {:induction false} AllDueLater(gs: seq<Gen>, now: int, later: int)
    requires AllDue(gs, now) && now <= later
    ensures AllDue(gs, later)
  {
    forall i | 0 <= i < |gs| ensures Due(gs[i], later) {
      DueLater(gs[i], now, later);
    }
  }

  /** A copy is the original, cutoffs included. */
  lemma {:induction false} CopyIsFaithful(g: Gen)
    requires Ready(g) && StaggerFree(g)
    ensures Copy(g) == g
  {
    match g
    case Null =>
    case OpGen(_) =>
    case FunGen(_) =>
    case ListGen(gs) => CopyAllFaithful(gs);
    case Validate(c) => CopyIsFaithful(c);
    case OnThreads(c, _) => CopyIsFaithful(c);
    case TimeLimit(_, _, c) => CopyIsFaithful(c);
    case Mix(_, _) =>
    case Any(gs) => CopyAllFaithful(gs);
  }

  lemma {:induction false} CopyAllFaithful(gs: seq<Gen>)
    requires AllReady(gs) && forall i | 0 <= i < |gs| :: StaggerFree(gs[i])
    ensures CopyAll(gs) == gs
  {
    forall i | 0 <= i < |gs| ensures CopyAll(gs)[i] == gs[i] {
      CopyIsFaithful(gs[i]);
    }
  }

  /** No Stagger that a copy would reach has its next time set; a Mix is not copied but shared. */
  predicate Rested(g: Gen) {
    match g
    case ListGen(gs) => forall i | 0 <= i < |gs| :: Rested(gs[i])
    case Validate(c) => Rested(c)
    case OnThreads(c, _) => Rested(c)
    case TimeLimit(_, _, c) => Rested(c)
    case Stagger(_, next, c) => next == INVALID_TIME && Rested(c)
    case Any(gs) => forall i | 0 <= i < |gs| :: Rested(gs[i])
    case _ => true
  }

  /** With Stagger a copy is not the original in general: it is if and only if no next time is lost. */
  lemma {:induction false} CopyIsFaithfulIff(g: Gen)
    requires Ready(g)
    ensures Copy(g) == g <==> Rested(g)
  {
    match g
    case Null =>
    case OpGen(_) =>
    case FunGen(_) =>
    case ListGen(gs) => CopyAllFaithfulIff(gs);
    case Validate(c) => CopyIsFaithfulIff(c);
    case OnThreads(c, _) => CopyIsFaithfulIff(c);
    case TimeLimit(_, _, c) => CopyIsFaithfulIff(c);
    case Stagger(_, _, c) => CopyIsFaithfulIff(c);
    case Mix(_, _) =>
    case Any(gs) => CopyAllFaithfulIff(gs);
  }

  lemma {:induction false} CopyAllFaithfulIff(gs: seq<Gen>)
    requires AllReady(gs)
    ensures CopyAll(gs) == gs <==> forall i | 0 <= i < |gs| :: Rested(gs[i])
  {
    forall i | 0 <= i < |gs| ensures CopyAll(gs)[i] == gs[i] <==> Rested(gs[i]) {
      CopyIsFaithfulIff(gs[i]);
    }
    assert CopyAll(gs) == gs <==> forall i | 0 <= i < |gs| :: CopyAll(gs)[i] == gs[i];
  }

  /** What is lost is lost: no Stagger that a copy reaches has a next time in the copy. */
  lemma {:induction false} CopyForgets(g: Gen)
    requires Ready(g)
    ensures Rested(Copy(g))
  {
    match g
    case Null =>
    case OpGen(_) =>
    case FunGen(_) =>
    case ListGen(gs) => CopyAllForgets(gs);
    case Validate(c) => CopyForgets(c);
    case OnThreads(c, _) => CopyForgets(c);
    case TimeLimit(_, _, c) => CopyForgets(c);
    case Stagger(_, _, c) => CopyForgets(c);
    case Mix(_, _) =>
    case Any(gs) => CopyAllForgets(gs);
  }

  lemma {:induction false} CopyAllForgets(gs: seq<Gen>)
    requires AllReady(gs)
    ensures forall i | 0 <= i < |gs| :: Rested(CopyAll(gs)[i])
  {
    forall i | 0 <= i < |gs| ensures Rested(CopyAll(gs)[i]) {
      CopyForgets(gs[i]);
    }
  }

  /** A concrete loss: a Stagger that is to wait until 5 is copied into one that is not. */
  lemma CopyLosesNextTime(o: Operation)
    ensures Copy(Stagger(10, 5, OpGen(o))) != Stagger(10, 5, OpGen(o))
  {
    CopyIsFaithfulIff(Stagger(10, 5, OpGen(o)));
  }

  /** An update is the original, cutoffs included: only handing out an operation moves a generator on. */
  lemma {:induction false} UpdateIsFaithful(g: Gen, ctx: Context, event: Operation)
    requires Ready(g) && StaggerFree(g)
    ensures Update(g, ctx, event) == g
    decreases g
  {
    match g
    case Null =>
    case OpGen(_) =>
    case FunGen(_) =>
    case ListGen(gs) =>
      UpdateIsFaithful(gs[0], ctx, event);
      CopyAllFaithful(gs[1..]);
      assert [gs[0]] + gs[1..] == gs;
    case Validate(c) => UpdateIsFaithful(c, ctx, event);
    case OnThreads(c, f) => UpdateIsFaithful(c, OnThreadsContext(f, ctx), event);
    case TimeLimit(_, _, c) => UpdateIsFaithful(c, ctx, event);
    case Mix(_, _) =>
    case Any(gs) =>
      forall i | 0 <= i < |gs| ensures UpdateAll(gs, ctx, event)[i] == gs[i] {
        UpdateIsFaithful(gs[i], ctx, event);
      }
      assert UpdateAll(gs, ctx, event) == gs;
  }

  /** No Stagger that an update for the event would rebuild has its next time set.  The update goes
      into the head of a list, past a filter only if it accepts the event's thread, and copies the rest. */
  predicate Unstirred(g: Gen, ctx: Context, event: Operation)
    decreases g
  {
    match g
    case ListGen(gs) => (|gs| > 0 ==> Unstirred(gs[0], ctx, event)) && forall i | 1 <= i < |gs| :: Rested(gs[i])
    case Validate(c) => Unstirred(c, ctx, event)
    case OnThreads(c, f) =>
      f(ProcessToThread(ctx.workers, event.process)) ==> Unstirred(c, OnThreadsContext(f, ctx), event)
    case TimeLimit(_, _, c) => Unstirred(c, ctx, event)
    case Stagger(_, next, c) => next == INVALID_TIME && Unstirred(c, ctx, event)
    case Any(gs) => forall i | 0 <= i < |gs| :: Unstirred(gs[i], ctx, event)
    case _ => true
  }

  /** With Stagger an update is not the original in general: it is if and only if no next time is lost. */
  lemma {:induction false} UpdateIsFaithfulIff(g: Gen, ctx: Context, event: Operation)
    requires Ready(g)
    ensures Update(g, ctx, event) == g <==> Unstirred(g, ctx, event)
    decreases g
  {
    match g
    case Null =>
    case OpGen(_) =>
    case FunGen(_) =>
    case ListGen(gs) => UpdateListFaithfulIff(gs, ctx, event);
    case Validate(c) => UpdateIsFaithfulIff(c, ctx, event);
    case OnThreads(c, f) => UpdateIsFaithfulIff(c, OnThreadsContext(f, ctx), event);
    case TimeLimit(_, _, c) => UpdateIsFaithfulIff(c, ctx, event);
    case Stagger(_, _, c) => UpdateIsFaithfulIff(c, ctx, event);
    case Mix(_, _) =>
    case Any(gs) =>
      forall i | 0 <= i < |gs| ensures UpdateAll(gs, ctx, event)[i] == gs[i] <==> Unstirred(gs[i], ctx, event) {
        UpdateIsFaithfulIff(gs[i], ctx, event);
      }
      assert UpdateAll(gs, ctx, event) == gs <==> forall i | 0 <= i < |gs| :: UpdateAll(gs, ctx, event)[i] == gs[i];
  }

  lemma {:induction false} UpdateListFaithfulIff(gs: seq<Gen>, ctx: Context, event: Operation)
    requires WellFormed(ListGen(gs))
    ensures Update(ListGen(gs), ctx, event) == ListGen(gs) <==> Unstirred(ListGen(gs), ctx, event)
    decreases gs
  {
    var us := [Update(gs[0], ctx, event)] + CopyAll(gs[1..]);
    UpdateIsFaithfulIff(gs[0], ctx, event);
    CopyAllFaithfulIff(gs[1..]);
    assert us[1..] == CopyAll(gs[1..]);
    assert us == gs <==> us[0] == gs[0] && us[1..] == gs[1..] by {
      assert gs == [gs[0]] + gs[1..];
    }
    assert (forall i | 0 <= i < |gs[1..]| :: Rested(gs[1..][i])) <==> (forall i | 1 <= i < |gs| :: Rested(gs[i])) by {
      assert forall i | 1 <= i < |gs| :: gs[i] == gs[1..][i - 1];
    }
  }

  /** Nor has one that an update rebuilds: a second update for the same event changes nothing more. */
  lemma {:induction false} UpdateForgets(g: Gen, ctx: Context, event: Operation)
    requires Ready(g)
    ensures Unstirred(Update(g, ctx, event), ctx, event)
    decreases g
  {
    match g
    case Null =>
    case OpGen(_) =>
    case FunGen(_) =>
    case ListGen(gs) =>
      UpdateForgets(gs[0], ctx, event);
      CopyAllForgets(gs[1..]);
    case Validate(c) => UpdateForgets(c, ctx, event);
    case OnThreads(c, f) => UpdateForgets(c, OnThreadsContext(f, ctx), event);
    case TimeLimit(_, _, c) => UpdateForgets(c, ctx, event);
    case Stagger(_, _, c) => UpdateForgets(c, ctx, event);
    case Mix(_, _) =>
    case Any(gs) =>
      forall i | 0 <= i < |gs| ensures Unstirred(UpdateAll(gs, ctx, event)[i], ctx, event) {
        UpdateForgets(gs[i], ctx, event);
      }
  }

  /** A concrete loss: any completion makes a Stagger that is to wait until 5 forget it. */
  lemma UpdateLosesNextTime(o: Operation, ctx: Context, event: Operation)
    ensures Update(Stagger(10, 5, OpGen(o)), ctx, event) != Stagger(10, 5, OpGen(o))
  {
    UpdateIsFaithfulIff(Stagger(10, 5, OpGen(o)), ctx, event);
  }
}
