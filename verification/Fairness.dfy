/** `Any` is fair: what the counting of draws in `Selection` means for its answers
    (src/jepsen/generator/Generator.cpp, lines 165 to 189 and 393 to 419). */
module Fairness {
  import opened Operations
  import opened Contexts
  import opened Selection
  import opened Generators
  import opened Evaluation

  // ----- Answers depend on the values of the draws only -----

  ghost predicate Agree(ch: Oracle, ch': Oracle) {
    forall p :: ch(p) == ch'(p)
  }

  lemma AgreeAt(ch: Oracle, ch': Oracle)
    requires Agree(ch, ch')
    ensures Here(ch) == Here(ch') && forall i: nat :: Agree(At(ch, i), At(ch', i))
  {
  }

  lemma {:induction false} FoldAgrees(offers: Offers, draws: nat -> nat, draws': nat -> nat, k: nat)
    requires k <= |offers| && forall i: nat | i < k :: draws(i) == draws'(i)
    ensures Fold(offers, draws, k) == Fold(offers, draws', k)
  {
    if k > 0 {
      FoldAgrees(offers, draws, draws', k - 1);
    }
  }

  lemma ChosenAgrees(rs: seq<OpResult>, draws: nat -> nat, draws': nat -> nat)
    requires forall i: nat | i < |rs| :: draws(i) == draws'(i)
    ensures Chosen(rs, draws) == Chosen(rs, draws')
  {
    hide Fold;
    FoldAgrees(OffersOf(rs), draws, draws', |rs|);
  }

  lemma {:induction false} OpAgrees(g: Gen, ctx: Context, ch: Oracle, ch': Oracle)
    requires Ready(g) && ctx.Valid() && Agree(ch, ch')
    ensures Op(g, ctx, ch) == Op(g, ctx, ch')
    decreases Size(g), 2
  {
    AgreeAt(ch, ch');
    match g
    case Null =>
    case OpGen(o) => LeafAgrees(o, ctx, ch, ch');
    case FunGen(f) => FunAgrees(f, ctx, ch, ch');
    case ListGen(gs) => ListAgrees(gs, ctx, ch, ch');
    case Validate(c) =>
      OpAgrees(c, ctx, At(ch, 0), At(ch', 0));
      WrapperAgrees(g, ctx, ch, ch');
    case OnThreads(c, f) =>
      OpAgrees(c, OnThreadsContext(f, ctx), At(ch, 0), At(ch', 0));
      WrapperAgrees(g, ctx, ch, ch');
    case TimeLimit(_, _, c) =>
      OpAgrees(c, ctx, At(ch, 0), At(ch', 0));
      WrapperAgrees(g, ctx, ch, ch');
    case Stagger(_, _, c) =>
      OpAgrees(c, ctx, At(ch, 0), At(ch', 0));
      WrapperAgrees(g, ctx, ch, ch');
    case Mix(idx, gs) => MixAgrees(idx, gs, ctx, ch, ch');
    case Any(gs) => AnyAgrees(gs, ctx, ch, ch');
  }

  lemma LeafAgrees(o: Operation, ctx: Context, ch: Oracle, ch': Oracle)
    requires ctx.Valid() && Here(ch) == Here(ch')
    ensures Op(OpGen(o), ctx, ch) == Op(OpGen(o), ctx, ch')
  {
    hide Op;
    OpLeaf(o, ctx, ch);
    OpLeaf(o, ctx, ch');
  }

  lemma FunAgrees(f: (Context, nat) -> Operation, ctx: Context, ch: Oracle, ch': Oracle)
    requires WellFormed(FunGen(f)) && ctx.Valid() && Agree(ch, ch')
    ensures Op(FunGen(f), ctx, ch) == Op(FunGen(f), ctx, ch')
  {
    hide Op;
    OpFun(f, ctx, ch);
    OpFun(f, ctx, ch');
    assert ch([0]) == ch'([0]) && ch([]) == ch'([]);
  }

  lemma WrapperAgrees(g: Gen, ctx: Context, ch: Oracle, ch': Oracle)
    requires WellFormed(g) && ctx.Valid() && (g.Validate? || g.OnThreads? || g.TimeLimit? || g.Stagger?)
    requires var c := if g.OnThreads? then OnThreadsContext(g.filter, ctx) else ctx;
             Op(g.gen, c, At(ch, 0)) == Op(g.gen, c, At(ch', 0))
    ensures Op(g, ctx, ch) == Op(g, ctx, ch')
  {
    hide Op;
    match g
    case Validate(c) =>
      OpValidate(c, ctx, ch);
      OpValidate(c, ctx, ch');
    case OnThreads(c, f) =>
      OpOnThreads(c, f, ctx, ch);
      OpOnThreads(c, f, ctx, ch');
    case TimeLimit(limit, cutoff, c) =>
      OpTimeLimit(limit, cutoff, c, ctx, ch);
      OpTimeLimit(limit, cutoff, c, ctx, ch');
    case Stagger(dt, due, c) =>
      OpStagger(dt, due, c, ctx, ch);
      OpStagger(dt, due, c, ctx, ch');
  }

  lemma {:induction false} ListAgrees(gs: seq<Gen>, ctx: Context, ch: Oracle, ch': Oracle)
    requires WellFormed(ListGen(gs)) && ctx.Valid() && Agree(ch, ch')
    ensures Op(ListGen(gs), ctx, ch) == Op(ListGen(gs), ctx, ch')
    decreases Size(ListGen(gs)), 0
  {
    hide Op, Copy, WriteBack, Inexhaustible, Erase, ListKept, ListPopped;
    AgreeAt(ch, ch');
    OpList(gs, ctx, ch);
    OpList(gs, ctx, ch');
    SizeOfMember(gs, 0);
    OpAgrees(gs[0], ctx, At(ch, 0), At(ch', 0));
    var r := Op(gs[0], ctx, At(ch, 0));
    if r.op.kind.Nil? && |gs| > 1 {
      OpAgrees(Popped(gs, r), ctx, At(ch, 1), At(ch', 1));
    }
  }

  lemma {:induction false} MixAgrees(idx: int, gs: seq<Gen>, ctx: Context, ch: Oracle, ch': Oracle)
    requires WellFormed(Mix(idx, gs)) && ctx.Valid() && Agree(ch, ch')
    ensures Op(Mix(idx, gs), ctx, ch) == Op(Mix(idx, gs), ctx, ch')
    decreases Size(Mix(idx, gs)), 0
  {
    hide Op, Copy, WriteBack, Inexhaustible, Erase, MixKept, MixDropped, Replaced;
    AgreeAt(ch, ch');
    OpMix(idx, gs, ctx, ch);
    OpMix(idx, gs, ctx, ch');
    SizeOfMember(gs, idx);
    OpAgrees(gs[idx], ctx, At(ch, 0), At(ch', 0));
    var r := Op(gs[idx], ctx, At(ch, 0));
    if !r.NotNil() {
      OpAgrees(Remixed(idx, gs, r, Here(ch)), ctx, At(ch, 1), At(ch', 1));
    }
  }

  /** The draws of child `i` of `Any` agree. */
  ghost predicate ChildAgrees(ch: Oracle, ch': Oracle, i: nat) {
    Agree(At(ch, i + 1), At(ch', i + 1))
  }

  /** The children of `Any` see only their own part of the draws. */
  lemma {:induction false} OpAllAgrees(gs: seq<Gen>, ctx: Context, ch: Oracle, ch': Oracle)
    requires WellFormed(Any(gs)) && AllWellFormed(gs) && ctx.Valid()
    requires forall i: nat | i < |gs| :: ChildAgrees(ch, ch', i)
    ensures OpAll(gs, ctx, ch, 1) == OpAll(gs, ctx, ch', 1)
    decreases Size(Any(gs)), 0
  {
    hide Op, WellFormed, AnyPicked;
    OpAny(gs, ctx, ch);
    OpAny(gs, ctx, ch');
    var rs, rs' := OpAll(gs, ctx, ch, 1), OpAll(gs, ctx, ch', 1);
    forall i | 0 <= i < |gs| ensures rs[i] == rs'[i] {
      SizeOfMember(gs, i);
      assert ChildAgrees(ch, ch', i);
      OpAgrees(gs[i], ctx, At(ch, i + 1), At(ch', i + 1));
    }
  }

  lemma {:induction false} AnyAgrees(gs: seq<Gen>, ctx: Context, ch: Oracle, ch': Oracle)
    requires WellFormed(Any(gs)) && ctx.Valid() && Agree(ch, ch')
    ensures Op(Any(gs), ctx, ch) == Op(Any(gs), ctx, ch')
    decreases Size(Any(gs)), 1
  {
    hide Op, WellFormed, AnyPicked, Chosen;
    AnyChildren(gs);
    AgreeAt(ch, ch');
    assert forall i: nat :: ChildAgrees(ch, ch', i);
    OpAllAgrees(gs, ctx, ch, ch');
    OpAny(gs, ctx, ch);
    OpAny(gs, ctx, ch');
    var rs := OpAll(gs, ctx, ch, 1);
    ChosenAgrees(rs, Draws(ch), Draws(ch'));
    AnyPickedIs(gs, rs, Draws(ch));
    AnyPickedIs(gs, rs, Draws(ch'));
  }

  // ----- The choice of Any -----

  /** The child whose answer `Any` gives, or -1. */
  ghost function Choice(gs: seq<Gen>, ctx: Context, ch: Oracle): int
    requires AllWellFormed(gs) && ctx.Valid()
  {
    Chosen(OpAll(gs, ctx, ch, 1), Draws(ch))
  }

  /** The same draws for the children, and the record `s` for the ties between them. */
  ghost function WithTies(ch: Oracle, s: seq<nat>): Oracle {
    (p: seq<nat>) => if |p| == 2 && p[0] == 0 then FromRecord(s)(p[1]) else ch(p)
  }

  lemma TiesOnly(ch: Oracle, s: seq<nat>)
    ensures forall i: nat :: Draws(WithTies(ch, s))(i) == FromRecord(s)(i)
    ensures forall i: nat :: ChildAgrees(WithTies(ch, s), ch, i)
  {
    forall i: nat ensures ChildAgrees(WithTies(ch, s), ch, i) {
      var ours, theirs := At(WithTies(ch, s), i + 1), At(ch, i + 1);
      forall p ensures ours(p) == theirs(p) {
        assert ([i + 1] + p)[0] == i + 1;
      }
    }
  }

  /** What the children offer. */
  ghost function Offered(gs: seq<Gen>, ctx: Context, ch: Oracle): Offers
    requires AllWellFormed(gs) && ctx.Valid()
  {
    OffersOf(OpAll(gs, ctx, ch, 1))
  }

  lemma ChoiceOfRecord(gs: seq<Gen>, ctx: Context, ch: Oracle, s: seq<nat>)
    requires WellFormed(Any(gs)) && AllWellFormed(gs) && ctx.Valid()
    ensures Choice(gs, ctx, WithTies(ch, s)) == Fold(Offered(gs, ctx, ch), FromRecord(s), |gs|).idx
    ensures OpAll(gs, ctx, WithTies(ch, s), 1) == OpAll(gs, ctx, ch, 1)
  {
    hide Op, WellFormed, Fold;
    TiesOnly(ch, s);
    OpAllAgrees(gs, ctx, WithTies(ch, s), ch);
    ChosenAgrees(OpAll(gs, ctx, ch, 1), Draws(WithTies(ch, s)), FromRecord(s));
    OpAny(gs, ctx, ch);
  }

  /** The records of draws with which `Any` gives the answer of child `i`. */
  ghost function Favouring(gs: seq<Gen>, ctx: Context, ch: Oracle, i: nat): set<seq<nat>>
    requires AllWellFormed(gs) && ctx.Valid()
  {
    set s | s in AllDraws(Offered(gs, ctx, ch), |Offered(gs, ctx, ch)|) && Choice(gs, ctx, WithTies(ch, s)) == i
  }

  lemma FavouringIsChoosing(gs: seq<Gen>, ctx: Context, ch: Oracle, i: nat)
    requires WellFormed(Any(gs)) && AllWellFormed(gs) && ctx.Valid()
    ensures |Offered(gs, ctx, ch)| == |gs|
    ensures Favouring(gs, ctx, ch, i) == Choosing(Offered(gs, ctx, ch), |gs|, i)
  {
    hide Op, WellFormed, Fold, AllDraws, Choice;
    OpAny(gs, ctx, ch);
    forall s ensures s in Favouring(gs, ctx, ch, i) <==> s in Choosing(Offered(gs, ctx, ch), |gs|, i) {
      ChoiceOfRecord(gs, ctx, ch, s);
    }
  }

  /** Whatever the source of randomness yields, the child that answers is that of some record that is
      counted: the draws that break the ties, each reduced to its remainder. */
  lemma ChoiceByRemainder(gs: seq<Gen>, ctx: Context, ch: Oracle) returns (s: seq<nat>)
    requires WellFormed(Any(gs)) && AllWellFormed(gs) && ctx.Valid()
    ensures |Offered(gs, ctx, ch)| == |gs| && s in AllDraws(Offered(gs, ctx, ch), |gs|)
    ensures s == Reduced(Offered(gs, ctx, ch), Draws(ch), |gs|)
    ensures Choice(gs, ctx, ch) == Choice(gs, ctx, WithTies(ch, s))
  {
    hide Op, WellFormed, Fold, AllDraws, Reduced;
    OpAny(gs, ctx, ch);
    var offers := Offered(gs, ctx, ch);
    s := Reduced(offers, Draws(ch), |gs|);
    FoldByRemainder(offers, Draws(ch), |gs|);
    ChoiceOfRecord(gs, ctx, ch, s);
  }

  /** The answer of `Any` under a record of draws is that of the child chosen. */
  lemma AnswerOfChoice(gs: seq<Gen>, ctx: Context, ch: Oracle, s: seq<nat>)
    requires WellFormed(Any(gs)) && AllWellFormed(gs) && ctx.Valid()
    ensures var i, r := Choice(gs, ctx, WithTies(ch, s)), Op(Any(gs), ctx, WithTies(ch, s));
            && -1 <= i < |gs|
            && (i == -1 ==> r.op == NIL)
            && (i != -1 ==>
                  var child := Op(gs[i], ctx, At(ch, i + 1));
                  && r.op == child.op && r.next.Any? && |r.next.gens| == |gs| && r.next.gens[i] == child.next
                  && AllWellFormed(r.next.gens) && forall j | 0 <= j < |gs| && j != i :: Same(r.next.gens[j], gs[j]))
  {
    hide Op, WellFormed, AnyPicked, Chosen, Replaced, Fold, Erase;
    ChoiceOfRecord(gs, ctx, ch, s);
    OpAny(gs, ctx, ch);
    OpAny(gs, ctx, WithTies(ch, s));
    var rs := OpAll(gs, ctx, ch, 1);
    AnyPickedIs(gs, rs, Draws(WithTies(ch, s)));
    AftersSame(gs, rs);
  }

  /** `Any` is fair: whatever its children draw, each child that offers an operation at the soonest time is
      the one that answers for the same share of the draws that break the tie. */
  lemma AnyIsFair(gs: seq<Gen>, ctx: Context, ch: Oracle, i: nat)
    requires WellFormed(Any(gs)) && AllWellFormed(gs) && ctx.Valid()
    requires |Offered(gs, ctx, ch)| == |gs| && i in Tied(Offered(gs, ctx, ch), |gs|)
    ensures |Favouring(gs, ctx, ch, i)| * |Tied(Offered(gs, ctx, ch), |gs|)| == |AllDraws(Offered(gs, ctx, ch), |gs|)|
  {
    hide Op, WellFormed, Fold, AllDraws, Favouring, Tied, Choosing, Offered;
    FavouringIsChoosing(gs, ctx, ch, i);
    Fair(Offered(gs, ctx, ch), |gs|, i);
  }

  /** With all of its `k` children tied, each answers for `(k - 1)!` of the `k!` records of draws. */
  lemma AnyIsFairInNumbers(gs: seq<Gen>, ctx: Context, ch: Oracle, i: nat)
    requires WellFormed(Any(gs)) && AllWellFormed(gs) && ctx.Valid() && i < |gs|
    requires AllTied(Offered(gs, ctx, ch))
    ensures |Offered(gs, ctx, ch)| == |gs| && |AllDraws(Offered(gs, ctx, ch), |gs|)| == Factorial(|gs|)
    ensures |Favouring(gs, ctx, ch, i)| == Factorial(|gs| - 1)
  {
    hide Op, WellFormed, Fold, AllDraws, Favouring, AllTied, Choosing, Offered;
    FavouringIsChoosing(gs, ctx, ch, i);
    FairInNumbers(Offered(gs, ctx, ch), i);
  }

  /** A child that is undercut never answers. */
  lemma AnyPassesOver(gs: seq<Gen>, ctx: Context, ch: Oracle, i: nat)
    requires WellFormed(Any(gs)) && AllWellFormed(gs) && ctx.Valid() && i < |gs|
    requires |Offered(gs, ctx, ch)| == |gs| && i !in Tied(Offered(gs, ctx, ch), |gs|)
    requires exists j :: Live(Offered(gs, ctx, ch), j)
    ensures Favouring(gs, ctx, ch, i) == {}
  {
    hide Op, WellFormed, Fold, AllDraws, Favouring, Tied, Choosing, Offered, Live;
    FavouringIsChoosing(gs, ctx, ch, i);
    NeverChosen(Offered(gs, ctx, ch), i);
  }

  /** Every child that offers an operation at the soonest time answers for some draws. */
  lemma AnyCanChoose(gs: seq<Gen>, ctx: Context, ch: Oracle, i: nat) returns (s: seq<nat>)
    requires WellFormed(Any(gs)) && AllWellFormed(gs) && ctx.Valid()
    requires |Offered(gs, ctx, ch)| == |gs| && i in Tied(Offered(gs, ctx, ch), |gs|)
    ensures Choice(gs, ctx, WithTies(ch, s)) == i
  {
    hide Op, WellFormed, Fold, AllDraws, Tied, Choosing, Offered, Choice;
    AnyIsFair(gs, ctx, ch, i);
    DrawsExist(Offered(gs, ctx, ch), |gs|);
    assert |Favouring(gs, ctx, ch, i)| > 0;
    s :| s in Favouring(gs, ctx, ch, i);
  }

  /** There is always some record of draws. */
  lemma {:induction false} DrawsExist(offers: Offers, k: nat)
    requires k <= |offers|
    ensures |AllDraws(offers, k)| > 0
  {
    if k > 0 {
      DrawsExist(offers, k - 1);
      BoundPositive(offers, k - 1);
      hide Bound, Extend;
      ExtendSize(AllDraws(offers, k - 1), 0, Bound(offers, k - 1));
    }
  }
}
