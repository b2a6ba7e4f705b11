/** What becomes of a generator in the course of a run, limit by limit: every time limit that is left
    comes from one that was there, in the same place, and keeps its cutoff once that is set. */
module Descents {
  import opened Operations
  import opened Contexts
  import opened Generators
  import opened Evaluation
  import opened Cutoffs

  /** There is no time limit in it. */
  ghost predicate Limitless(g: Gen) {
    match g
    case ListGen(gs) => forall i | 0 <= i < |gs| :: Limitless(gs[i])
    case Validate(c) => Limitless(c)
    case OnThreads(c, _) => Limitless(c)
    case TimeLimit(_, _, _) => false
    case Stagger(_, _, c) => Limitless(c)
    case Mix(_, gs) => forall i | 0 <= i < |gs| :: Limitless(gs[i])
    case Any(gs) => forall i | 0 <= i < |gs| :: Limitless(gs[i])
    case _ => true
  }

  /** `h` is what `g` may have become: elements of lists and children of mixes may be gone, and what is
      left descends from what was there; a time limit keeps its limit, and its cutoff if that was set. */
  ghost predicate Descends(g: Gen, h: Gen)
    decreases g, 0
  {
    match g
    case Null => h.Null?
    case OpGen(_) => Limitless(h)
    case FunGen(_) => Limitless(h)
    case ListGen(gs) => h.Null? || InList(gs, h)
    case Validate(c) => h.Null? || (h.Validate? && Descends(c, h.gen))
    case OnThreads(c, f) => h.Null? || (h.OnThreads? && h.filter == f && Descends(c, h.gen))
    case TimeLimit(limit, cutoff, c) =>
      || h.Null?
      || (h.TimeLimit? && h.limit == limit && (cutoff != INVALID_TIME ==> h.cutoff == cutoff) && Descends(c, h.gen))
    case Stagger(dt, _, c) => h.Null? || (h.Stagger? && h.dt == dt && Descends(c, h.gen))
    case Mix(_, gs) => h.Null? || (h.Mix? && exists e :: Picks(e, |gs|, |h.gens|) && Embeds(gs, h.gens, e))
    case Any(gs) => h.Null? || (h.Any? && DescendAll(gs, h.gens))
  }

  /** Increasing positions, `k` of `n`. */
  predicate Picks(e: seq<nat>, n: nat, k: nat) {
    |e| == k && (forall i | 0 <= i < |e| :: e[i] < n) && forall i, j | 0 <= i < j < |e| :: e[i] < e[j]
  }

  ghost predicate Embeds(gs: seq<Gen>, hs: seq<Gen>, e: seq<nat>)
    requires Picks(e, |gs|, |hs|)
    decreases gs, 0
  {
    forall i | 0 <= i < |hs| :: Descends(gs[e[i]], hs[i])
  }

  ghost predicate DescendAll(gs: seq<Gen>, hs: seq<Gen>)
    decreases gs, 0
  {
    |hs| == |gs| && forall i | 0 <= i < |gs| :: Descends(gs[i], hs[i])
  }

  predicate Offset(n: nat, k: int) {
    0 <= k <= n
  }

  /** What is left of a list: its elements from some position on, or a successor of the last alone. */
  ghost predicate InList(gs: seq<Gen>, h: Gen)
    decreases gs, 1
  {
    || (|gs| > 0 && Descends(gs[|gs| - 1], h))
    || (h.ListGen? && exists k :: Offset(|gs|, k) && Suffix(gs, h.gens, k))
  }

  ghost predicate Suffix(gs: seq<Gen>, hs: seq<Gen>, k: int)
    requires Offset(|gs|, k)
    decreases gs, 0
  {
    |hs| == |gs| - k && forall i | 0 <= i < |hs| :: Descends(gs[k + i], hs[i])
  }

  lemma DescendsNull(g: Gen)
    ensures Descends(g, Null)
  {
  }

  // ----- Nothing gains a limit -----

  lemma {:induction false} LimitlessDescends(g: Gen, h: Gen)
    requires Limitless(g) && Descends(g, h)
    ensures Limitless(h)
    decreases g
  {
    if h.Null? {
      return;
    }
    match g
    case Null =>
    case OpGen(_) =>
    case FunGen(_) =>
    case ListGen(gs) => LimitlessInList(gs, h);
    case Validate(c) => LimitlessDescends(c, h.gen);
    case OnThreads(c, _) => LimitlessDescends(c, h.gen);
    case Stagger(_, _, c) => LimitlessDescends(c, h.gen);
    case Mix(_, gs) =>
      var e :| Picks(e, |gs|, |h.gens|) && Embeds(gs, h.gens, e);
      forall i | 0 <= i < |h.gens| ensures Limitless(h.gens[i]) {
        LimitlessDescends(gs[e[i]], h.gens[i]);
      }
    case Any(gs) =>
      forall i | 0 <= i < |gs| ensures Limitless(h.gens[i]) {
        LimitlessDescends(gs[i], h.gens[i]);
      }
  }

  lemma {:induction false} LimitlessInList(gs: seq<Gen>, h: Gen)
    requires (forall i | 0 <= i < |gs| :: Limitless(gs[i])) && InList(gs, h)
    ensures Limitless(h)
    decreases gs
  {
    if |gs| > 0 && Descends(gs[|gs| - 1], h) {
      LimitlessDescends(gs[|gs| - 1], h);
    } else {
      var k :| Offset(|gs|, k) && Suffix(gs, h.gens, k);
      forall i | 0 <= i < |h.gens| ensures Limitless(h.gens[i]) {
        LimitlessDescends(gs[k + i], h.gens[i]);
      }
    }
  }

  // ----- Descent composes -----

  lemma {:induction false} DescendsTrans(g: Gen, h: Gen, k: Gen)
    requires Descends(g, h) && Descends(h, k)
    ensures Descends(g, k)
    decreases g, 0
  {
    if k.Null? {
      DescendsNull(g);
      return;
    }
    match g
    case Null =>
    case OpGen(_) => LimitlessDescends(h, k);
    case FunGen(_) => LimitlessDescends(h, k);
    case ListGen(gs) => ListTrans(gs, h, k);
    case Validate(c) => DescendsTrans(c, h.gen, k.gen);
    case OnThreads(c, _) => DescendsTrans(c, h.gen, k.gen);
    case TimeLimit(_, _, c) => DescendsTrans(c, h.gen, k.gen);
    case Stagger(_, _, c) => DescendsTrans(c, h.gen, k.gen);
    case Mix(idx, gs) => MixTrans(idx, gs, h, k);
    case Any(gs) => AnyTrans(gs, h.gens, k.gens);
  }

  lemma {:induction false} AnyTrans(gs: seq<Gen>, hs: seq<Gen>, ks: seq<Gen>)
    requires DescendAll(gs, hs) && DescendAll(hs, ks)
    ensures DescendAll(gs, ks)
    decreases gs, 0
  {
    hide Descends;
    forall i | 0 <= i < |gs| ensures Descends(gs[i], ks[i]) {
      DescendsTrans(gs[i], hs[i], ks[i]);
    }
  }

  lemma {:induction false} EmbedsTrans(gs: seq<Gen>, hs: seq<Gen>, ks: seq<Gen>, e: seq<nat>, f: seq<nat>)
    returns (c: seq<nat>)
    requires Picks(e, |gs|, |hs|) && Picks(f, |hs|, |ks|) && Embeds(gs, hs, e) && Embeds(hs, ks, f)
    ensures Picks(c, |gs|, |ks|) && Embeds(gs, ks, c)
    decreases gs, 0
  {
    hide Descends;
    c := seq(|f|, i requires 0 <= i < |f| => e[f[i]]);
    forall i | 0 <= i < |ks| ensures Descends(gs[c[i]], ks[i]) {
      DescendsTrans(gs[e[f[i]]], hs[f[i]], ks[i]);
    }
  }

  lemma {:induction false} MixTrans(idx: int, gs: seq<Gen>, h: Gen, k: Gen)
    requires Descends(Mix(idx, gs), h) && Descends(h, k) && !k.Null?
    ensures Descends(Mix(idx, gs), k)
    decreases gs, 1
  {
    var e := MixEmbedding(idx, gs, h);
    var f := MixEmbedding(h.idx, h.gens, k);
    var c := EmbedsTrans(gs, h.gens, k.gens, e, f);
    MixDescends(idx, gs, k, c);
  }

  lemma MixEmbedding(idx: int, gs: seq<Gen>, h: Gen) returns (e: seq<nat>)
    requires Descends(Mix(idx, gs), h) && !h.Null?
    ensures h.Mix? && Picks(e, |gs|, |h.gens|) && Embeds(gs, h.gens, e)
  {
    e :| Picks(e, |gs|, |h.gens|) && Embeds(gs, h.gens, e);
  }

  lemma MixDescends(idx: int, gs: seq<Gen>, h: Gen, e: seq<nat>)
    requires h.Mix? && Picks(e, |gs|, |h.gens|) && Embeds(gs, h.gens, e)
    ensures Descends(Mix(idx, gs), h)
  {
  }

  lemma ListDescends(gs: seq<Gen>, h: Gen)
    ensures Descends(ListGen(gs), h) <==> h.Null? || InList(gs, h)
  {
  }

  lemma SuffixDescends(gs: seq<Gen>, hs: seq<Gen>, k: int)
    requires Offset(|gs|, k) && Suffix(gs, hs, k)
    ensures InList(gs, ListGen(hs))
  {
  }

  lemma LastDescends(gs: seq<Gen>, h: Gen)
    requires |gs| > 0 && Descends(gs[|gs| - 1], h)
    ensures InList(gs, h)
  {
  }

  lemma SuffixOf(gs: seq<Gen>, h: Gen) returns (k: int)
    requires InList(gs, h) && !(|gs| > 0 && Descends(gs[|gs| - 1], h))
    ensures h.ListGen? && Offset(|gs|, k) && Suffix(gs, h.gens, k)
  {
    k :| Offset(|gs|, k) && Suffix(gs, h.gens, k);
  }

  lemma {:induction false} ListTrans(gs: seq<Gen>, h: Gen, k: Gen)
    requires Descends(ListGen(gs), h) && Descends(h, k) && !k.Null?
    ensures Descends(ListGen(gs), k)
    decreases gs, 1
  {
    ListDescends(gs, h);
    ListDescends(gs, k);
    if |gs| > 0 && Descends(gs[|gs| - 1], h) {
      DescendsTrans(gs[|gs| - 1], h, k);
      LastDescends(gs, k);
    } else {
      var a := SuffixOf(gs, h);
      ListDescends(h.gens, k);
      SuffixTrans(gs, h.gens, k, a);
    }
  }

  lemma {:induction false} SuffixTrans(gs: seq<Gen>, hs: seq<Gen>, k: Gen, a: int)
    requires Offset(|gs|, a) && Suffix(gs, hs, a) && InList(hs, k)
    ensures InList(gs, k)
    decreases gs, 0
  {
    hide Descends, InList;
    var last := |hs| - 1;
    if |hs| > 0 && Descends(hs[last], k) {
      assert Descends(gs[a + last], hs[last]);
      DescendsTrans(gs[|gs| - 1], hs[last], k);
      LastDescends(gs, k);
    } else {
      var b := SuffixOf(hs, k);
      forall i | 0 <= i < |k.gens| ensures Descends(gs[a + b + i], k.gens[i]) {
        assert Descends(gs[a + (b + i)], hs[b + i]);
        DescendsTrans(gs[a + b + i], hs[b + i], k.gens[i]);
      }
      assert Suffix(gs, k.gens, a + b);
      SuffixDescends(gs, k.gens, a + b);
    }
  }

  // ----- Copies, updates and receivers descend -----

  lemma {:induction false} SettledDescends(g: Gen, h: Gen)
    requires Settled(g, h)
    ensures Descends(g, h)
    decreases g, 0
  {
    match g
    case Null =>
    case OpGen(_) =>
    case FunGen(_) =>
    case ListGen(gs) =>
      SettledAllDescend(gs, h.gens);
      ListOfDescendants(gs, h.gens);
    case Validate(c) => SettledDescends(c, h.gen);
    case OnThreads(c, _) => SettledDescends(c, h.gen);
    case TimeLimit(_, _, c) => SettledDescends(c, h.gen);
    case Stagger(_, _, c) => SettledDescends(c, h.gen);
    case Mix(idx, gs) =>
      SettledAllDescend(gs, h.gens);
      MixOfDescendants(idx, gs, h);
    case Any(gs) => SettledAllDescend(gs, h.gens);
  }

  lemma {:induction false} SettledAllDescend(gs: seq<Gen>, hs: seq<Gen>)
    requires SettledAll(gs, hs)
    ensures DescendAll(gs, hs)
    decreases gs, 0
  {
    hide Descends;
    forall i | 0 <= i < |gs| ensures Descends(gs[i], hs[i]) {
      SettledDescends(gs[i], hs[i]);
    }
  }

  lemma ListOfDescendants(gs: seq<Gen>, hs: seq<Gen>)
    requires DescendAll(gs, hs)
    ensures Descends(ListGen(gs), ListGen(hs))
  {
    hide Descends;
    assert Suffix(gs, hs, 0);
    SuffixDescends(gs, hs, 0);
    ListDescends(gs, ListGen(hs));
  }

  lemma MixOfDescendants(idx: int, gs: seq<Gen>, h: Gen)
    requires h.Mix? && DescendAll(gs, h.gens)
    ensures Descends(Mix(idx, gs), h)
  {
    hide Descends;
    var e: seq<nat> := seq(|gs|, i requires 0 <= i < |gs| => i);
    assert Embeds(gs, h.gens, e);
    MixDescends(idx, gs, h, e);
  }

  // ----- Successors descend -----

  /** A child replaced by a descendant in a copy of children that have descended. */
  lemma ReplacedDescend(gs: seq<Gen>, xs: seq<Gen>, idx: nat, g: Gen)
    requires AllWellFormed(xs) && SettledAll(gs, xs) && idx < |gs| && WellFormed(g) && Descends(gs[idx], g)
    ensures DescendAll(gs, Replaced(xs, idx, g))
    ensures forall i | 0 <= i < |gs| && i != idx :: Settled(gs[i], Replaced(xs, idx, g)[i])
  {
    hide Descends, Copy, WellFormed, Settled;
    CopyAllSettled(xs);
    forall i | 0 <= i < |gs| && i != idx
      ensures Settled(gs[i], Replaced(xs, idx, g)[i]) && Descends(gs[i], Replaced(xs, idx, g)[i])
    {
      SettledTrans(gs[i], xs[i], CopyAll(xs)[i]);
      SettledDescends(gs[i], CopyAll(xs)[i]);
    }
  }

  /** Whatever the generator hands out, the limits of its successor are its own, and those that were
      set keep their cutoff. */
  lemma {:induction false} NextDescends(g: Gen, ctx: Context, ch: Oracle)
    requires Ready(g) && ctx.Valid()
    ensures Descends(g, Op(g, ctx, ch).next)
    decreases Size(g), 1
  {
    match g
    case Null =>
    case OpGen(_) =>
    case FunGen(f) => FunDescends(f, ctx, ch);
    case ListGen(gs) => ListNextDescends(gs, ctx, ch);
    case Validate(c) =>
      NextDescends(c, ctx, At(ch, 0));
      WrapperDescends(g, ctx, ch);
    case OnThreads(c, f) =>
      NextDescends(c, OnThreadsContext(f, ctx), At(ch, 0));
      WrapperDescends(g, ctx, ch);
    case TimeLimit(_, _, c) =>
      NextDescends(c, ctx, At(ch, 0));
      WrapperDescends(g, ctx, ch);
    case Stagger(_, _, c) =>
      NextDescends(c, ctx, At(ch, 0));
      WrapperDescends(g, ctx, ch);
    case Mix(idx, gs) => MixNextDescends(idx, gs, ctx, ch);
    case Any(gs) => AnyNextDescends(gs, ctx, ch);
  }

  lemma FunDescends(f: (Context, nat) -> Operation, ctx: Context, ch: Oracle)
    requires WellFormed(FunGen(f)) && ctx.Valid()
    ensures Descends(FunGen(f), Op(FunGen(f), ctx, ch).next)
  {
    hide Op;
    OpFun(f, ctx, ch);
    var next := Op(FunGen(f), ctx, ch).next;
    assert Limitless(next.gens[0]) && Limitless(next.gens[1]);
  }

  lemma WrapperDescends(g: Gen, ctx: Context, ch: Oracle)
    requires WellFormed(g) && ctx.Valid() && (g.Validate? || g.OnThreads? || g.TimeLimit? || g.Stagger?)
    requires Descends(g.gen, Op(g.gen, if g.OnThreads? then OnThreadsContext(g.filter, ctx) else ctx, At(ch, 0)).next)
    ensures Descends(g, Op(g, ctx, ch).next)
  {
    hide Op;
    match g
    case Validate(c) => OpValidate(c, ctx, ch);
    case OnThreads(c, f) => OpOnThreads(c, f, ctx, ch);
    case TimeLimit(limit, cutoff, c) => OpTimeLimit(limit, cutoff, c, ctx, ch);
    case Stagger(dt, due, c) =>
      OpStagger(dt, due, c, ctx, ch);
      OpSettled(c, ctx, At(ch, 0));
      SettledDescends(c, Op(c, ctx, At(ch, 0)).after);
  }

  lemma ListKeptDescends(gs: seq<Gen>, r: OpResult)
    requires |gs| > 0 && AllReady(gs) && Answer(gs[0], r) && Descends(gs[0], r.next)
    ensures Descends(ListGen(gs), ListKept(gs, r).next)
  {
    hide Descends, Copy, Erase, Inexhaustible, WellFormed, Settled;
    ListDescends(gs, r.next);
    if |gs| == 1 {
      LastDescends(gs, r.next);
    } else {
      CopyAllSettled(gs[1..]);
      SettledAllDescend(gs[1..], CopyAll(gs[1..]));
      var next := [r.next] + CopyAll(gs[1..]);
      forall i | 0 <= i < |gs| ensures Descends(gs[i], next[i]) {
        assert i > 0 ==> gs[i] == gs[1..][i - 1];
      }
      ListOfDescendants(gs, next);
    }
  }

  lemma PoppedDescends(gs: seq<Gen>)
    requires |gs| > 1 && AllReady(gs[1..])
    ensures Descends(ListGen(gs), ListGen(CopyAll(gs[1..])))
  {
    hide Descends, Copy, WellFormed, Settled;
    CopyAllSettled(gs[1..]);
    SettledAllDescend(gs[1..], CopyAll(gs[1..]));
    var rest := CopyAll(gs[1..]);
    forall i | 0 <= i < |rest| ensures Descends(gs[1 + i], rest[i]) {
      assert gs[1 + i] == gs[1..][i];
    }
    assert Suffix(gs, rest, 1);
    SuffixDescends(gs, rest, 1);
    ListDescends(gs, ListGen(rest));
  }

  lemma {:induction false} ListNextDescends(gs: seq<Gen>, ctx: Context, ch: Oracle)
    requires WellFormed(ListGen(gs)) && ctx.Valid()
    ensures Descends(ListGen(gs), Op(ListGen(gs), ctx, ch).next)
    decreases Size(ListGen(gs)), 0
  {
    hide Op, Descends, Copy, WriteBack, Inexhaustible;
    OpList(gs, ctx, ch);
    SizeOfMember(gs, 0);
    NextDescends(gs[0], ctx, At(ch, 0));
    var r := Op(gs[0], ctx, At(ch, 0));
    if !r.op.kind.Nil? {
      ListKeptDescends(gs, r);
    } else if |gs| == 1 {
      DescendsNull(ListGen(gs));
    } else {
      var rest := Popped(gs, r);
      NextDescends(rest, ctx, At(ch, 1));
      PoppedDescends(gs);
      DescendsTrans(ListGen(gs), rest, Op(rest, ctx, At(ch, 1)).next);
    }
  }

  lemma DroppedDescends(idx: int, gs: seq<Gen>, rest: Gen)
    requires 0 <= idx < |gs| && AllReady(Without(gs, idx)) && rest.Mix? && rest.gens == CopyAll(Without(gs, idx))
    ensures Descends(Mix(idx, gs), rest)
  {
    hide Descends, Copy, WellFormed, Settled;
    var others := Without(gs, idx);
    CopyAllSettled(others);
    SettledAllDescend(others, rest.gens);
    var e: seq<nat> := seq(|others|, i requires 0 <= i < |others| => if i < idx then i else i + 1);
    forall i | 0 <= i < |rest.gens| ensures Descends(gs[e[i]], rest.gens[i]) {
      assert others[i] == gs[e[i]];
    }
    assert Embeds(gs, rest.gens, e);
    MixDescends(idx, gs, rest, e);
  }

  lemma {:induction false} MixNextDescends(idx: int, gs: seq<Gen>, ctx: Context, ch: Oracle)
    requires WellFormed(Mix(idx, gs)) && ctx.Valid()
    ensures Descends(Mix(idx, gs), Op(Mix(idx, gs), ctx, ch).next)
    decreases Size(Mix(idx, gs)), 0
  {
    hide Op, Descends, Copy, WriteBack, Inexhaustible, Settled;
    OpMix(idx, gs, ctx, ch);
    SizeOfMember(gs, idx);
    NextDescends(gs[idx], ctx, At(ch, 0));
    var r := Op(gs[idx], ctx, At(ch, 0));
    if r.NotNil() {
      SettledAllSelf(gs);
      ReplacedDescend(gs, gs, idx, r.next);
      MixOfDescendants(idx, gs, Op(Mix(idx, gs), ctx, ch).next);
    } else {
      var rest := Remixed(idx, gs, r, Here(ch));
      NextDescends(rest, ctx, At(ch, 1));
      DroppedDescends(idx, gs, rest);
      DescendsTrans(Mix(idx, gs), rest, Op(rest, ctx, At(ch, 1)).next);
    }
  }

  lemma AnyDescends(gs: seq<Gen>, hs: seq<Gen>)
    requires DescendAll(gs, hs)
    ensures Descends(Any(gs), Any(hs))
  {
  }

  lemma {:induction false} AnyNextDescends(gs: seq<Gen>, ctx: Context, ch: Oracle)
    requires WellFormed(Any(gs)) && ctx.Valid()
    ensures Descends(Any(gs), Op(Any(gs), ctx, ch).next)
    decreases Size(Any(gs)), 0
  {
    hide Op, Descends, Settled, WellFormed, AnyPicked, Chosen, Replaced;
    AnyChildren(gs);
    OpAny(gs, ctx, ch);
    DescendsNull(Any(gs));
    var rs := OpAll(gs, ctx, ch, 1);
    var idx := Chosen(rs, Draws(ch));
    AnyPickedIs(gs, rs, Draws(ch));
    if idx != -1 {
      SizeOfMember(gs, idx);
      NextDescends(gs[idx], ctx, At(ch, idx + 1));
      PickedOk(gs, rs, idx);
      AftersSettled(gs, ctx, ch);
      ReplacedDescend(gs, AftersOf(rs), idx, rs[idx].next);
      AnyDescends(gs, Replaced(AftersOf(rs), idx, rs[idx].next));
    }
  }

  lemma AftersSettled(gs: seq<Gen>, ctx: Context, ch: Oracle)
    requires WellFormed(Any(gs)) && AllWellFormed(gs) && ctx.Valid()
    ensures SettledAll(gs, AftersOf(OpAll(gs, ctx, ch, 1)))
  {
    hide Op, Settled;
    OpAny(gs, ctx, ch);
    var rs := OpAll(gs, ctx, ch, 1);
    forall i | 0 <= i < |gs| ensures Settled(gs[i], AftersOf(rs)[i]) {
      OpSettled(gs[i], ctx, At(ch, i + 1));
    }
  }
}
