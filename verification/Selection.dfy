/** How `Any` chooses among the operations its children offer
    (src/jepsen/generator/Generator.cpp, soonestOpMap and the loop of Any::op). */
module Selection {
  import opened Operations

  /** What a child offers: usable when its operation is not nil and it has a successor. */
  datatype Offer = Offer(usable: bool, op: Operation)

  datatype Weighted = Weighted(op: Operation, weight: nat, idx: int)

  type Offers = os: seq<Offer> | forall i | 0 <= i < |os| :: os[i].usable ==> !os[i].op.kind.Nil?

  /** The sooner of two candidates; on a tie the random draw decides by weight. */
  function Soonest(m1: Weighted, m2: Weighted, draw: nat): (m: Weighted)
    requires m1.weight + m2.weight > 0
  {
    if !m1.op.Real() then m2
    else if !m2.op.Real() then m1
    else if m1.op.time == m2.op.time then
      var w := m1.weight + m2.weight;
      if draw % w < m1.weight then m1.(weight := w) else m2.(weight := w)
    else if m1.op.time < m2.op.time then m1
    else m2
  }

  /** The running candidate after the first `k` children; `draws(i)` is the random value at child `i`. */
  function Fold(offers: Offers, draws: nat -> nat, k: nat): (w: Weighted)
    requires k <= |offers|
    ensures w.weight >= 1
  {
    if k == 0 then Weighted(NIL, 1, -1)
    else
      var cur := Fold(offers, draws, k - 1);
      if offers[k - 1].usable then
        Soonest(cur, Weighted(offers[k - 1].op, 1, k - 1), draws(k - 1))
      else cur
  }

  // ----- What the choice means -----

  /** Child `i` offers an operation that could be scheduled. */
  predicate Live(offers: Offers, i: int) {
    0 <= i < |offers| && offers[i].usable && offers[i].op.Real()
  }

  /** The live children among the first `k` whose time no live child undercuts. */
  ghost function Tied(offers: Offers, k: nat): set<nat>
    requires k <= |offers|
  {
    set i: nat | i < k && Live(offers, i) && forall j: nat | j < k &&
        Live(offers, j) :: offers[i].op.time <= offers[j].op.time
  }

  ghost predicate Correct(offers: Offers, k: nat, w: Weighted)
    requires k <= |offers|
  {
    && (w.idx == -1 ==> w.op == NIL && forall i | 0 <= i < k :: !offers[i].usable)
    && (w.idx != -1 ==> 0 <= w.idx < k && offers[w.idx].usable && w.op == offers[w.idx].op)
    && (!w.op.Real() ==> forall i | 0 <= i < k :: !Live(offers, i))
    && (w.op.Real() ==> w.idx in Tied(offers, k) && w.weight == |Tied(offers, k)|)
  }

  /** The choice is a live child of minimal time whenever some child is live, its weight counts
      the children tied with it, it is pending only when every usable child is pending, and
      there is none only when no child is usable. */
  lemma {:induction false} FoldCorrect(offers: Offers, draws: nat -> nat, k: nat)
    requires k <= |offers|
    ensures Correct(offers, k, Fold(offers, draws, k))
  {
    if k > 0 {
      FoldCorrect(offers, draws, k - 1);
      hide Soonest, Correct;
      SoonestCorrect(offers, k, Fold(offers, draws, k - 1), draws(k - 1));
    }
  }

  /** When all usable children are pending the last of them is the choice, whatever is drawn. */
  lemma {:induction false} LastPending(offers: Offers, draws: nat -> nat, k: nat)
    requires k <= |offers| && forall i | 0 <= i < k :: !Live(offers, i)
    ensures var idx := Fold(offers, draws, k).idx;
            && -1 <= idx < k && (idx != -1 ==> offers[idx].usable)
            && forall i | idx < i < k && i >= 0 :: !offers[i].usable
  {
    if k > 0 {
      LastPending(offers, draws, k - 1);
      FoldCorrect(offers, draws, k - 1);
    }
  }

  lemma SoonestCorrect(offers: Offers, k: nat, cur: Weighted, draw: nat)
    requires 0 < k <= |offers| && cur.weight >= 1 && Correct(offers, k - 1, cur)
    ensures Correct(offers, k, if offers[k - 1].usable then Soonest(cur, Weighted(offers[k - 1].op, 1, k - 1), draw)
            else cur)
  {
    hide Tied;
    TiedStep(offers, k, cur);
  }

  /** How one more child changes the set of tied children. */
  lemma TiedStep(offers: Offers, k: nat, cur: Weighted)
    requires 0 < k <= |offers| && Correct(offers, k - 1, cur)
    ensures !Live(offers, k - 1) ==> Tied(offers, k) == Tied(offers, k - 1)
    ensures Live(offers, k - 1) && (!cur.op.Real() || offers[k - 1].op.time < cur.op.time) ==>
            Tied(offers, k) == {k - 1}
    ensures Live(offers, k - 1) && cur.op.Real() && cur.op.time < offers[k - 1].op.time ==>
            Tied(offers, k) == Tied(offers, k - 1)
    ensures Live(offers, k - 1) && cur.op.Real() && cur.op.time == offers[k - 1].op.time ==>
              Tied(offers, k) == Tied(offers, k - 1) + {k - 1} && k - 1 !in Tied(offers, k - 1)
  {
    if !Live(offers, k - 1) || (cur.op.Real() && cur.op.time < offers[k - 1].op.time) {
      TiedKept(offers, k, cur);
    } else if !cur.op.Real() || offers[k - 1].op.time < cur.op.time {
      TiedAnew(offers, k, cur);
    } else {
      TiedMore(offers, k, cur);
    }
  }

  lemma TiedKept(offers: Offers, k: nat, cur: Weighted)
    requires 0 < k <= |offers| && Correct(offers, k - 1, cur)
    requires !Live(offers, k - 1) || (cur.op.Real() && cur.op.time < offers[k - 1].op.time)
    ensures Tied(offers, k) == Tied(offers, k - 1)
  {
    var last: nat := k - 1;
    forall i: nat ensures i in Tied(offers, k) <==> i in Tied(offers, last) {
      assert cur.op.Real() ==> Live(offers, cur.idx);
    }
  }

  lemma TiedAnew(offers: Offers, k: nat, cur: Weighted)
    requires 0 < k <= |offers| && Correct(offers, k - 1, cur) && Live(offers, k - 1)
    requires !cur.op.Real() || offers[k - 1].op.time < cur.op.time
    ensures Tied(offers, k) == {k - 1}
  {
    var last: nat := k - 1;
    forall i: nat ensures i in Tied(offers, k) <==> i == last {
      assert cur.op.Real() ==> Live(offers, cur.idx);
    }
  }

  lemma TiedMore(offers: Offers, k: nat, cur: Weighted)
    requires 0 < k <= |offers| && Correct(offers, k - 1, cur) && Live(offers, k - 1)
    requires cur.op.Real() && cur.op.time == offers[k - 1].op.time
    ensures Tied(offers, k) == Tied(offers, k - 1) + {k - 1} && k - 1 !in Tied(offers, k - 1)
  {
    var last: nat := k - 1;
    forall i: nat ensures i in Tied(offers, k) <==> i in Tied(offers, last) || i == last {
      assert Live(offers, cur.idx);
    }
  }

  /** The loop of Any::op: the result variables follow the running candidate. */
  method ChooseSoonest(offers: Offers, draws: nat -> nat) returns (idx: int, op: Operation)
    ensures idx == Fold(offers, draws, |offers|).idx && op == Fold(offers, draws, |offers|).op
    ensures idx == -1 <==> forall i | 0 <= i < |offers| :: !offers[i].usable
    ensures idx != -1 ==> 0 <= idx < |offers| && offers[idx].usable && op == offers[idx].op
    ensures (exists i :: Live(offers, i)) ==>
              Live(offers, idx) && forall i | Live(offers, i) :: op.time <= offers[i].op.time
  {
    var cur := Weighted(NIL, 1, -1);
    idx, op := -1, NIL;
    for i := 0 to |offers|
      invariant cur == Fold(offers, draws, i)
      invariant idx == cur.idx && op == cur.op
    {
      FoldCorrect(offers, draws, i);
      if offers[i].usable {
        cur := Soonest(cur, Weighted(offers[i].op, 1, i), draws(i));
        if cur.idx == i {
          idx, op := i, offers[i].op;
        }
      }
    }
    FoldCorrect(offers, draws, |offers|);
  }

  // ----- Draws -----

  lemma ModIdempotent(a: nat, w: nat)
    requires w > 0
    ensures (a % w) % w == a % w
  {
  }

  function Step(offers: Offers, k: nat, cur: Weighted, t: nat): Weighted
    requires 0 < k <= |offers| && cur.weight >= 1
  {
    if offers[k - 1].usable then Soonest(cur, Weighted(offers[k - 1].op, 1, k - 1), t) else cur
  }

  /** The number of values the draw at child `k` distinguishes: on a tie the summed weight, else one. */
  ghost function Bound(offers: Offers, k: nat): nat
    requires k < |offers|
  {
    if Live(offers, k) && k in Tied(offers, k + 1) then |Tied(offers, k + 1)| else 1
  }

  lemma BoundPositive(offers: Offers, k: nat)
    requires k < |offers|
    ensures Bound(offers, k) >= 1
  {
    hide Tied;
    if Live(offers, k) && k in Tied(offers, k + 1) {
      assert |Tied(offers, k + 1)| > 0;
    }
  }

  /** However large it is, a draw counts only by its remainder when divided by the number of children that
      are tied. */
  lemma StepByRemainder(offers: Offers, k: nat, cur: Weighted, t: nat)
    requires 0 < k <= |offers| && cur.weight >= 1 && Correct(offers, k - 1, cur)
    ensures Bound(offers, k - 1) >= 1
    ensures Step(offers, k, cur, t) == Step(offers, k, cur, t % Bound(offers, k - 1))
  {
    hide Tied;
    BoundPositive(offers, k - 1);
    TiedStep(offers, k, cur);
    if Live(offers, k - 1) && cur.op.Real() && cur.op.time == offers[k - 1].op.time {
      assert Bound(offers, k - 1) == cur.weight + 1;
      ModIdempotent(t, cur.weight + 1);
    }
  }

  /** The draws for the first `k` children, each reduced to its remainder. */
  ghost function Reduced(offers: Offers, draws: nat -> nat, k: nat): (s: seq<nat>)
    requires k <= |offers|
    ensures |s| == k
  {
    if k == 0 then [] else
      BoundPositive(offers, k - 1);
      Reduced(offers, draws, k - 1) + [draws(k - 1) % Bound(offers, k - 1)]
  }

  // ----- Fairness -----

  /** Draws read from a finite record. */
  function FromRecord(s: seq<nat>): nat -> nat {
    (j: nat) => if j < |s| then s[j] else 0
  }

  /** Every sequence of draws for the first `k` children. */
  ghost function AllDraws(offers: Offers, k: nat): set<seq<nat>>
    requires k <= |offers|
  {
    if k == 0 then {[]} else Extend(AllDraws(offers, k - 1), 0, Bound(offers, k - 1))
  }

  ghost function Extend(xs: set<seq<nat>>, lo: nat, hi: nat): set<seq<nat>> {
    set s, t: nat | s in xs && lo <= t < hi :: s + [t]
  }

  /** The sequences of draws that make child `i` the choice. */
  ghost function Choosing(offers: Offers, k: nat, i: nat): set<seq<nat>>
    requires k <= |offers|
  {
    set s | s in AllDraws(offers, k) && Fold(offers, FromRecord(s), k).idx == i
  }

  lemma ExtendMember(xs: set<seq<nat>>, lo: nat, hi: nat, s: seq<nat>)
    ensures s in Extend(xs, lo, hi) <==> |s| > 0 && s[..|s| - 1] in xs && lo <= s[|s| - 1] < hi
  {
    if |s| > 0 && s[..|s| - 1] in xs && lo <= s[|s| - 1] < hi {
      assert s == s[..|s| - 1] + [s[|s| - 1]];
    }
    if s in Extend(xs, lo, hi) {
      var p, t: nat :| p in xs && lo <= t < hi && s == p + [t];
      assert s[..|s| - 1] == p;
    }
  }

  lemma {:induction false} ExtendOneSize(xs: set<seq<nat>>, t: nat)
    ensures |Extend(xs, t, t + 1)| == |xs|
    decreases |xs|
  {
    if xs == {} {
      assert Extend(xs, t, t + 1) == {};
    } else {
      var x :| x in xs;
      var rest := xs - {x};
      ExtendOneSize(rest, t);
      var extended := Extend(rest, t, t + 1) + {x + [t]};
      forall s | s in Extend(xs, t, t + 1) ensures s in extended {
        ExtendMember(xs, t, t + 1, s);
        ExtendMember(rest, t, t + 1, s);
        assert s == s[..|s| - 1] + [s[|s| - 1]];
      }
      assert Extend(xs, t, t + 1) == extended;
      ExtendMember(rest, t, t + 1, x + [t]);
      assert (x + [t])[..|x|] == x;
    }
  }

  lemma ExtendSplit(xs: set<seq<nat>>, lo: nat, mid: nat, hi: nat)
    requires lo <= mid <= hi
    ensures |Extend(xs, lo, hi)| == |Extend(xs, lo, mid)| + |Extend(xs, mid, hi)|
  {
    forall s
      ensures s in Extend(xs, lo, hi) <==> s in Extend(xs, lo, mid) || s in Extend(xs, mid, hi)
      ensures !(s in Extend(xs, lo, mid) && s in Extend(xs, mid, hi))
    {
      ExtendMember(xs, lo, hi, s);
      ExtendMember(xs, lo, mid, s);
      ExtendMember(xs, mid, hi, s);
    }
    assert Extend(xs, lo, hi) == Extend(xs, lo, mid) + Extend(xs, mid, hi);
    assert Extend(xs, lo, mid) !! Extend(xs, mid, hi);
  }

  lemma {:induction false} ExtendSize(xs: set<seq<nat>>, lo: nat, hi: nat)
    requires lo <= hi
    ensures |Extend(xs, lo, hi)| == |xs| * (hi - lo)
    decreases hi - lo
  {
    if lo == hi {
      assert Extend(xs, lo, hi) == {};
    } else {
      ExtendSize(xs, lo, hi - 1);
      ExtendOneSize(xs, hi - 1);
      ExtendSplit(xs, lo, hi - 1, hi);
      assert |xs| * (hi - lo) == |xs| * (hi - 1 - lo) + |xs|;
    }
  }

  lemma {:induction false} DrawsLength(offers: Offers, k: nat, s: seq<nat>)
    requires k <= |offers| && s in AllDraws(offers, k)
    ensures |s| == k
  {
    if k > 0 {
      ExtendMember(AllDraws(offers, k - 1), 0, Bound(offers, k - 1), s);
      DrawsLength(offers, k - 1, s[..|s| - 1]);
    }
  }

  /** The running candidate depends only on the draws made so far. */
  lemma {:induction false} FoldPrefix(offers: Offers, s: seq<nat>, k: nat)
    requires k <= |s| && k <= |offers|
    ensures Fold(offers, FromRecord(s), k) == Fold(offers, FromRecord(s[..k]), k)
    decreases k
  {
    if k > 0 {
      FoldPrefix(offers, s, k - 1);
      FoldPrefix(offers, s[..k], k - 1);
      assert s[..k][..k - 1] == s[..k - 1];
      assert FromRecord(s)(k - 1) == FromRecord(s[..k])(k - 1);
    }
  }

  /** Whatever is drawn, the choice is the one that the remainders make, and those are among the draws that
      are counted: to count draws below the bounds is to count them all. */
  lemma {:induction false} FoldByRemainder(offers: Offers, draws: nat -> nat, k: nat)
    requires k <= |offers|
    ensures Reduced(offers, draws, k) in AllDraws(offers, k)
    ensures Fold(offers, draws, k) == Fold(offers, FromRecord(Reduced(offers, draws, k)), k)
  {
    if k > 0 {
      hide Soonest, Bound, Tied, Correct;
      var s, last := Reduced(offers, draws, k), k - 1;
      FoldByRemainder(offers, draws, last);
      FoldCorrect(offers, draws, last);
      StepByRemainder(offers, k, Fold(offers, draws, last), draws(last));
      FoldPrefix(offers, s, last);
      assert s[..last] == Reduced(offers, draws, last);
      ExtendMember(AllDraws(offers, last), 0, Bound(offers, last), s);
    }
  }

  /** After the draws `s` for the children before it, draw `t` at child `k - 1` makes `i` the choice. */
  ghost predicate Wins(offers: Offers, k: nat, s: seq<nat>, t: nat, i: nat)
    requires 0 < k <= |offers|
  {
    Step(offers, k, Fold(offers, FromRecord(s), k - 1), t).idx == i
  }

  /** One more child: which draws of the longer sequence choose `i`. */
  lemma ChoosingStep(offers: Offers, k: nat, i: nat, base: set<seq<nat>>, lo: nat, hi: nat)
    requires 0 < k <= |offers| && hi <= Bound(offers, k - 1)
    requires base <= AllDraws(offers, k - 1)
    requires forall s, t: nat | s in AllDraws(offers, k - 1) && t < Bound(offers, k - 1) ::
               Wins(offers, k, s, t, i) <==> s in base && lo <= t < hi
    ensures Choosing(offers, k, i) == Extend(base, lo, hi)
  {
    forall s ensures s in Choosing(offers, k, i) <==> s in Extend(base, lo, hi) {
      ExtendMember(base, lo, hi, s);
      ExtendMember(AllDraws(offers, k - 1), 0, Bound(offers, k - 1), s);
      if s in AllDraws(offers, k) {
        var p := s[..|s| - 1];
        DrawsLength(offers, k - 1, p);
        FoldPrefix(offers, s, k - 1);
        assert Fold(offers, FromRecord(s), k) == Step(offers, k, Fold(offers, FromRecord(p), k - 1), s[k - 1]);
        assert Wins(offers, k, p, s[k - 1], i) <==> s in Choosing(offers, k, i);
      }
    }
  }

  lemma SmallMod(t: nat, w: nat)
    requires t < w
    ensures t % w == t
  {
  }

  lemma SoonestOnTie(m1: Weighted, m2: Weighted, t: nat)
    requires m1.op.Real() && m2.op.Real() && m1.op.time == m2.op.time && m2.weight == 1 && t < m1.weight + 1
    ensures Soonest(m1, m2, t).idx == if t == m1.weight then m2.idx else m1.idx
  {
    SmallMod(t, m1.weight + 1);
  }

  /** With draw `t` in range, the last child becomes the choice exactly when it is tied and
      the draw has its top value; otherwise the choice stays as it was. */
  lemma WinsStep(offers: Offers, k: nat, s: seq<nat>, t: nat)
    requires 0 < k <= |offers| && t < Bound(offers, k - 1) && Tied(offers, k) != {}
    ensures if k - 1 in Tied(offers, k) && t == Bound(offers, k - 1) - 1
            then Wins(offers, k, s, t, k - 1)
            else Step(offers, k, Fold(offers, FromRecord(s), k - 1), t).idx == Fold(offers, FromRecord(s), k - 1).idx
    ensures Fold(offers, FromRecord(s), k - 1).idx < k - 1
  {
    hide Fold;
    var cur := Fold(offers, FromRecord(s), k - 1);
    FoldCorrect(offers, FromRecord(s), k - 1);
    StepWins(offers, k, cur, t);
  }

  lemma StepWins(offers: Offers, k: nat, cur: Weighted, t: nat)
    requires 0 < k <= |offers| && t < Bound(offers, k - 1) && Tied(offers, k) != {}
    requires cur.weight >= 1 && Correct(offers, k - 1, cur)
    ensures Step(offers, k, cur, t).idx == if k - 1 in Tied(offers, k) &&
            t == Bound(offers, k - 1) - 1 then k - 1 else cur.idx
    ensures cur.idx < k - 1
  {
    TiedStep(offers, k, cur);
    if Live(offers, k - 1) && cur.op.Real() && cur.op.time == offers[k - 1].op.time {
      assert Bound(offers, k - 1) == cur.weight + 1;
      SoonestOnTie(cur, Weighted(offers[k - 1].op, 1, k - 1), t);
    } else {
      assert Bound(offers, k - 1) == 1;
    }
  }

  /** Tied children are chosen equally often: of all sequences of draws, each of the `|Tied|`
      children of minimal time is chosen by exactly one `|Tied|`-th. */
  lemma {:induction false} Fair(offers: Offers, k: nat, i: nat)
    requires k <= |offers| && i in Tied(offers, k)
    ensures |Choosing(offers, k, i)| * |Tied(offers, k)| == |AllDraws(offers, k)|
  {
    var last, b := k - 1, Bound(offers, k - 1);
    BoundIsTied(offers, k, i);
    ExtendSize(AllDraws(offers, last), 0, b);
    assert |AllDraws(offers, k)| == |AllDraws(offers, last)| * b;
    if i == last {
      FairNewcomer(offers, k);
    } else {
      Fair(offers, last, i);
      FairIncumbent(offers, k, i);
      var c, w := |Choosing(offers, last, i)|, |Tied(offers, last)|;
      assert last in Tied(offers, k) ==> c * (b - 1) * b == c * w * b;
    }
  }

  /** The last draw ranges over the tied children when the last child is one of them. */
  lemma BoundIsTied(offers: Offers, k: nat, i: nat)
    requires 0 < k <= |offers| && i in Tied(offers, k)
    ensures k - 1 in Tied(offers, k) ==> Bound(offers, k - 1) == |Tied(offers, k)|
    ensures k - 1 !in Tied(offers, k) ==> Bound(offers, k - 1) == 1 && |Tied(offers, k)| == |Tied(offers, k - 1)|
    ensures i != k - 1 ==> i in Tied(offers, k - 1)
    ensures i != k - 1 && k - 1 in Tied(offers, k) ==> |Tied(offers, k)| == |Tied(offers, k - 1)| + 1
  {
    FoldCorrect(offers, FromRecord([]), k - 1);
    TiedStep(offers, k, Fold(offers, FromRecord([]), k - 1));
  }

  /** The last child is chosen by all earlier draws together with the top value of its own draw. */
  lemma FairNewcomer(offers: Offers, k: nat)
    requires 0 < k <= |offers| && k - 1 in Tied(offers, k)
    ensures |Choosing(offers, k, k - 1)| == |AllDraws(offers, k - 1)|
  {
    hide Soonest, Fold, Step, Tied, Choosing, AllDraws, Bound;
    var all, b, last := AllDraws(offers, k - 1), Bound(offers, k - 1), k - 1;
    BoundIsTied(offers, k, last);
    forall s, t: nat | s in all && t < b
      ensures Wins(offers, k, s, t, last) <==> s in all && b - 1 <= t < b
    {
      WinsStep(offers, k, s, t);
    }
    hide Wins;
    ChoosingStep(offers, k, last, all, b - 1, b);
    ExtendOneSize(all, b - 1);
  }

  /** An earlier child stays the choice except for the top value of a tied last draw. */
  lemma FairIncumbent(offers: Offers, k: nat, i: nat)
    requires 0 < k <= |offers| && i in Tied(offers, k) && i < k - 1
    ensures |Choosing(offers, k, i)| ==
            |Choosing(offers, k - 1, i)| * (if k - 1 in Tied(offers, k) then Bound(offers, k - 1) - 1 else 1)
  {
    var all, base, b := AllDraws(offers, k - 1), Choosing(offers, k - 1, i), Bound(offers, k - 1);
    var hi := if k - 1 in Tied(offers, k) then b - 1 else 1;
    forall s, t: nat | s in all && t < b
      ensures Wins(offers, k, s, t, i) <==> s in base && 0 <= t < hi
    {
      WinsStep(offers, k, s, t);
    }
    ChoosingStep(offers, k, i, base, 0, hi);
    ExtendSize(base, 0, hi);
  }

  function Factorial(k: nat): (f: nat)
    ensures f >= 1
  {
    if k == 0 then 1 else
      assert Factorial(k - 1) * k >= 1;
      Factorial(k - 1) * k
  }

  /** Every child is live, and all offer the same time. */
  ghost predicate AllTied(offers: Offers) {
    forall i, j | 0 <= i < |offers| && 0 <= j < |offers| :: Live(offers, i) && offers[i].op.time == offers[j].op.time
  }

  ghost function Below(k: nat): (s: set<nat>)
    ensures |s| == k && forall i: nat :: i in s <==> i < k
  {
    if k == 0 then {} else
      var last: nat := k - 1;
      Below(last) + {last}
  }

  lemma TiedCount(offers: Offers, k: nat)
    requires AllTied(offers) && k <= |offers|
    ensures Tied(offers, k) == Below(k) && |Tied(offers, k)| == k
  {
    forall i: nat ensures i in Tied(offers, k) <==> i < k {
      if i < k {
        assert Live(offers, i);
      }
    }
  }

  lemma BoundCount(offers: Offers, k: nat)
    requires AllTied(offers) && 0 < k <= |offers|
    ensures Bound(offers, k - 1) == k
  {
    hide Tied;
    TiedCount(offers, k);
    assert Live(offers, k - 1);
  }

  lemma {:induction false} DrawsCount(offers: Offers, k: nat)
    requires AllTied(offers) && k <= |offers|
    ensures |AllDraws(offers, k)| == Factorial(k)
  {
    hide AllTied, Bound, Extend;
    if k > 0 {
      DrawsCount(offers, k - 1);
      BoundCount(offers, k);
      ExtendSize(AllDraws(offers, k - 1), 0, Bound(offers, k - 1));
    }
  }

  lemma FactorialStep(k: nat)
    requires k > 0
    ensures Factorial(k) == Factorial(k - 1) * k
  {
  }

  /** Among `k` tied children each is chosen by exactly `(k - 1)!` of the `k!` sequences of draws. */
  lemma FairInNumbers(offers: Offers, i: nat)
    requires AllTied(offers) && i < |offers|
    ensures |AllDraws(offers, |offers|)| == Factorial(|offers|)
    ensures |Choosing(offers, |offers|, i)| == Factorial(|offers| - 1)
  {
    hide *;
    var k := |offers|;
    TiedCount(offers, k);
    DrawsCount(offers, k);
    Fair(offers, k, i);
    FactorialStep(k);
    Cancel(|Choosing(offers, k, i)|, Factorial(k - 1), k);
  }

  lemma {:induction false} Cancel(a: nat, b: nat, k: nat)
    requires a * k == b * k && k > 0
    ensures a == b
  {
    assert (a - b) * k == 0;
  }

  /** A child that is not of minimal time is never chosen while another child is live. */
  lemma NeverChosen(offers: Offers, i: nat)
    requires i < |offers| && i !in Tied(offers, |offers|) && exists j :: Live(offers, j)
    ensures Choosing(offers, |offers|, i) == {}
  {
    forall s | s in AllDraws(offers, |offers|) ensures Fold(offers, FromRecord(s), |offers|).idx != i {
      FoldCorrect(offers, FromRecord(s), |offers|);
    }
  }
}
