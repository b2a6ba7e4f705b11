/** The recorded history: the runner appends an operation when it hands it out and again when it
    comes back (src/jepsen/Runner.cpp, lines 198 and 241). The mark says which. */
module Histories {
  import opened Operations

  datatype Entry = Dispatched(op: Operation) | Completed(op: Operation)

  /** The number of dispatches of the process less the number of its completions. */
  function Open(h: seq<Entry>, process: int): int
    decreases |h|
  {
    if |h| == 0 then 0
    else
      var e := h[|h| - 1];
      Open(h[..|h| - 1], process) + (if e.op.process != process then 0 else if e.Dispatched? then 1 else -1)
  }

  /** In every prefix each process has at most one operation open: its entries alternate. */
  ghost predicate Alternates(h: seq<Entry>) {
    forall k: nat, p: int | k <= |h| :: 0 <= Open(h[..k], p) <= 1
  }

  lemma OpenNext(h: seq<Entry>, e: Entry, p: int)
    ensures Open(h + [e], p) == Open(h, p) + (if e.op.process != p then 0 else if e.Dispatched? then 1 else -1)
  {
    assert (h + [e])[..|h|] == h;
  }

  lemma AlternatesNext(h: seq<Entry>, e: Entry)
    requires Alternates(h)
    requires Open(h, e.op.process) == if e.Dispatched? then 0 else 1
    ensures Alternates(h + [e])
  {
    assert h[..|h|] == h;
    forall k: nat, p: int | k <= |h + [e]| ensures 0 <= Open((h + [e])[..k], p) <= 1 {
      OpenNext(h, e, p);
      if k <= |h| {
        assert (h + [e])[..k] == h[..k];
      } else {
        assert (h + [e])[..k] == h + [e];
      }
      assert 0 <= Open(h[..|h|], p) <= 1;
    }
  }

  /** `j` is the next entry of the process of `i`. */
  ghost predicate NextOf(h: seq<Entry>, i: nat, j: nat) {
    && i < j < |h| && h[i].op.process == h[j].op.process
    && forall m | i < m < j :: h[m].op.process != h[i].op.process
  }

  /** While no entry of the process follows, it stays open. */
  lemma {:induction false} OpenUntil(h: seq<Entry>, i: nat, k: nat)
    requires i < k <= |h| && forall m | i < m < k :: h[m].op.process != h[i].op.process
    ensures Open(h[..k], h[i].op.process) == Open(h[..i + 1], h[i].op.process)
    decreases k
  {
    if k > i + 1 {
      OpenUntil(h, i, k - 1);
      assert h[..k][..k - 1] == h[..k - 1];
    }
  }

  lemma OpenAfter(h: seq<Entry>, i: nat)
    requires Alternates(h) && i < |h|
    ensures Open(h[..i + 1], h[i].op.process) == if h[i].Dispatched? then 1 else 0
  {
    var p := h[i].op.process;
    assert h[..i + 1] == h[..i] + [h[i]];
    OpenNext(h[..i], h[i], p);
    assert 0 <= Open(h[..i], p) <= 1 && 0 <= Open(h[..i + 1], p) <= 1;
  }

  /** A dispatched operation that is not open at the end has exactly one completion: the next entry
      of its process, and that entry is a completion. */
  lemma CompletionOf(h: seq<Entry>, i: nat) returns (j: nat)
    requires Alternates(h) && i < |h| && h[i].Dispatched? && Open(h, h[i].op.process) == 0
    ensures NextOf(h, i, j) && h[j].Completed?
  {
    var p := h[i].op.process;
    OpenAfter(h, i);
    j := i + 1;
    while j < |h| && h[j].op.process != p
      invariant i < j <= |h|
      invariant forall m | i < m < j :: h[m].op.process != p
    {
      j := j + 1;
    }
    OpenUntil(h, i, j);
    assert h[..|h|] == h;
    OpenAfter(h, j);
    assert h[..j + 1] == h[..j] + [h[j]];
    OpenNext(h[..j], h[j], p);
  }

  /** A completion is preceded by its dispatch, with no entry of the process between. */
  lemma {:induction false} DispatchOf(h: seq<Entry>, j: nat) returns (i: nat)
    requires Alternates(h) && j < |h| && h[j].Completed?
    ensures NextOf(h, i, j) && h[i].Dispatched?
  {
    var p := h[j].op.process;
    assert h[..j + 1] == h[..j] + [h[j]];
    OpenNext(h[..j], h[j], p);
    assert 0 <= Open(h[..j + 1], p) <= 1 && 0 <= Open(h[..j], p) <= 1;
    i := LastOf(h, j, p);
    OpenAfter(h, i);
    OpenUntil(h, i, j);
  }

  lemma {:induction false} LastOf(h: seq<Entry>, k: nat, p: int) returns (i: nat)
    requires k <= |h| && Open(h[..k], p) == 1
    ensures i < k && h[i].op.process == p && forall m | i < m < k :: h[m].op.process != p
    decreases k
  {
    assert k > 0;
    if h[k - 1].op.process == p {
      i := k - 1;
    } else {
      assert h[..k][..k - 1] == h[..k - 1];
      i := LastOf(h, k - 1, p);
    }
  }

  /** A client process that crashed: its operation came back with :info. */
  predicate Crash(e: Entry) {
    e.Completed? && e.op.kind.Info? && e.op.process != NEMESIS
  }

  /** A crashed process is never given an operation again. */
  ghost predicate NoReuse(h: seq<Entry>) {
    forall i, j | 0 <= i < j < |h| && Crash(h[i]) && h[j].Dispatched? :: h[i].op.process != h[j].op.process
  }

  /** Times never decrease. */
  ghost predicate Ordered(h: seq<Entry>) {
    forall i, j | 0 <= i < j < |h| :: h[i].op.time <= h[j].op.time
  }

  /** The requests handed out, in order. */
  function Sent(h: seq<Entry>): seq<Request>
    decreases |h|
  {
    if |h| == 0 then []
    else
      var e := h[|h| - 1];
      Sent(h[..|h| - 1]) + (if e.Dispatched? then [e.op.AsIs()] else [])
  }

  lemma SentNext(h: seq<Entry>, e: Entry)
    ensures Sent(h + [e]) == Sent(h) + (if e.Dispatched? then [e.op.AsIs()] else [])
  {
    assert (h + [e])[..|h|] == h;
  }
}
