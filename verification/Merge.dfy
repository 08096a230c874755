/**
 * The k-way merge over a hand-written heap and its bounded fan-in form
 * (src/flush/merge.rs). A source is the sequence of records it has left; its
 * head is read only while it is non-empty.
 */
module Merge {
  import opened Bytes
  import opened Arrivals
  import opened Decimal
  import opened RunFile

  // ---- the heap of source indices -------------------------------------------

  /** Every index in the heap names a source that still has a head. */
  predicate Live(h: seq<nat>, rest: seq<seq<Entry>>) {
    forall k :: 0 <= k < |h| ==> h[k] < |rest| && rest[h[k]] != []
  }

  predicate LessHead(rest: seq<seq<Entry>>, a: nat, b: nat)
    requires a < |rest| && rest[a] != [] && b < |rest| && rest[b] != []
  {
    Before(rest[a][0], rest[b][0])
  }

  /** Node `p` is no greater than either child. */
  predicate ParentOk(h: seq<nat>, rest: seq<seq<Entry>>, p: nat)
    requires Live(h, rest) && p < |h|
  {
    && (2 * p + 1 < |h| ==> !LessHead(rest, h[2 * p + 1], h[p]))
    && (2 * p + 2 < |h| ==> !LessHead(rest, h[2 * p + 2], h[p]))
  }

  predicate HeapFrom(h: seq<nat>, rest: seq<seq<Entry>>, lo: nat)
    requires Live(h, rest)
  {
    forall p :: lo <= p < |h| ==> ParentOk(h, rest, p)
  }

  /** The children of `i` are no less than node `p`. */
  predicate BridgeOk(h: seq<nat>, rest: seq<seq<Entry>>, p: nat, i: nat)
    requires Live(h, rest) && p < |h|
  {
    && (2 * i + 1 < |h| ==> !LessHead(rest, h[2 * i + 1], h[p]))
    && (2 * i + 2 < |h| ==> !LessHead(rest, h[2 * i + 2], h[p]))
  }

  /** A heap from `lo` on except at `i`, whose children are no less than its parent. */
  predicate HeapButFor(h: seq<nat>, rest: seq<seq<Entry>>, lo: nat, i: nat)
    requires Live(h, rest) && i < |h|
  {
    && (forall p :: lo <= p < |h| && p != i ==> ParentOk(h, rest, p))
    && (forall p :: lo <= p < |h| && (2 * p + 1 == i || 2 * p + 2 == i) ==> BridgeOk(h, rest, p, i))
  }

  function Swapped(h: seq<nat>, i: nat, j: nat): (r: seq<nat>)
    requires i < |h| && j < |h|
    ensures |r| == |h|
    ensures multiset(r) == multiset(h)
  {
    var r := h[i := h[j]][j := h[i]];
    assert multiset(r) == multiset(h);
    r
  }

  /** The smaller child moves up: the hole moves down and nothing else breaks. */
  lemma SwapDown(h: seq<nat>, rest: seq<seq<Entry>>, lo: nat, i: nat, m: nat)
    requires Live(h, rest) && lo <= i < |h| && m < |h| && (m == 2 * i + 1 || m == 2 * i + 2)
    requires HeapButFor(h, rest, lo, i)
    requires LessHead(rest, h[m], h[i])
    requires forall c :: (c == 2 * i + 1 || c == 2 * i + 2) && c < |h| ==> !LessHead(rest, h[c], h[m])
    ensures Live(Swapped(h, i, m), rest) && HeapButFor(Swapped(h, i, m), rest, lo, m)
  {
    BeforeOrder();
    hide Before;
    var g := Swapped(h, i, m);
    forall p | lo <= p < |g| && p != m ensures ParentOk(g, rest, p) {
      if p != i {
        assert ParentOk(h, rest, p);
        if 2 * p + 1 == i || 2 * p + 2 == i { assert BridgeOk(h, rest, p, i); }
      }
    }
    assert ParentOk(h, rest, m);
    forall p | lo <= p < |g| && (2 * p + 1 == m || 2 * p + 2 == m) ensures BridgeOk(g, rest, p, m) {
      assert p == i;
    }
  }

  method SiftDown(heap: array<nat>, n: nat, start: nat, rest: seq<seq<Entry>>, ghost lo: nat)
    requires n <= heap.Length && Live(heap[..n], rest)
    requires lo <= start && (start < n ==> HeapButFor(heap[..n], rest, lo, start))
    requires start >= n ==> HeapFrom(heap[..n], rest, lo)
    modifies heap
    ensures Live(heap[..n], rest) && HeapFrom(heap[..n], rest, lo)
    ensures multiset(heap[..n]) == multiset(old(heap[..n])) && heap[n..] == old(heap[n..])
  {
    hide HeapButFor, HeapFrom, ParentOk, LessHead, Before, Swapped;
    var i := start;
    while true
      invariant lo <= i && Live(heap[..n], rest)
      invariant i < n ==> HeapButFor(heap[..n], rest, lo, i)
      invariant i >= n ==> HeapFrom(heap[..n], rest, lo)
      invariant multiset(heap[..n]) == multiset(old(heap[..n])) && heap[n..] == old(heap[n..])
      decreases heap.Length - i
    {
      var min := LeastChild(heap, n, i, rest);
      ghost var before := heap[..n];
      if min == i {
        if i < n { Settled(before, rest, lo, i); }
        return;
      }
      SwapDown(before, rest, lo, i, min);
      SwapAt(heap, n, i, min);
      i := min;
    }
  }

  /** The least of a node and its children, by the two comparisons the source makes. */
  method LeastChild(heap: array<nat>, n: nat, i: nat, rest: seq<seq<Entry>>) returns (min: nat)
    requires n <= heap.Length && Live(heap[..n], rest)
    ensures i <= min && (min == i || min == 2 * i + 1 || min == 2 * i + 2)
    ensures min == i && i < n ==> ParentOk(heap[..n], rest, i)
    ensures min != i ==> min < n && LessHead(rest, heap[..n][min], heap[..n][i])
    ensures min != i ==> forall c :: (c == 2 * i + 1 || c == 2 * i + 2) && c < n ==>
              !LessHead(rest, heap[..n][c], heap[..n][min])
  {
    hide LessHead, Before;
    ghost var h := heap[..n];
    var l, r := 2 * i + 1, 2 * i + 2;
    min := i;
    if l < n {
      assert h[l] == heap[l] && h[i] == heap[i];
      if LessHead(rest, heap[l], heap[min]) { min := l; }
    }
    if r < n {
      assert h[r] == heap[r] && h[min] == heap[min];
      if LessHead(rest, heap[r], heap[min]) { min := r; }
    }
    if min != i { SmallerChild(h, rest, i, min); }
  }

  method SwapAt(heap: array<nat>, n: nat, i: nat, j: nat)
    requires n <= heap.Length && i < n && j < n
    modifies heap
    ensures heap[..n] == Swapped(old(heap[..n]), i, j) && heap[n..] == old(heap[n..])
  {
    heap[i], heap[j] := heap[j], heap[i];
  }

  lemma Settled(h: seq<nat>, rest: seq<seq<Entry>>, lo: nat, i: nat)
    requires Live(h, rest) && i < |h| && HeapButFor(h, rest, lo, i) && ParentOk(h, rest, i)
    ensures HeapFrom(h, rest, lo)
  {
  }

  /** The child picked by the two comparisons is below its parent and no greater than its sibling. */
  lemma SmallerChild(h: seq<nat>, rest: seq<seq<Entry>>, i: nat, m: nat)
    requires Live(h, rest) && i < m < |h| && (m == 2 * i + 1 || m == 2 * i + 2)
    requires m == 2 * i + 1 ==> LessHead(rest, h[m], h[i]) && (2 * i + 2 < |h| ==> !LessHead(rest, h[2 * i + 2], h[m]))
    requires m == 2 * i + 2 ==> LessHead(rest, h[m], if LessHead(rest, h[2 * i + 1], h[i]) then h[2 * i + 1] else h[i])
    ensures LessHead(rest, h[m], h[i])
    ensures forall c :: (c == 2 * i + 1 || c == 2 * i + 2) && c < |h| ==> !LessHead(rest, h[c], h[m])
  {
    BeforeOrder();
    hide Before;
  }

  /** The root of a heap has the least head. */
  lemma {:induction false} RootIsLeast(h: seq<nat>, rest: seq<seq<Entry>>, j: nat)
    requires Live(h, rest) && HeapFrom(h, rest, 0) && j < |h|
    ensures !LessHead(rest, h[j], h[0])
    decreases j
  {
    BeforeOrder();
    hide Before;
    if j > 0 {
      var p := (j - 1) / 2;
      RootIsLeast(h, rest, p);
      assert ParentOk(h, rest, p);
      assert j == 2 * p + 1 || j == 2 * p + 2;
    }
  }

  /** The heap holds each source that has records left, once, and no other. */
  predicate Once(h: seq<nat>, rest: seq<seq<Entry>>) {
    forall i :: 0 <= i < |rest| ==> multiset(h)[i] == if rest[i] != [] then 1 else 0
  }

  ghost predicate HeapInv(h: seq<nat>, rest: seq<seq<Entry>>) {
    Live(h, rest) && HeapFrom(h, rest, 0) && Once(h, rest)
  }

  // ---- what is left and what has been popped -----------------------------------

  function All(rest: seq<seq<Entry>>): set<Entry> {
    set i, e | 0 <= i < |rest| && e in rest[i] :: e
  }

  function Count(rest: seq<seq<Entry>>): nat {
    if rest == [] then 0 else |rest[0]| + Count(rest[1..])
  }

  predicate AllSorted(rest: seq<seq<Entry>>) { forall i :: 0 <= i < |rest| ==> Sorted(rest[i]) }

  /** `popped` and `rest` split the sources' records, everything popped no later than what is left. */
  ghost predicate Splits(all: set<Entry>, total: nat, popped: seq<Entry>, rest: seq<seq<Entry>>) {
    && AllSorted(rest) && Sorted(popped)
    && Elements(popped) + All(rest) == all
    && (forall e, f :: e in Elements(popped) && f in All(rest) ==> !Before(f, e))
    && |popped| + Count(rest) == total
  }

  lemma {:induction false} CountAdvance(rest: seq<seq<Entry>>, i: nat)
    requires i < |rest| && rest[i] != []
    ensures Count(rest[i := rest[i][1..]]) == Count(rest) - 1
  {
    var next := rest[i := rest[i][1..]];
    if i == 0 {
      assert next[1..] == rest[1..];
    } else {
      CountAdvance(rest[1..], i - 1);
      assert next[1..] == rest[1..][i - 1 := rest[i][1..]];
    }
  }

  lemma {:induction false} CountZero(rest: seq<seq<Entry>>)
    requires forall i :: 0 <= i < |rest| ==> rest[i] == []
    ensures Count(rest) == 0 && All(rest) == {}
  {
    if rest != [] { CountZero(rest[1..]); }
  }

  lemma AllAdvance(rest: seq<seq<Entry>>, i: nat)
    requires i < |rest| && rest[i] != []
    ensures All(rest) == All(rest[i := rest[i][1..]]) + {rest[i][0]}
  {
    var next := rest[i := rest[i][1..]];
    assert rest[i] == [rest[i][0]] + rest[i][1..];
    forall e | e in All(rest) ensures e in All(next) + {rest[i][0]} {
      var k :| 0 <= k < |rest| && e in rest[k];
      if k != i { assert e in next[k]; } else { assert e == rest[i][0] || e in next[i]; }
    }
    forall e | e in All(next) ensures e in All(rest) {
      var k :| 0 <= k < |next| && e in next[k];
      assert e in rest[k];
    }
    assert rest[i][0] in rest[i];
  }

  /** Popping a least head keeps the split. */
  lemma SplitStep(all: set<Entry>, total: nat, popped: seq<Entry>, rest: seq<seq<Entry>>, i: nat)
    requires Splits(all, total, popped, rest) && i < |rest| && rest[i] != []
    requires forall f :: f in All(rest) ==> !Before(f, rest[i][0])
    ensures Splits(all, total, popped + [rest[i][0]], rest[i := rest[i][1..]])
  {
    hide Before;
    var head, next := rest[i][0], rest[i := rest[i][1..]];
    AllAdvance(rest, i);
    CountAdvance(rest, i);
    ElementsOfLast(popped, head);
    hide All, Count, Elements;
    SortedTail(rest[i]);
    SortedLast(popped, head, All(rest));
  }

  lemma SortedTail(s: seq<Entry>)
    requires Sorted(s) && s != []
    ensures Sorted(s[1..])
  {
    hide Before;
  }

  lemma SortedLast(popped: seq<Entry>, head: Entry, left: set<Entry>)
    requires Sorted(popped) && head in left
    requires forall e, f :: e in Elements(popped) && f in left ==> !Before(f, e)
    ensures Sorted(popped + [head])
  {
    hide Before;
    var s := popped + [head];
    forall i, j | 0 <= i < j < |s| ensures !Before(s[j], s[i]) {
      if j == |popped| { assert s[i] in Elements(popped); }
    }
  }

  /** The head at the root of the heap is least among all records left. */
  lemma RootIsLeastRecord(h: seq<nat>, rest: seq<seq<Entry>>)
    requires HeapInv(h, rest) && AllSorted(rest) && h != []
    ensures forall f :: f in All(rest) ==> !Before(f, rest[h[0]][0])
  {
    BeforeOrder();
    hide Before, HeapFrom;
    forall f | f in All(rest) ensures !Before(f, rest[h[0]][0]) {
      var i :| 0 <= i < |rest| && f in rest[i];
      assert multiset(h)[i] == 1;
      assert i in h;
      var j :| 0 <= j < |h| && h[j] == i;
      RootIsLeast(h, rest, j);
      var k :| 0 <= k < |rest[i]| && rest[i][k] == f;
      assert k == 0 || !Before(rest[i][k], rest[i][0]);
    }
  }

  /** A heap whose nodes below the root, and their heads, are kept is a heap but for the root. */
  lemma BelowRootKept(h: seq<nat>, rest: seq<seq<Entry>>, g: seq<nat>, next: seq<seq<Entry>>)
    requires Live(h, rest) && HeapFrom(h, rest, 0) && Live(g, next) && 0 < |g| <= |h|
    requires forall k :: 0 < k < |g| ==> g[k] == h[k] && next[g[k]] == rest[g[k]]
    ensures HeapButFor(g, next, 0, 0)
  {
    hide Before;
    forall p | 0 < p < |g| ensures ParentOk(g, next, p) { assert ParentOk(h, rest, p); }
  }

  /** Advancing the root's source disturbs only the root. */
  lemma AdvanceRoot(h: seq<nat>, rest: seq<seq<Entry>>)
    requires HeapInv(h, rest) && h != [] && |rest[h[0]]| > 1
    ensures var next := rest[h[0] := rest[h[0]][1..]];
            Live(h, next) && HeapButFor(h, next, 0, 0) && Once(h, next)
  {
    hide HeapFrom, HeapButFor;
    RootIsAlone(h, rest);
    BelowRootKept(h, rest, h, rest[h[0] := rest[h[0]][1..]]);
  }

  /** The root's source occurs nowhere else in the heap. */
  lemma RootIsAlone(h: seq<nat>, rest: seq<seq<Entry>>)
    requires Live(h, rest) && Once(h, rest) && h != []
    ensures forall k :: 0 < k < |h| ==> h[k] != h[0]
  {
    assert h == [h[0]] + h[1..];
    assert multiset(h)[h[0]] == 1;
    assert multiset(h) == multiset{h[0]} + multiset(h[1..]);
    assert h[0] !in multiset(h[1..]);
    forall k | 0 < k < |h| ensures h[k] != h[0] { assert h[k] == h[1..][k - 1]; assert h[k] in h[1..]; }
  }

  /** Removing an exhausted root: the last index takes its place. */
  lemma RemoveRoot(h: seq<nat>, rest: seq<seq<Entry>>)
    requires HeapInv(h, rest) && h != [] && |rest[h[0]]| == 1
    ensures var next := rest[h[0] := []];
            var g := Swapped(h, 0, |h| - 1)[..|h| - 1];
            Live(g, next) && (g != [] ==> HeapButFor(g, next, 0, 0)) && Once(g, next)
  {
    hide HeapFrom, HeapButFor;
    var end, next := |h| - 1, rest[h[0] := []];
    var g := Swapped(h, 0, end)[..end];
    RemoveRootOnce(h, rest);
    RootIsAlone(h, rest);
    hide Once;
    assert forall k :: 0 <= k < |g| ==> g[k] == (if k == 0 then h[end] else h[k]) && g[k] != h[0];
    if g != [] { BelowRootKept(h, rest, g, next); }
  }

  lemma RemoveRootOnce(h: seq<nat>, rest: seq<seq<Entry>>)
    requires Once(h, rest) && h != [] && h[0] < |rest| && |rest[h[0]]| == 1
    ensures Once(Swapped(h, 0, |h| - 1)[..|h| - 1], rest[h[0] := []])
  {
    var top, end := h[0], |h| - 1;
    var s := Swapped(h, 0, end);
    assert s == s[..end] + [top];
    assert multiset(s) == multiset(s[..end]) + multiset{top};
  }

  datatype Stats = Stats(emitted: nat, deduplicated: nat)

  /** The heap over all sources, built by sifting every inner node from the last up. */
  method BuildHeap(sources: seq<seq<Entry>>) returns (heap: array<nat>)
    requires forall i :: 0 <= i < |sources| ==> sources[i] != []
    ensures fresh(heap) && heap.Length == |sources| && HeapInv(heap[..], sources)
  {
    hide Before, HeapButFor;
    var n := |sources|;
    heap := new nat[n](i => i);
    IdentityOnce(heap[..], sources);
    ghost var initial := heap[..];
    var i := n / 2;
    assert HeapFrom(heap[..n], sources, i);
    while i > 0
      invariant 0 <= i <= n / 2
      invariant heap[..n] == heap[..] && Live(heap[..n], sources) && HeapFrom(heap[..n], sources, i)
      invariant multiset(heap[..n]) == multiset(initial)
    {
      i := i - 1;
      OpenAt(heap[..n], sources, i);
      SiftDown(heap, n, i, sources, i);
    }
  }

  lemma IdentityOnce(h: seq<nat>, sources: seq<seq<Entry>>)
    requires |h| == |sources| && forall i :: 0 <= i < |h| ==> h[i] == i
    requires forall i :: 0 <= i < |sources| ==> sources[i] != []
    ensures Live(h, sources) && Once(h, sources)
  {
    forall i | 0 <= i < |sources| ensures multiset(h)[i] == 1 {
      assert h == h[..i] + [i] + h[i + 1..];
      assert i !in h[..i] && i !in h[i + 1..];
    }
  }

  lemma OpenAt(h: seq<nat>, rest: seq<seq<Entry>>, i: nat)
    requires Live(h, rest) && i < |h| && HeapFrom(h, rest, i + 1)
    ensures HeapButFor(h, rest, i, i)
  {
    hide Before;
  }

  /**
   * Stream sorted sources in `(ts, id, arrival)` order, keeping the first arrival
   * of each `(ts, id)`.
   */
  method MergeSources(sources: seq<seq<Entry>>, ghost most: nat) returns (out: seq<Entry>, stats: Stats)
    requires |sources| <= most
    requires forall i :: 0 <= i < |sources| ==> sources[i] != []
    requires AllSorted(sources) && Distinct(All(sources))
    ensures IsStreamOf(out, All(sources))
    ensures stats.emitted == |out| && stats.emitted + stats.deduplicated == Count(sources)
  {
    hide Before, HeapInv, Splits, HeapFrom, HeapButFor, Count, All, DropRepeats, Sorted, Distinct, AllSorted,
      IsStreamOf;
    var heap := BuildHeap(sources);
    var n: nat, rest := heap.Length, sources;
    var emitted, deduplicated := 0, 0;
    var last: Option<(u64, Text)> := None;
    ghost var popped: seq<Entry> := [];
    out := [];
    SplitsStart(sources);
    assert heap[..n] == heap[..];
    while n > 0
      invariant n <= heap.Length && HeapInv(heap[..n], rest)
      invariant Splits(All(sources), Count(sources), popped, rest)
      invariant out == DropRepeats(popped)
      invariant emitted == |out| && emitted + deduplicated == |popped|
      invariant last == if popped == [] then None else Some((popped[|popped| - 1].ts, popped[|popped| - 1].id))
      decreases Count(rest)
    {
      ghost var h := heap[..n];
      Pop(h, rest, All(sources), Count(sources), popped);
      var top := heap[0];
      assert h[0] == top;
      var head := rest[top][0];
      DropRepeatsStep(popped, head);
      if last == Some((head.ts, head.id)) {
        deduplicated := deduplicated + 1;
      } else {
        out, emitted, last := out + [head], emitted + 1, Some((head.ts, head.id));
      }
      popped := popped + [head];
      n, rest := Advance(heap, n, rest);
    }
    Drained(heap[..n], rest, All(sources), Count(sources), popped);
    stats := Stats(emitted, deduplicated);
  }

  /** Popping the root's head moves it from what is left to what is popped. */
  lemma Pop(h: seq<nat>, rest: seq<seq<Entry>>, all: set<Entry>, total: nat, popped: seq<Entry>)
    requires HeapInv(h, rest) && Splits(all, total, popped, rest) && h != []
    ensures h[0] < |rest| && rest[h[0]] != []
    ensures var next := rest[h[0] := rest[h[0]][1..]];
            Splits(all, total, popped + [rest[h[0]][0]], next) && Count(next) < Count(rest)
  {
    hide HeapFrom, Sorted, AllSorted, Before, All, Count;
    RootIsLeastRecord(h, rest);
    hide Once;
    SplitStep(all, total, popped, rest, h[0]);
    CountAdvance(rest, h[0]);
  }

  lemma Drained(h: seq<nat>, rest: seq<seq<Entry>>, all: set<Entry>, total: nat, popped: seq<Entry>)
    requires HeapInv(h, rest) && h == [] && Splits(all, total, popped, rest) && Distinct(all)
    ensures IsStreamOf(DropRepeats(popped), all) && |popped| == total
  {
    hide HeapFrom, Sorted, Distinct, IsStreamOf, DropRepeats;
    DrainedSources(h, rest);
    StreamOfPopped(all, total, popped, rest);
  }

  /** Move the root's source on, dropping it from the heap once exhausted, and restore the heap. */
  method Advance(heap: array<nat>, n: nat, rest: seq<seq<Entry>>) returns (m: nat, next: seq<seq<Entry>>)
    requires 0 < n <= heap.Length && HeapInv(heap[..n], rest)
    modifies heap
    ensures m <= n && next == rest[old(heap[0]) := rest[old(heap[0])][1..]]
    ensures HeapInv(heap[..m], next)
  {
    hide Before, HeapFrom, HeapButFor, ParentOk, Once, Swapped;
    ghost var h := heap[..n];
    var top := heap[0];
    assert h[0] == top;
    m, next := n, rest[top := rest[top][1..]];
    if next[top] == [] {
      RemoveRoot(h, rest);
      assert rest[top][1..] == [];
      SwapAt(heap, n, 0, n - 1);
      m := n - 1;
      assert heap[..m] == heap[..n][..m];
    } else {
      AdvanceRoot(h, rest);
    }
    ghost var ready := heap[..m];
    if m == 0 { EmptyHeap(ready, next); }
    SiftDown(heap, m, 0, next, 0);
    OncePermuted(ready, heap[..m], next);
  }

  lemma OncePermuted(h: seq<nat>, g: seq<nat>, rest: seq<seq<Entry>>)
    requires Once(h, rest) && multiset(h) == multiset(g)
    ensures Once(g, rest)
  {
  }

  lemma EmptyHeap(h: seq<nat>, rest: seq<seq<Entry>>)
    requires h == [] && Live(h, rest)
    ensures HeapFrom(h, rest, 0)
  {
  }

  lemma SplitsStart(sources: seq<seq<Entry>>)
    requires AllSorted(sources)
    ensures Splits(All(sources), Count(sources), [], sources)
    ensures DropRepeats([]) == []
  {
  }

  lemma DropRepeatsStep(popped: seq<Entry>, head: Entry)
    ensures DropRepeats(popped + [head])
         == if popped != [] && SameKey(head, popped[|popped| - 1]) then DropRepeats(popped)
            else DropRepeats(popped) + [head]
  {
    var s := popped + [head];
    assert s[..|s| - 1] == popped;
  }

  lemma DrainedSources(h: seq<nat>, rest: seq<seq<Entry>>)
    requires h == [] && Once(h, rest)
    ensures Count(rest) == 0 && All(rest) == {}
  {
    CountZero(rest);
  }

  lemma StreamOfPopped(all: set<Entry>, total: nat, popped: seq<Entry>, rest: seq<seq<Entry>>)
    requires Splits(all, total, popped, rest) && All(rest) == {} && Distinct(all)
    ensures IsStreamOf(DropRepeats(popped), all)
  {
    assert Elements(popped) == all;
    DropRepeatsIsStream(popped);
  }

  // ---- bounded fan-in -------------------------------------------------------------

  lemma AllConcat(a: seq<seq<Entry>>, b: seq<seq<Entry>>)
    ensures All(a + b) == All(a) + All(b)
  {
    forall e | e in All(a) + All(b) ensures e in All(a + b) {
      if e in All(a) {
        var i :| 0 <= i < |a| && e in a[i];
        assert (a + b)[i] == a[i];
      } else {
        var i :| 0 <= i < |b| && e in b[i];
        assert (a + b)[|a| + i] == b[i];
      }
    }
  }

  lemma {:induction false} CountConcat(a: seq<seq<Entry>>, b: seq<seq<Entry>>)
    ensures Count(a + b) == Count(a) + Count(b)
  {
    if a == [] {
      assert a + b == b;
    } else {
      assert (a + b)[1..] == a[1..] + b;
      CountConcat(a[1..], b);
    }
  }

  lemma AllOne(r: seq<Entry>)
    ensures All([r]) == Elements(r) && Count([r]) == |r|
  {
    forall e | e in Elements(r) ensures e in All([r]) { assert e in [r][0]; }
    assert [r][1..] == [];
  }

  lemma RemoveMiddle(b: seq<seq<Entry>>, j: nat)
    requires j < |b|
    ensures var c := b[..j] + b[j + 1..];
            All(b) == All([b[j]]) + All(c) && Count(b) == Count([b[j]]) + Count(c)
            && (AllSorted(b) <==> Sorted(b[j]) && AllSorted(c))
  {
    hide Sorted;
    assert b == b[..j] + ([b[j]] + b[j + 1..]);
    AllConcat(b[..j], [b[j]] + b[j + 1..]);
    AllConcat([b[j]], b[j + 1..]);
    AllConcat(b[..j], b[j + 1..]);
    CountConcat(b[..j], [b[j]] + b[j + 1..]);
    CountConcat([b[j]], b[j + 1..]);
    CountConcat(b[..j], b[j + 1..]);
    AllSortedConcat(b[..j], [b[j]] + b[j + 1..]);
    AllSortedConcat([b[j]], b[j + 1..]);
    AllSortedConcat(b[..j], b[j + 1..]);
  }

  lemma AllSortedConcat(a: seq<seq<Entry>>, b: seq<seq<Entry>>)
    ensures AllSorted(a + b) <==> AllSorted(a) && AllSorted(b)
  {
    hide Sorted;
    if AllSorted(a + b) {
      forall i | 0 <= i < |a| ensures Sorted(a[i]) { assert (a + b)[i] == a[i]; }
      forall i | 0 <= i < |b| ensures Sorted(b[i]) { assert (a + b)[|a| + i] == b[i]; }
    }
  }

  predicate BySize(files: seq<seq<byte>>, size: seq<byte> -> nat) {
    forall i, j :: 0 <= i < j < |files| ==> size(files[i]) <= size(files[j])
  }

  method InsertBySize(files: seq<seq<byte>>, file: seq<byte>, size: seq<byte> -> nat,
                      ghost runs: seq<seq<Entry>>, ghost run: seq<Entry>)
    returns (r: seq<seq<byte>>, ghost rr: seq<seq<Entry>>)
    requires BySize(files, size) && Filed(files, runs) && Filed([file], [run])
    ensures BySize(r, size) && Filed(r, rr)
    ensures multiset(rr) == multiset(runs) + multiset{run}
    ensures All(rr) == All(runs) + Elements(run) && Count(rr) == Count(runs) + |run|
    ensures |rr| == |runs| + 1 && (AllSorted(rr) <==> AllSorted(runs) && Sorted(run))
  {
    hide All, Count, AllSorted, Elements, Sorted, BySize, Filed;
    var at := 0;
    while at < |files| && size(files[at]) <= size(file)
      invariant 0 <= at <= |files|
      invariant forall i :: 0 <= i < at ==> size(files[i]) <= size(file)
    {
      at := at + 1;
    }
    SameCount(files, runs);
    r, rr := files[..at] + [file] + files[at..], runs[..at] + [run] + runs[at..];
    InsertedBySize(files, file, at, size);
    InsertedFiled(files, file, runs, run, at);
    assert rr[at] == run && rr[..at] + rr[at + 1..] == runs;
    RemoveMiddle(rr, at);
    AllOne(run);
  }

  lemma SameCount(files: seq<seq<byte>>, runs: seq<seq<Entry>>)
    requires Filed(files, runs)
    ensures |files| == |runs|
  {
  }

  lemma InsertedBySize(files: seq<seq<byte>>, file: seq<byte>, at: nat, size: seq<byte> -> nat)
    requires BySize(files, size) && at <= |files| && (forall i :: 0 <= i < at ==> size(files[i]) <= size(file))
    requires at < |files| ==> size(file) < size(files[at])
    ensures BySize(files[..at] + [file] + files[at..], size)
  {
  }

  lemma InsertedFiled(files: seq<seq<byte>>, file: seq<byte>, runs: seq<seq<Entry>>, run: seq<Entry>, at: nat)
    requires Filed(files, runs) && Filed([file], [run]) && at <= |files|
    ensures Filed(files[..at] + [file] + files[at..], runs[..at] + [run] + runs[at..])
    ensures multiset(runs[..at] + [run] + runs[at..]) == multiset(runs) + multiset{run}
  {
    hide AllWritable, PutRun;
    assert [file][0] == PutRun([run][0]) && AllWritable([run][0]);
    assert runs == runs[..at] + runs[at..];
  }

  /** Smallest first by file size; sizes come from metadata that may be missing, so `size` is arbitrary. */
  method OrderBySize(files: seq<seq<byte>>, size: seq<byte> -> nat, ghost runs: seq<seq<Entry>>)
    returns (r: seq<seq<byte>>, ghost rr: seq<seq<Entry>>)
    requires Filed(files, runs)
    ensures BySize(r, size) && Filed(r, rr) && multiset(rr) == multiset(runs)
    ensures |rr| == |runs| && All(rr) == All(runs) && Count(rr) == Count(runs)
    ensures AllSorted(rr) <==> AllSorted(runs)
  {
    hide All, Count, AllSorted, Elements, Sorted, BySize, Filed;
    SameCount(files, runs);
    r, rr := [], [];
    NoRuns(size);
    assert runs[..0] == [];
    for n := 0 to |files|
      invariant multiset(rr) == multiset(runs[..n]) && BySize(r, size) && Filed(r, rr)
      invariant |rr| == n && All(rr) == All(runs[..n]) && Count(rr) == Count(runs[..n])
      invariant AllSorted(rr) <==> AllSorted(runs[..n])
    {
      assert runs[..n + 1] == runs[..n] + [runs[n]];
      AllConcat(runs[..n], [runs[n]]);
      CountConcat(runs[..n], [runs[n]]);
      AllSortedConcat(runs[..n], [runs[n]]);
      AllOne(runs[n]);
      SortedOne(runs[n]);
      FiledAt(files, runs, n);
      r, rr := InsertBySize(r, files[n], size, rr, runs[n]);
    }
    assert runs[..|files|] == runs;
  }

  lemma NoRuns(size: seq<byte> -> nat)
    ensures BySize([], size) && AllSorted([]) && Filed([], [])
  {
  }

  lemma FiledAt(files: seq<seq<byte>>, runs: seq<seq<Entry>>, n: nat)
    requires Filed(files, runs) && n < |files|
    ensures Filed([files[n]], [runs[n]]) && files[n] == PutRun(runs[n]) && AllWritable(runs[n])
  {
    hide AllWritable, PutRun;
  }

  lemma FiledSplit(files: seq<seq<byte>>, runs: seq<seq<Entry>>, n: nat)
    requires Filed(files, runs) && n <= |files|
    ensures Filed(files[..n], runs[..n]) && Filed(files[n..], runs[n..])
  {
    hide AllWritable, PutRun;
  }

  lemma FiledLast(files: seq<seq<byte>>, runs: seq<seq<Entry>>, file: seq<byte>, run: seq<Entry>)
    requires Filed(files, runs) && file == PutRun(run) && AllWritable(run)
    ensures Filed(files + [file], runs + [run])
  {
    hide AllWritable, PutRun;
  }

  /** `open_runs`: an empty run file opens to no source. */
  function OpenRuns(runs: seq<seq<Entry>>): (r: seq<seq<Entry>>)
    ensures |r| <= |runs|
    ensures forall i :: 0 <= i < |r| ==> r[i] != []
  {
    if runs == [] then []
    else if runs[0] == [] then OpenRuns(runs[1..])
    else [runs[0]] + OpenRuns(runs[1..])
  }

  lemma {:induction false} OpenRunsKeeps(runs: seq<seq<Entry>>)
    ensures All(OpenRuns(runs)) == All(runs) && Count(OpenRuns(runs)) == Count(runs)
    ensures AllSorted(runs) ==> AllSorted(OpenRuns(runs))
  {
    hide Sorted;
    if runs != [] {
      OpenRunsKeeps(runs[1..]);
      assert runs == [runs[0]] + runs[1..];
      AllConcat([runs[0]], runs[1..]);
      AllOne(runs[0]);
      AllConcat([runs[0]], OpenRuns(runs[1..]));
      AllSortedConcat([runs[0]], runs[1..]);
      AllSortedConcat([runs[0]], OpenRuns(runs[1..]));
    }
  }

  /** Open the run files, reading each back; an empty one is no source. */
  method OpenFiles(files: seq<seq<byte>>, ghost runs: seq<seq<Entry>>) returns (sources: seq<seq<Entry>>)
    requires Filed(files, runs)
    ensures sources == OpenRuns(runs)
  {
    hide Filed, PutRun, AllWritable;
    SameCount(files, runs);
    sources := [];
    for i := 0 to |files|
      invariant sources + OpenRuns(runs[i..]) == OpenRuns(runs)
    {
      FiledAt(files, runs, i);
      var run, ok := ReadRun(files[i], runs[i]);
      assert runs[i..][1..] == runs[i + 1..];
      if run != [] { sources := sources + [run]; }
    }
    assert runs[|files|..] == [];
  }

  /** Records merged from files can be written to one. */
  lemma MergedWritable(files: seq<seq<byte>>, runs: seq<seq<Entry>>, merged: seq<Entry>)
    requires Filed(files, runs) && Elements(merged) <= All(runs)
    ensures AllWritable(merged)
  {
    hide PutRun, Writable;
    forall i | 0 <= i < |merged| ensures Writable(merged[i]) {
      assert merged[i] in Elements(merged);
      var k :| 0 <= k < |runs| && merged[i] in runs[k];
      assert AllWritable(runs[k]);
    }
  }

  function AsSources(memory: Option<seq<Entry>>): seq<seq<Entry>> {
    if memory.Some? then [memory.value] else []
  }

  /** A group's spilled runs and in-memory rest still stand for `all`, `dropped` duplicates gone. */
  ghost predicate StandsFor(runs: seq<seq<Entry>>, memory: Option<seq<Entry>>, all: set<Entry>, total: nat,
                            dropped: nat) {
    var sources := runs + AsSources(memory);
    && AllSorted(sources) && All(sources) <= all && First(All(sources)) == First(all)
    && dropped + Count(sources) == total
  }

  lemma StreamIsSorted(s: seq<Entry>)
    requires StrictKeys(s)
    ensures Sorted(s)
  {
    LessOrder();
  }

  /** Merging the first `take` runs into one leaves what the group stands for unchanged. */
  lemma PreMergeKeeps(runs: seq<seq<Entry>>, memory: Option<seq<Entry>>, take: nat, merged: seq<Entry>, n: nat,
                      all: set<Entry>, total: nat, dropped: nat)
    requires take <= |runs| && StandsFor(runs, memory, all, total, dropped)
    requires IsStreamOf(merged, All(runs[..take])) && |merged| + n == Count(runs[..take])
    ensures StandsFor(runs[take..] + [merged], memory, all, total, dropped + n)
  {
    hide Sorted, First, All, Count, AllSorted, Elements;
    var batch, keep, mem := runs[..take], runs[take..], AsSources(memory);
    assert runs + mem == batch + (keep + mem);
    AllConcat(batch, keep + mem);
    CountConcat(batch, keep + mem);
    AllSortedConcat(batch, keep + mem);
    var next := keep + [merged] + mem;
    assert next == keep + ([merged] + mem);
    AllConcat(keep, [merged] + mem);
    CountConcat(keep, [merged] + mem);
    AllSortedConcat(keep, [merged] + mem);
    AllConcat([merged], mem);
    CountConcat([merged], mem);
    AllSortedConcat([merged], mem);
    AllConcat(keep, mem);
    CountConcat(keep, mem);
    AllSortedConcat(keep, mem);
    AllOne(merged);
    StreamIsSorted(merged);
    SortedOne(merged);
    assert All(next) == First(All(batch)) + All(keep + mem);
    FirstOfFirst(All(batch), All(keep + mem));
    FirstIsSubset(All(batch));
  }

  lemma SortedOne(r: seq<Entry>)
    ensures Sorted(r) <==> AllSorted([r])
  {
    assert [r][0] == r;
  }

  lemma FirstIsSubset(all: set<Entry>)
    ensures First(all) <= all
  {
  }

  lemma StandsForItself(runs: seq<seq<Entry>>, memory: Option<seq<Entry>>)
    requires AllSorted(runs + AsSources(memory))
    ensures StandsFor(runs, memory, All(runs + AsSources(memory)), Count(runs + AsSources(memory)), 0)
  {
  }

  lemma ReorderedStandsFor(runs: seq<seq<Entry>>, ordered: seq<seq<Entry>>, memory: Option<seq<Entry>>,
                           all: set<Entry>, total: nat, dropped: nat)
    requires All(ordered) == All(runs) && Count(ordered) == Count(runs) && AllSorted(ordered) == AllSorted(runs)
    requires StandsFor(runs, memory, all, total, dropped)
    ensures StandsFor(ordered, memory, all, total, dropped)
  {
    hide First, All, Count, AllSorted;
    var mem := AsSources(memory);
    AllConcat(ordered, mem);
    CountConcat(ordered, mem);
    AllSortedConcat(ordered, mem);
    AllConcat(runs, mem);
    CountConcat(runs, mem);
    AllSortedConcat(runs, mem);
  }

  lemma SubsetDistinct(a: set<Entry>, b: set<Entry>)
    requires a <= b && Distinct(b)
    ensures Distinct(a)
  {
  }

  lemma PreMergeReady(runs: seq<seq<Entry>>, memory: Option<seq<Entry>>, take: nat,
                      all: set<Entry>, total: nat, dropped: nat)
    requires take <= |runs| && StandsFor(runs, memory, all, total, dropped) && Distinct(all)
    ensures var open := OpenRuns(runs[..take]);
            AllSorted(open) && Distinct(All(open)) && All(open) == All(runs[..take])
              && Count(open) == Count(runs[..take])
  {
    hide First, All, Count, AllSorted, Distinct;
    var batch, others := runs[..take], runs[take..] + AsSources(memory);
    assert runs + AsSources(memory) == batch + others;
    AllConcat(batch, others);
    AllSortedConcat(batch, others);
    OpenRunsKeeps(batch);
    SubsetDistinct(All(batch), all);
  }

  lemma FinalReady(runs: seq<seq<Entry>>, memory: Option<seq<Entry>>, all: set<Entry>, total: nat, dropped: nat)
    requires StandsFor(runs, memory, all, total, dropped) && Distinct(all)
    requires memory.Some? ==> memory.value != []
    ensures var open := OpenRuns(runs) + AsSources(memory);
            AllSorted(open) && Distinct(All(open)) && First(All(open)) == First(all) && dropped + Count(open) == total
            && (forall i :: 0 <= i < |open| ==> open[i] != [])
            && |open| <= |runs| + if memory.Some? then 1 else 0
  {
    hide First, All, Count, AllSorted, Distinct;
    var mem := AsSources(memory);
    AllConcat(runs, mem);
    CountConcat(runs, mem);
    AllSortedConcat(runs, mem);
    OpenRunsKeeps(runs);
    AllConcat(OpenRuns(runs), mem);
    CountConcat(OpenRuns(runs), mem);
    AllSortedConcat(OpenRuns(runs), mem);
    SubsetDistinct(All(runs + mem), all);
  }

  lemma SameSurvivors(out: seq<Entry>, a: set<Entry>, b: set<Entry>)
    requires IsStreamOf(out, a) && First(a) == First(b)
    ensures IsStreamOf(out, b)
  {
  }

  /** A pre-merge: the files it merged into one, and those it left. */
  datatype Pass = Pass(taken: seq<seq<byte>>, left: seq<seq<byte>>)

  /** Smallest first, and only as many as are too many. */
  ghost predicate WellPicked(p: Pass, inMemory: nat, fanIn: nat, size: seq<byte> -> nat) {
    && (forall x, y :: x in p.taken && y in p.left ==> size(x) <= size(y))
    && |p.taken| + |p.left| + inMemory > fanIn && 2 <= |p.taken| <= fanIn
    && |p.left| + 1 + inMemory >= fanIn && (|p.taken| == fanIn || |p.left| + 1 + inMemory == fanIn)
  }

  ghost function PickedBySize(ordered: seq<seq<byte>>, take: nat, inMemory: nat, fanIn: nat, size: seq<byte> -> nat)
    : (p: Pass)
    requires BySize(ordered, size) && take <= |ordered| && 2 <= fanIn < |ordered| + inMemory
    requires take == if |ordered| + inMemory - fanIn + 1 < fanIn then |ordered| + inMemory - fanIn + 1 else fanIn
    ensures WellPicked(p, inMemory, fanIn, size)
  {
    Pass(ordered[..take], ordered[take..])
  }

  /**
   * Merge spilled run files and an optional in-memory source while opening at most
   * `fanIn` at once; a pre-merge writes its result to a new run file. `widest` is the
   * most that were open.
   */
  method MergeBounded(files0: seq<seq<byte>>, memory: Option<seq<Entry>>, fanIn0: nat, size: seq<byte> -> nat,
                      ghost runs0: seq<seq<Entry>>)
    returns (out: seq<Entry>, stats: Stats, ghost widest: nat, ghost passes: seq<Pass>)
    requires Filed(files0, runs0)
    requires memory.Some? ==> memory.value != []
    requires AllSorted(runs0 + AsSources(memory)) && Distinct(All(runs0 + AsSources(memory)))
    ensures IsStreamOf(out, All(runs0 + AsSources(memory)))
    ensures stats.emitted == |out|
    ensures stats.emitted + stats.deduplicated == Count(runs0 + AsSources(memory))
    ensures widest <= if fanIn0 < 2 then 2 else fanIn0
    ensures forall p :: p in passes ==>
              WellPicked(p, if memory.Some? then 1 else 0, if fanIn0 < 2 then 2 else fanIn0, size)
  {
    hide Sorted, First, All, Count, AllSorted, Elements, IsStreamOf, Distinct, StandsFor, AsSources, Filed, PutRun,
      BySize, WellPicked;
    ghost var all, total := All(runs0 + AsSources(memory)), Count(runs0 + AsSources(memory));
    var fanIn := if fanIn0 < 2 then 2 else fanIn0;
    var inMemory := if memory.Some? then 1 else 0;
    var files, dropped: nat := files0, 0;
    ghost var runs := runs0;
    widest, passes := 0, [];
    StandsForItself(runs, memory);
    SameCount(files, runs);
    while |files| + inMemory > fanIn
      invariant StandsFor(runs, memory, all, total, dropped) && widest <= fanIn
      invariant Filed(files, runs) && |files| == |runs|
      invariant forall p :: p in passes ==> WellPicked(p, inMemory, fanIn, size)
      decreases |files|
    {
      var need := |files| + inMemory - fanIn + 1;
      var take := if need < fanIn then need else fanIn;
      var ordered, order := OrderBySize(files, size, runs);
      SameCount(ordered, order);
      passes := passes + [PickedBySize(ordered, take, inMemory, fanIn, size)];
      ReorderedStandsFor(runs, order, memory, all, total, dropped);
      FiledSplit(ordered, order, take);
      var batch := OpenFiles(ordered[..take], order[..take]);
      PreMergeReady(order, memory, take, all, total, dropped);
      if widest < |batch| { widest := |batch|; }
      var merged, s := MergeSources(batch, fanIn);
      PreMergeKeeps(order, memory, take, merged, s.deduplicated, all, total, dropped);
      StreamWithin(merged, All(order[..take]));
      MergedWritable(ordered[..take], order[..take], merged);
      var file := WriteRun(merged);
      FiledLast(ordered[take..], order[take..], file, merged);
      dropped := dropped + s.deduplicated;
      files, runs := ordered[take..] + [file], order[take..] + [merged];
    }
    var sources := OpenFiles(files, runs);
    sources := sources + AsSources(memory);
    FinalReady(runs, memory, all, total, dropped);
    if widest < |sources| { widest := |sources|; }
    out, stats := MergeSources(sources, fanIn);
    SameSurvivors(out, All(sources), all);
    stats := stats.(deduplicated := stats.deduplicated + dropped);
  }

  lemma StreamWithin(out: seq<Entry>, all: set<Entry>)
    requires IsStreamOf(out, all)
    ensures Elements(out) <= all
  {
  }
}
