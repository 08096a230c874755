/**
 * The `extra` pairs of a record and their canonical form: names strictly
 * increasing, one value per name (src/codec.rs, shared with the column builder).
 */
module Extra {
  import opened Bytes

  type Pair = (Text, Text)

  /** `is_canonical`: each adjacent pair of names is strictly increasing. */
  predicate IsCanonical(extra: seq<Pair>) {
    forall i :: 0 <= i < |extra| - 1 ==> Less(extra[i].0, extra[i + 1].0)
  }

  /** Canonical in bytes: names strictly ascend. */
  lemma CanonicalMeans(extra: seq<Pair>)
    ensures IsCanonical(extra) <==> forall i, j :: 0 <= i < j < |extra| ==> Precedes(extra[i].0, extra[j].0)
  {
    hide Less, Precedes;
    forall i, j | 0 <= i < j < |extra| ensures Less(extra[i].0, extra[j].0) <==> Precedes(extra[i].0, extra[j].0) {
      LessMeans(extra[i].0, extra[j].0);
    }
    if IsCanonical(extra) {
      forall i, j | 0 <= i < j < |extra| ensures Precedes(extra[i].0, extra[j].0) { CanonicalIncreasing(extra, i, j); }
    }
  }

  /** Tuple order, as the source sorts by. */
  predicate PairLess(a: Pair, b: Pair) {
    Less(a.0, b.0) || (a.0 == b.0 && Less(a.1, b.1))
  }

  /** `p` is the pair kept for its name: no pair of that name has a smaller value. */
  ghost predicate Kept(extra: seq<Pair>, p: Pair) {
    p in extra && forall q :: q in extra && q.0 == p.0 ==> !Less(q.1, p.1)
  }

  /** The canonical form of `extra`: sorted by name, one least value for each name. */
  ghost predicate IsCanonicalFormOf(extra: seq<Pair>, c: seq<Pair>) {
    IsCanonical(c) && forall p: Pair :: p in c <==> Kept(extra, p)
  }

  lemma {:induction false} CanonicalIncreasing(c: seq<Pair>, i: nat, j: nat)
    requires IsCanonical(c) && i < j < |c|
    ensures Less(c[i].0, c[j].0)
    decreases j
  {
    if i + 1 < j {
      CanonicalIncreasing(c, i, j - 1);
      LessTransitive(c[i].0, c[j - 1].0, c[j].0);
    }
  }

  /** In a canonical sequence a name determines its pair. */
  lemma CanonicalNames(c: seq<Pair>)
    requires IsCanonical(c)
    ensures forall p, q :: p in c && q in c && p.0 == q.0 ==> p == q
    ensures forall i, j :: 0 <= i < j < |c| ==> Less(c[i].0, c[j].0)
  {
    LessOrder();
    forall i, j | 0 <= i < j < |c| ensures Less(c[i].0, c[j].0) { CanonicalIncreasing(c, i, j); }
  }

  /** Two canonical sequences with the same pairs are equal. */
  lemma {:induction false} CanonicalUnique(a: seq<Pair>, b: seq<Pair>)
    requires IsCanonical(a) && IsCanonical(b)
    requires forall p: Pair :: p in a <==> p in b
    ensures a == b
  {
    FirstMember(a);
    FirstMember(b);
    if a != [] {
      assert a[0] in a;
      CanonicalNames(a);
      CanonicalNames(b);
      LessOrder();
      assert b[0] in b;
      assert a[0] == b[0];
      forall p: Pair ensures p in a[1..] <==> p in b[1..] {
        TailMembers(a, p);
        TailMembers(b, p);
      }
      CanonicalUnique(a[1..], b[1..]);
      assert a == [a[0]] + a[1..] && b == [b[0]] + b[1..];
    }
  }

  lemma FirstMember(a: seq<Pair>)
    ensures a != [] ==> exists p :: p in a
  {
    if a != [] { assert a[0] in a; }
  }

  lemma TailMembers(a: seq<Pair>, p: Pair)
    requires a != [] && IsCanonical(a)
    ensures p in a[1..] <==> p in a && p != a[0]
  {
    CanonicalNames(a);
    LessOrder();
  }

  /** Insert one pair, keeping the smaller value when the name is already there. */
  function Insert(c: seq<Pair>, p: Pair): seq<Pair> {
    if c == [] || Less(p.0, c[0].0) then [p] + c
    else if p.0 == c[0].0 then (if Less(p.1, c[0].1) then [p] + c[1..] else c)
    else [c[0]] + Insert(c[1..], p)
  }

  function Canonicalise(extra: seq<Pair>): seq<Pair> {
    if extra == [] then [] else Insert(Canonicalise(extra[1..]), extra[0])
  }

  /** What `Insert` holds: `p` displaces a larger value of its name and yields to a smaller one. */
  ghost predicate AfterInsert(c: seq<Pair>, p: Pair, q: Pair) {
    if q == p then forall o :: o in c && o.0 == p.0 ==> !Less(o.1, p.1)
    else q in c && (q.0 == p.0 ==> Less(q.1, p.1))
  }

  lemma {:induction false} InsertCanonical(c: seq<Pair>, p: Pair)
    requires IsCanonical(c)
    ensures IsCanonical(Insert(c, p))
    ensures c != [] ==> Insert(c, p) != [] && Insert(c, p)[0].0 in {c[0].0, p.0}
    ensures forall q: Pair :: q in Insert(c, p) <==> AfterInsert(c, p, q)
  {
    LessOrder();
    CanonicalNames(c);
    if c == [] || Less(p.0, c[0].0) {
    } else if p.0 == c[0].0 {
      assert c == [c[0]] + c[1..];
    } else {
      InsertCanonical(c[1..], p);
      assert c == [c[0]] + c[1..];
    }
  }

  /** `Canonicalise` computes the canonical form. */
  lemma {:induction false} CanonicaliseMeaning(extra: seq<Pair>)
    ensures IsCanonicalFormOf(extra, Canonicalise(extra))
  {
    if extra != [] {
      var rest, p := extra[1..], extra[0];
      CanonicaliseMeaning(rest);
      InsertCanonical(Canonicalise(rest), p);
      assert extra == [p] + rest;
      forall q: Pair ensures AfterInsert(Canonicalise(rest), p, q) <==> Kept(extra, q) {
        KeptAfterInsert(rest, p, q);
      }
    }
  }

  lemma KeptAfterInsert(rest: seq<Pair>, p: Pair, q: Pair)
    requires IsCanonicalFormOf(rest, Canonicalise(rest))
    ensures AfterInsert(Canonicalise(rest), p, q) <==> Kept([p] + rest, q)
  {
    LessOrder();
    var c := Canonicalise(rest);
    if AfterInsert(c, p, q) {
      forall o | o in [p] + rest && o.0 == q.0 ensures !Less(o.1, q.1) {
        if o != p { var k := LeastOf(rest, o); }
      }
    } else if q == p {
      var o :| o in c && o.0 == p.0 && Less(o.1, p.1);
      assert Kept(rest, o);
    }
  }

  /** Every name present has a least value. */
  lemma {:induction false} LeastOf(extra: seq<Pair>, o: Pair) returns (k: Pair)
    requires o in extra
    ensures Kept(extra, k) && k.0 == o.0 && !Less(o.1, k.1)
  {
    LessOrder();
    k := o;
    var i := 0;
    while i < |extra|
      invariant 0 <= i <= |extra|
      invariant k in extra && k.0 == o.0 && !Less(o.1, k.1)
      invariant forall j :: 0 <= j < i && extra[j].0 == k.0 ==> !Less(extra[j].1, k.1)
    {
      if extra[i].0 == k.0 && Less(extra[i].1, k.1) { k := extra[i]; }
      i := i + 1;
    }
  }

  /** The canonical form depends only on which pairs are present, not on their order. */
  lemma CanonicalisePermutation(a: seq<Pair>, b: seq<Pair>)
    requires forall p: Pair :: p in a <==> p in b
    ensures Canonicalise(a) == Canonicalise(b)
  {
    CanonicaliseMeaning(a);
    CanonicaliseMeaning(b);
    assert forall p: Pair :: Kept(a, p) <==> Kept(b, p);
    CanonicalUnique(Canonicalise(a), Canonicalise(b));
  }

  /** The fast path's test: canonicalising changes nothing exactly when it passes. */
  lemma CanonicaliseFixpoint(extra: seq<Pair>)
    ensures Canonicalise(extra) == extra <==> IsCanonical(extra)
  {
    CanonicaliseMeaning(extra);
    if IsCanonical(extra) {
      CanonicalNames(extra);
      LessOrder();
      CanonicalUnique(Canonicalise(extra), extra);
    }
  }

  // ---- the slow path: sort indices, collapse runs of equal names -----------

  function Select(extra: seq<Pair>, order: seq<nat>): (r: seq<Pair>)
    requires forall i :: 0 <= i < |order| ==> order[i] < |extra|
    ensures |r| == |order|
  {
    seq(|order|, i requires 0 <= i < |order| => extra[order[i]])
  }

  ghost predicate Sorted(s: seq<Pair>) {
    forall i, j :: 0 <= i < j < |s| ==> !PairLess(s[j], s[i])
  }

  lemma PairOrder()
    ensures forall a: Pair, b: Pair, c: Pair :: PairLess(a, b) && PairLess(b, c) ==> PairLess(a, c)
    ensures forall a: Pair, b: Pair :: a == b || PairLess(a, b) || PairLess(b, a)
    ensures forall a: Pair :: !PairLess(a, a)
  {
    LessOrder();
  }

  lemma InsertSorted(s: seq<Pair>, at: nat, p: Pair)
    requires Sorted(s) && at <= |s|
    requires forall i :: 0 <= i < at ==> !PairLess(p, s[i])
    requires at < |s| ==> PairLess(p, s[at])
    ensures Sorted(s[..at] + [p] + s[at..])
  {
    hide PairLess;
    PairOrder();
    var r := s[..at] + [p] + s[at..];
    forall i, j | 0 <= i < j < |r| ensures !PairLess(r[j], r[i]) {
      var x := if j > at then s[j - 1] else p;
      assert j >= at ==> r[j] == x;
    }
  }

  /** `q` is represented: its name is kept with a value no larger. */
  ghost predicate Covered(kept: seq<Pair>, q: Pair) {
    exists k :: k in kept && k.0 == q.0 && !Less(q.1, k.1)
  }

  /** A canonical selection that covers every pair is the canonical form. */
  lemma CoveringIsCanonicalForm(extra: seq<Pair>, kept: seq<Pair>)
    requires IsCanonical(kept)
    requires forall k :: k in kept ==> k in extra
    requires forall q :: q in extra ==> Covered(kept, q)
    ensures kept == Canonicalise(extra)
  {
    LessOrder();
    CanonicalNames(kept);
    forall p: Pair ensures p in kept <==> Kept(extra, p) {
      if p in extra { assert Covered(kept, p); }
    }
    CanonicaliseMeaning(extra);
    CanonicalUnique(kept, Canonicalise(extra));
  }

  /** One step of collapsing a sorted run: keep `p` exactly when its name is new. */
  lemma CollapseStep(kept: seq<Pair>, p: Pair)
    requires IsCanonical(kept)
    requires kept != [] ==> !PairLess(p, kept[|kept| - 1])
    ensures var next := if kept != [] && kept[|kept| - 1].0 == p.0 then kept else kept + [p];
            IsCanonical(next) && Covered(next, p) && next[|next| - 1].0 == p.0
            && !PairLess(p, next[|next| - 1])
            && forall q :: Covered(kept, q) ==> Covered(next, q)
  {
    LessOrder();
    var next := if kept != [] && kept[|kept| - 1].0 == p.0 then kept else kept + [p];
    assert next[|next| - 1] in next;
    assert forall k :: k in kept ==> k in next;
  }

  /** `sort_unstable_by_key` over the indices `0..n`. */
  method SortIndices(extra: seq<Pair>) returns (order: seq<nat>)
    ensures forall i :: 0 <= i < |order| ==> order[i] < |extra|
    ensures |order| == |extra| && Sorted(Select(extra, order))
    ensures forall p: Pair :: p in Select(extra, order) <==> p in extra
  {
    LessOrder();
    order := [];
    var n := 0;
    while n < |extra|
      invariant 0 <= n <= |extra| && |order| == n
      invariant forall i :: 0 <= i < |order| ==> order[i] < |extra|
      invariant Sorted(Select(extra, order))
      invariant forall p: Pair :: p in Select(extra, order) <==> p in extra[..n]
    {
      var at := 0;
      while at < |order| && !PairLess(extra[n], extra[order[at]])
        invariant 0 <= at <= |order|
        invariant forall i :: 0 <= i < at ==> !PairLess(extra[n], extra[order[i]])
      {
        at := at + 1;
      }
      ghost var before := Select(extra, order);
      InsertSorted(before, at, extra[n]);
      var next := order[..at] + [n] + order[at..];
      assert Select(extra, next) == before[..at] + [extra[n]] + before[at..];
      assert before == before[..at] + before[at..];
      assert extra[..n + 1] == extra[..n] + [extra[n]];
      order := next;
      n := n + 1;
    }
    assert extra[..n] == extra;
  }

  /** `dedup_by` name: each run of equal names collapses to its first member. */
  method CollapseRuns(extra: seq<Pair>, order: seq<nat>) returns (kept: seq<nat>)
    requires forall i :: 0 <= i < |order| ==> order[i] < |extra|
    requires Sorted(Select(extra, order))
    ensures forall i :: 0 <= i < |kept| ==> kept[i] < |extra|
    ensures IsCanonical(Select(extra, kept))
    ensures forall j :: 0 <= j < |order| ==> Covered(Select(extra, kept), Select(extra, order)[j])
  {
    hide PairLess, Less, IsCanonical, Covered, Select, Picks, CoversFirst, Sorted;
    ghost var sorted := Select(extra, order);
    SelectPicks(extra, order);
    kept := [];
    ghost var chosen: seq<Pair> := [];
    ghost var last: nat := 0;
    NothingCollapsed(extra, sorted);
    for n := 0 to |order|
      invariant Picks(extra, kept, chosen) && IsCanonical(chosen) && CoversFirst(chosen, sorted, n)
      invariant n > 0 ==> chosen != []
      invariant chosen != [] ==> last < n && chosen[|chosen| - 1] == sorted[last]
    {
      PicksLast(extra, kept, chosen);
      PickAt(extra, order, sorted, n);
      if chosen != [] { SortedPair(sorted, last, n); }
      CollapseStep(chosen, sorted[n]);
      CoversMore(chosen, sorted, n);
      if kept == [] || extra[kept[|kept| - 1]].0 != extra[order[n]].0 {
        PicksMore(extra, kept, chosen, order[n]);
        kept, chosen, last := kept + [order[n]], chosen + [sorted[n]], n;
      }
    }
    PicksAll(extra, kept, chosen, sorted, |order|);
  }

  /** `chosen` are the pairs the indices name. */
  ghost predicate Picks(extra: seq<Pair>, kept: seq<nat>, chosen: seq<Pair>) {
    |chosen| == |kept| && forall i :: 0 <= i < |kept| ==> kept[i] < |extra| && chosen[i] == extra[kept[i]]
  }

  ghost predicate CoversFirst(chosen: seq<Pair>, sorted: seq<Pair>, n: nat) {
    n <= |sorted| && forall j :: 0 <= j < n ==> Covered(chosen, sorted[j])
  }

  lemma NothingCollapsed(extra: seq<Pair>, sorted: seq<Pair>)
    ensures Picks(extra, [], []) && IsCanonical([]) && CoversFirst([], sorted, 0)
  {
  }

  lemma SelectPicks(extra: seq<Pair>, order: seq<nat>)
    requires forall i :: 0 <= i < |order| ==> order[i] < |extra|
    ensures Picks(extra, order, Select(extra, order))
  {
  }

  lemma PicksLast(extra: seq<Pair>, kept: seq<nat>, chosen: seq<Pair>)
    requires Picks(extra, kept, chosen)
    ensures |chosen| == |kept|
    ensures kept != [] ==> kept[|kept| - 1] < |extra| && chosen[|chosen| - 1] == extra[kept[|kept| - 1]]
  {
  }

  lemma PickAt(extra: seq<Pair>, order: seq<nat>, sorted: seq<Pair>, n: nat)
    requires Picks(extra, order, sorted) && n < |order|
    ensures n < |sorted| && order[n] < |extra| && sorted[n] == extra[order[n]]
  {
  }

  lemma PicksMore(extra: seq<Pair>, kept: seq<nat>, chosen: seq<Pair>, k: nat)
    requires Picks(extra, kept, chosen) && k < |extra|
    ensures Picks(extra, kept + [k], chosen + [extra[k]])
  {
  }

  lemma SortedPair(sorted: seq<Pair>, i: nat, j: nat)
    requires Sorted(sorted) && i < j < |sorted|
    ensures !PairLess(sorted[j], sorted[i])
  {
  }

  lemma CoversMore(chosen: seq<Pair>, sorted: seq<Pair>, n: nat)
    requires CoversFirst(chosen, sorted, n) && n < |sorted|
    ensures var next := if chosen != [] && chosen[|chosen| - 1].0 == sorted[n].0 then chosen else chosen + [sorted[n]];
            (forall q :: Covered(chosen, q) ==> Covered(next, q)) && Covered(next, sorted[n]) ==>
              CoversFirst(next, sorted, n + 1)
  {
    hide Covered;
  }

  lemma PicksAll(extra: seq<Pair>, kept: seq<nat>, chosen: seq<Pair>, sorted: seq<Pair>, n: nat)
    requires Picks(extra, kept, chosen) && CoversFirst(chosen, sorted, n) && n == |sorted|
    ensures forall i :: 0 <= i < |kept| ==> kept[i] < |extra|
    ensures Select(extra, kept) == chosen
    ensures forall j :: 0 <= j < |sorted| ==> Covered(chosen, sorted[j])
  {
    hide Covered;
    SelectIs(extra, kept, chosen);
  }

  lemma SelectIs(extra: seq<Pair>, order: seq<nat>, r: seq<Pair>)
    requires |r| == |order| && forall i :: 0 <= i < |order| ==> order[i] < |extra| && r[i] == extra[order[i]]
    ensures Select(extra, order) == r
  {
  }

  /** The indices kept, in order: what the encoder and the row builder write out. */
  method SortAndCollapse(extra: seq<Pair>) returns (kept: seq<nat>)
    ensures forall i :: 0 <= i < |kept| ==> kept[i] < |extra|
    ensures Select(extra, kept) == Canonicalise(extra)
  {
    hide Less, IsCanonical, Covered, Canonicalise, Sorted;
    var order := SortIndices(extra);
    kept := CollapseRuns(extra, order);
    ghost var sorted := Select(extra, order);
    assert forall q :: q in sorted ==> Covered(Select(extra, kept), q);
    CoveringIsCanonicalForm(extra, Select(extra, kept));
  }
}
