/** Records tagged with their `(series, epoch)` group: order, per-group views and deduplication. */
module Groups {
  import opened Bytes
  import opened Arrivals

  /** Series and epoch: the records that share them share their output files. */
  type GroupKey = (Text, u32)

  type Tagged = (GroupKey, Entry)

  predicate GroupLess(a: GroupKey, b: GroupKey) { Less(a.0, b.0) || (a.0 == b.0 && a.1 < b.1) }

  /** `(group, ts, id, arrival)` order. */
  predicate TaggedLess(a: Tagged, b: Tagged) {
    GroupLess(a.0, b.0) || (a.0 == b.0 && Before(a.1, b.1))
  }

  lemma TaggedOrder()
    ensures forall a: Tagged, b: Tagged, c: Tagged :: !TaggedLess(b, a) && !TaggedLess(c, b) ==> !TaggedLess(c, a)
    ensures forall a: Tagged, b: Tagged :: TaggedLess(a, b) ==> !TaggedLess(b, a)
    ensures forall a: Tagged :: !TaggedLess(a, a)
  {
    LessOrder();
    BeforeOrder();
    hide Before;
  }

  predicate SortedRows(rows: seq<Tagged>) {
    forall i, j :: 0 <= i < j < |rows| ==> !TaggedLess(rows[j], rows[i])
  }

  /** The order of a sorted batch in numbers and bytes: series, epoch, timestamp, id, and then arrival. */
  lemma SortedRowsMeans(rows: seq<Tagged>, i: nat, j: nat)
    requires SortedRows(rows) && i < j < |rows|
    ensures var a, b := rows[i], rows[j];
            || Precedes(a.0.0, b.0.0)
            || (a.0.0 == b.0.0 && a.0.1 < b.0.1)
            || (a.0 == b.0 && a.1.ts < b.1.ts)
            || (a.0 == b.0 && a.1.ts == b.1.ts && Precedes(a.1.id, b.1.id))
            || (a.0 == b.0 && a.1.ts == b.1.ts && a.1.id == b.1.id && a.1.arrival.0 < b.1.arrival.0)
            || (a.0 == b.0 && a.1.ts == b.1.ts && a.1.id == b.1.id && a.1.arrival.0 == b.1.arrival.0
                && a.1.arrival.1 <= b.1.arrival.1)
  {
    hide Less, Precedes;
    var a, b := rows[i], rows[j];
    assert !TaggedLess(b, a);
    LessOrder();
    LessMeans(a.0.0, b.0.0);
    LessMeans(a.1.id, b.1.id);
  }

  /** The records of one group, in order. */
  function Of(rows: seq<Tagged>, g: GroupKey): seq<Entry> {
    if rows == [] then []
    else Of(rows[..|rows| - 1], g) + if rows[|rows| - 1].0 == g then [rows[|rows| - 1].1] else []
  }

  lemma {:induction false} OfConcat(a: seq<Tagged>, b: seq<Tagged>, g: GroupKey)
    ensures Of(a + b, g) == Of(a, g) + Of(b, g)
    decreases |b|
  {
    if b == [] {
      assert a + b == a;
    } else {
      assert (a + b)[..|a + b| - 1] == a + b[..|b| - 1];
      OfConcat(a, b[..|b| - 1], g);
    }
  }

  lemma OfLast(rows: seq<Tagged>, x: Tagged, g: GroupKey)
    ensures Of(rows + [x], g) == Of(rows, g) + if x.0 == g then [x.1] else []
  {
    var s := rows + [x];
    assert s[..|s| - 1] == rows;
  }

  lemma {:induction false} OfMembers(rows: seq<Tagged>, g: GroupKey)
    ensures forall e :: e in Of(rows, g) <==> (g, e) in rows
  {
    if rows != [] {
      var init, x := rows[..|rows| - 1], rows[|rows| - 1];
      OfMembers(init, g);
      assert rows == init + [x];
    }
  }

  /** A sorted batch is sorted within each group, and its last group is contiguous. */
  lemma {:induction false} OfSorted(rows: seq<Tagged>, g: GroupKey)
    requires SortedRows(rows)
    ensures Sorted(Of(rows, g))
  {
    hide Before;
    if rows != [] {
      var init, x := rows[..|rows| - 1], rows[|rows| - 1];
      OfSorted(init, g);
      OfMembers(init, g);
      if x.0 == g {
        var s := Of(init, g);
        forall i | 0 <= i < |s| ensures !Before(x.1, s[i]) {
          assert (g, s[i]) in init;
          var k :| 0 <= k < |init| && init[k] == (g, s[i]);
          assert rows[k] == init[k];
        }
      }
    }
  }

  predicate SameRow(a: Tagged, b: Tagged) { a.0 == b.0 && SameKey(a.1, b.1) }

  /** `dedup_by` group, `ts` and `id` on adjacent rows. */
  function DropRows(rows: seq<Tagged>): (r: seq<Tagged>)
    ensures |r| <= |rows|
  {
    if |rows| <= 1 then rows
    else
      var d := DropRows(rows[..|rows| - 1]);
      if SameRow(rows[|rows| - 1], rows[|rows| - 2]) then d else d + [rows[|rows| - 1]]
  }

  lemma DropRowsStep(rows: seq<Tagged>, x: Tagged)
    ensures DropRows(rows + [x]) ==
              if rows != [] && SameRow(x, rows[|rows| - 1]) then DropRows(rows) else DropRows(rows) + [x]
  {
    var s := rows + [x];
    assert s[..|s| - 1] == rows;
  }

  lemma GroupOrder()
    ensures forall a: GroupKey, b: GroupKey, c: GroupKey :: !GroupLess(b, a) && !GroupLess(c, b) ==> !GroupLess(c, a)
    ensures forall a: GroupKey, b: GroupKey :: !GroupLess(a, b) && !GroupLess(b, a) ==> a == b
  {
    LessOrder();
  }

  lemma NotGroupLess(s: seq<Tagged>, i: nat, j: nat)
    requires i <= j < |s| && SortedRows(s)
    ensures !GroupLess(s[j].0, s[i].0)
  {
    LessOrder();
    if i < j { assert !TaggedLess(s[j], s[i]); }
  }

  /**
   * In a sorted batch the records of a group are adjacent: if the last two rows differ in group, the last opens
   * its own.
   */
  lemma LastOpensGroup(init: seq<Tagged>, x: Tagged)
    requires init != [] && SortedRows(init + [x]) && init[|init| - 1].0 != x.0
    ensures Of(init, x.0) == []
  {
    hide Of, GroupLess;
    GroupOrder();
    var s, n := init + [x], |init| - 1;
    forall k | 0 <= k < |init| ensures init[k].0 != x.0 {
      NotGroupLess(s, k, n);
      NotGroupLess(s, n, |init|);
    }
    OfNone(init, x.0);
  }

  lemma {:induction false} OfNone(rows: seq<Tagged>, g: GroupKey)
    requires forall k :: 0 <= k < |rows| ==> rows[k].0 != g
    ensures Of(rows, g) == []
  {
    if rows != [] { OfNone(rows[..|rows| - 1], g); }
  }

  lemma LastOf(init: seq<Tagged>)
    requires init != []
    ensures var p := init[|init| - 1]; Of(init, p.0) == Of(init[..|init| - 1], p.0) + [p.1]
  {
  }

  /** Deduplicating the whole sorted batch deduplicates each group on its own. */
  lemma {:induction false} DropRowsByGroup(rows: seq<Tagged>, g: GroupKey)
    requires SortedRows(rows)
    ensures Of(DropRows(rows), g) == DropRepeats(Of(rows, g))
  {
    if |rows| <= 1 {
      OfAtMostOne(rows, g);
    } else {
      var init, x := rows[..|rows| - 1], rows[|rows| - 1];
      assert rows == init + [x];
      DropRowsByGroup(init, g);
      DropRowsExtend(init, x, g);
    }
  }

  lemma DropRowsExtend(init: seq<Tagged>, x: Tagged, g: GroupKey)
    requires init != [] && SortedRows(init + [x]) && Of(DropRows(init), g) == DropRepeats(Of(init, g))
    ensures Of(DropRows(init + [x]), g) == DropRepeats(Of(init + [x], g))
  {
    hide Of, DropRows, DropRepeats, SortedRows;
    DropRowsStep(init, x);
    OfLast(init, x, g);
    OfLast(DropRows(init), x, g);
    assert Of(init, g) + [] == Of(init, g) && Of(DropRows(init), g) + [] == Of(DropRows(init), g);
    if x.0 == g {
      var p := init[|init| - 1];
      DropRepeatsAppend(Of(init, g), x.1);
      if p.0 == g { LastOf(init); } else { LastOpensGroup(init, x); }
    }
  }

  lemma OfAtMostOne(rows: seq<Tagged>, g: GroupKey)
    requires |rows| <= 1
    ensures |Of(rows, g)| <= 1
  {
    if |rows| == 1 { assert rows[..0] == []; }
  }

  lemma DropRepeatsAppend(s: seq<Entry>, e: Entry)
    ensures DropRepeats(s + [e]) == if s != [] && SameKey(e, s[|s| - 1]) then DropRepeats(s) else DropRepeats(s) + [e]
  {
    var t := s + [e];
    assert t[..|t| - 1] == s;
  }

  lemma {:induction false} DropRowsSorted(rows: seq<Tagged>)
    requires SortedRows(rows)
    ensures SortedRows(DropRows(rows)) && forall x :: x in DropRows(rows) ==> x in rows
  {
    if |rows| > 1 {
      hide TaggedLess;
      var init, x := rows[..|rows| - 1], rows[|rows| - 1];
      DropRowsSorted(init);
      assert rows == init + [x];
      var d := DropRows(init);
      forall i | 0 <= i < |d| ensures !TaggedLess(x, d[i]) {
        assert d[i] in init;
        var k :| 0 <= k < |init| && init[k] == d[i];
        assert rows[k] == init[k];
      }
    }
  }

  /** Sorting and deduplicating a batch yields the specified stream of every group. */
  lemma BatchStream(before: seq<Tagged>, sorted: seq<Tagged>, g: GroupKey)
    requires SortedRows(sorted) && multiset(sorted) == multiset(before)
    requires Distinct(Elements(Of(before, g)))
    ensures IsStreamOf(Of(DropRows(sorted), g), Elements(Of(before, g)))
  {
    hide Sorted, Distinct, IsStreamOf;
    OfSorted(sorted, g);
    DropRowsByGroup(sorted, g);
    OfMembers(sorted, g);
    OfMembers(before, g);
    forall e ensures e in Of(sorted, g) <==> e in Of(before, g) {
      assert (g, e) in multiset(sorted) <==> (g, e) in multiset(before);
    }
    assert Elements(Of(sorted, g)) == Elements(Of(before, g));
    DropRepeatsIsStream(Of(sorted, g));
  }
}
