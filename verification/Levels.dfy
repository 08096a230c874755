/**
 * Definition and repetition levels, and the independent reader that undoes
 * them: the OPTIONAL key columns, and the MAP shape of the "Maps" section of the
 * Apache Parquet LogicalTypes specification with the levels of the "Nested
 * Encoding" section of the Parquet format README.
 */
module Levels {
  import opened Bytes
  import opened Decimal
  import opened Codec
  import opened Extra

  // ---- optional columns -------------------------------------------------------------

  function Present(vs: seq<Value>): seq<Value> {
    if vs == [] then [] else Present(vs[..|vs| - 1]) + if vs[|vs| - 1].Null? then [] else [vs[|vs| - 1]]
  }

  function DefsOf(vs: seq<Value>): (r: seq<nat>)
    ensures |r| == |vs|
  {
    if vs == [] then [] else DefsOf(vs[..|vs| - 1]) + [if vs[|vs| - 1].Null? then 0 else 1]
  }

  function CountOnes(defs: seq<nat>): nat {
    if defs == [] then 0 else CountOnes(defs[..|defs| - 1]) + if defs[|defs| - 1] == 1 then 1 else 0
  }

  lemma {:induction false} PresentConcat(a: seq<Value>, b: seq<Value>)
    ensures Present(a + b) == Present(a) + Present(b) && DefsOf(a + b) == DefsOf(a) + DefsOf(b)
    decreases |b|
  {
    if b == [] {
      assert a + b == a;
    } else {
      assert (a + b)[..|a + b| - 1] == a + b[..|b| - 1];
      PresentConcat(a, b[..|b| - 1]);
    }
  }

  lemma {:induction false} OnesArePresent(vs: seq<Value>)
    ensures CountOnes(DefsOf(vs)) == |Present(vs)|
  {
    if vs != [] { OnesArePresent(vs[..|vs| - 1]); }
  }

  /** Read a column back: a value for each level 1, null for each level 0. */
  function ReadOptional(vals: seq<Value>, defs: seq<nat>): seq<Value>
    decreases |defs|
  {
    if defs == [] then []
    else if defs[|defs| - 1] == 0 then ReadOptional(vals, defs[..|defs| - 1]) + [Null]
    else if vals == [] then []
    else ReadOptional(vals[..|vals| - 1], defs[..|defs| - 1]) + [vals[|vals| - 1]]
  }

  lemma ReadOneMore(vals: seq<Value>, defs: seq<nat>, v: Value)
    ensures ReadOptional(vals, defs + [0]) == ReadOptional(vals, defs) + [Null]
    ensures ReadOptional(vals + [v], defs + [1]) == ReadOptional(vals, defs) + [v]
  {
    var d0, d1, w := defs + [0], defs + [1], vals + [v];
    assert d0[..|d0| - 1] == defs && d1[..|d1| - 1] == defs && w[..|w| - 1] == vals;
  }

  lemma {:induction false} OptionalRoundTrip(vs: seq<Value>)
    ensures ReadOptional(Present(vs), DefsOf(vs)) == vs
  {
    if vs != [] {
      hide ReadOptional;
      var init, v := vs[..|vs| - 1], vs[|vs| - 1];
      OptionalRoundTrip(init);
      ReadOneMore(Present(init), DefsOf(init), v);
      assert Present(init) + [] == Present(init) && vs == init + [v];
    } else {
      assert ReadOptional([], []) == [];
    }
  }

  // ---- maps --------------------------------------------------------------------------

  type Entries = seq<Pair>

  function Total<T>(maps: seq<seq<T>>): nat {
    if maps == [] then 0 else Total(maps[..|maps| - 1]) + |maps[|maps| - 1]|
  }

  function Flatten<T>(maps: seq<seq<T>>): (r: seq<T>)
    ensures |r| == Total(maps)
  {
    if maps == [] then [] else Flatten(maps[..|maps| - 1]) + maps[|maps| - 1]
  }

  function Counts<T>(maps: seq<seq<T>>): (r: seq<nat>)
    ensures |r| == |maps| && forall i :: 0 <= i < |maps| ==> r[i] == |maps[i]|
  {
    if maps == [] then [] else Counts(maps[..|maps| - 1]) + [|maps[|maps| - 1]|]
  }

  lemma FlattenLast<T>(maps: seq<seq<T>>, row: seq<T>)
    ensures Flatten(maps + [row]) == Flatten(maps) + row && Total(maps + [row]) == Total(maps) + |row|
    ensures Counts(maps + [row]) == Counts(maps) + [|row|]
  {
    var s := maps + [row];
    assert s[..|s| - 1] == maps;
  }

  lemma {:induction false} FlattenConcat<T>(a: seq<seq<T>>, b: seq<seq<T>>)
    ensures Flatten(a + b) == Flatten(a) + Flatten(b)
    ensures Total(a + b) == Total(a) + Total(b) && Counts(a + b) == Counts(a) + Counts(b)
    decreases |b|
  {
    if b == [] {
      assert a + b == a && Flatten(b) == [] && Total(b) == 0 && Counts(b) == [];
    } else {
      hide Flatten, Total, Counts;
      var init, row := b[..|b| - 1], b[|b| - 1];
      assert b == init + [row] && a + b == (a + init) + [row];
      FlattenConcat(a, init);
      FlattenLast(init, row);
      FlattenLast(a + init, row);
    }
  }

  /** The repetition levels of one row's map: its first slot opens the row. */
  function RowReps(count: nat): (r: seq<nat>)
    ensures |r| == if count == 0 then 1 else count
    ensures forall i :: 0 <= i < |r| ==> r[i] == if i == 0 then 0 else 1
  {
    if count <= 1 then [0] else RowReps(count - 1) + [1]
  }

  /** `slots` copies of the level of a present entry, or one 0 for an empty map. */
  function RowDefs(count: nat, level: nat): (r: seq<nat>)
    ensures |r| == if count == 0 then 1 else count
    ensures forall i :: 0 <= i < |r| ==> r[i] == if count == 0 then 0 else level
  {
    if count == 0 then [0] else if count == 1 then [level] else RowDefs(count - 1, level) + [level]
  }

  function Reps(counts: seq<nat>): seq<nat> {
    if counts == [] then [] else Reps(counts[..|counts| - 1]) + RowReps(counts[|counts| - 1])
  }

  function Defs(counts: seq<nat>, level: nat): seq<nat> {
    if counts == [] then [] else Defs(counts[..|counts| - 1], level) + RowDefs(counts[|counts| - 1], level)
  }

  function Sum(counts: seq<nat>): nat {
    if counts == [] then 0 else Sum(counts[..|counts| - 1]) + counts[|counts| - 1]
  }

  /** One row's slots. */
  method RowLevels(count: nat) returns (keyDefs: seq<nat>, valueDefs: seq<nat>, reps: seq<nat>)
    ensures keyDefs == RowDefs(count, 1) && valueDefs == RowDefs(count, 2) && reps == RowReps(count)
  {
    if count == 0 { return [0], [0], [0]; }
    keyDefs, valueDefs, reps := [], [], [];
    for i := 0 to count
      invariant |keyDefs| == |valueDefs| == |reps| == i
      invariant forall k :: 0 <= k < i ==> keyDefs[k] == 1 && valueDefs[k] == 2 && reps[k] == if k == 0 then 0 else 1
    {
      keyDefs, valueDefs, reps := keyDefs + [1], valueDefs + [2], reps + [if i == 0 then 0 else 1];
    }
  }

  lemma LevelsLast(counts: seq<nat>, n: nat)
    requires n < |counts|
    ensures forall level :: Defs(counts[..n + 1], level) == Defs(counts[..n], level) + RowDefs(counts[n], level)
    ensures Reps(counts[..n + 1]) == Reps(counts[..n]) + RowReps(counts[n])
    ensures Sum(counts[..n + 1]) == Sum(counts[..n]) + counts[n]
  {
    assert counts[..n + 1][..n] == counts[..n];
  }

  /** Levels for the rows of one group; `entries` says how far the value cursor moves. */
  method MapLevels(counts: seq<nat>) returns (keyDefs: seq<nat>, valueDefs: seq<nat>, reps: seq<nat>, entries: nat)
    ensures keyDefs == Defs(counts, 1) && valueDefs == Defs(counts, 2) && reps == Reps(counts) && entries == Sum(counts)
  {
    hide RowDefs, RowReps;
    keyDefs, valueDefs, reps, entries := [], [], [], 0;
    for n := 0 to |counts|
      invariant keyDefs == Defs(counts[..n], 1) && valueDefs == Defs(counts[..n], 2)
      invariant reps == Reps(counts[..n]) && entries == Sum(counts[..n])
    {
      hide Defs, Reps, Sum;
      var kd, vd, rp := RowLevels(counts[n]);
      LevelsLast(counts, n);
      keyDefs, valueDefs, reps, entries := keyDefs + kd, valueDefs + vd, reps + rp, entries + counts[n];
    }
    assert counts[..|counts|] == counts;
  }

  /**
   * Read one leaf column of a repeated group back, last slot first: repetition 0 opens a row, 1 continues
   * the one before; definition 0 is an empty row, the column's maximum a value, and a level between an
   * entry whose value is null.
   */
  function ReadColumn(defs: seq<nat>, reps: seq<nat>, vals: seq<Text>, max: nat): seq<seq<Option<Text>>>
    requires |defs| == |reps|
    decreases |defs|
  {
    if defs == [] then []
    else
      var n := |defs| - 1;
      if defs[n] == 0 then ReadColumn(defs[..n], reps[..n], vals, max) + [[]]
      else if defs[n] < max then Slotted(ReadColumn(defs[..n], reps[..n], vals, max), reps[n], None)
      else if defs[n] > max || vals == [] then []
      else Slotted(ReadColumn(defs[..n], reps[..n], vals[..|vals| - 1], max), reps[n], Some(vals[|vals| - 1]))
  }

  /** One more entry: in a row of its own, or in the row before. */
  function Slotted(before: seq<seq<Option<Text>>>, rep: nat, e: Option<Text>): seq<seq<Option<Text>>> {
    if rep == 0 || before == [] then before + [[e]] else before[..|before| - 1] + [before[|before| - 1] + [e]]
  }

  function AllSome(row: seq<Text>): (r: seq<Option<Text>>)
    ensures |r| == |row| && forall i :: 0 <= i < |row| ==> r[i] == Some(row[i])
  {
    seq(|row|, i requires 0 <= i < |row| => Some(row[i]))
  }

  function SomeRows(rows: seq<seq<Text>>): (r: seq<seq<Option<Text>>>)
    ensures |r| == |rows| && forall i :: 0 <= i < |rows| ==> r[i] == AllSome(rows[i])
  {
    seq(|rows|, i requires 0 <= i < |rows| => AllSome(rows[i]))
  }

  lemma ReadSlot(defs: seq<nat>, reps: seq<nat>, vals: seq<Text>, v: Text, max: nat, rep: nat)
    requires |defs| == |reps| && max > 0
    ensures ReadColumn(defs + [0], reps + [rep], vals, max) == ReadColumn(defs, reps, vals, max) + [[]]
    ensures ReadColumn(defs + [max], reps + [rep], vals + [v], max)
              == Slotted(ReadColumn(defs, reps, vals, max), rep, Some(v))
  {
    hide Slotted;
    var d0, d, r, w := defs + [0], defs + [max], reps + [rep], vals + [v];
    assert d0[..|d0| - 1] == defs && d[..|d| - 1] == defs && r[..|r| - 1] == reps && w[..|w| - 1] == vals;
  }

  lemma SlottedOn(before: seq<seq<Option<Text>>>, row: seq<Text>, v: Text)
    ensures Slotted(before, 0, Some(v)) == before + [AllSome([v])]
    ensures Slotted(before + [AllSome(row)], 1, Some(v)) == before + [AllSome(row + [v])]
  {
    assert AllSome(row) + [Some(v)] == AllSome(row + [v]);
    assert AllSome([v]) == [Some(v)];
    var s := before + [AllSome(row)];
    assert s[..|s| - 1] == before;
  }

  /** Reading one more row, slot by slot. */
  lemma {:induction false} ReadRow(defs: seq<nat>, reps: seq<nat>, vals: seq<Text>, row: seq<Text>, max: nat)
    requires |defs| == |reps| && max > 0
    ensures ReadColumn(defs + RowDefs(|row|, max), reps + RowReps(|row|), vals + row, max)
              == ReadColumn(defs, reps, vals, max) + [AllSome(row)]
    decreases |row|
  {
    hide ReadColumn, Slotted, AllSome;
    var before := ReadColumn(defs, reps, vals, max);
    if |row| == 0 {
      ReadSlot(defs, reps, vals, [], max, 0);
      assert vals + row == vals && AllSome(row) == [];
    } else {
      var init, v := row[..|row| - 1], row[|row| - 1];
      assert row == init + [v] && vals + row == (vals + init) + [v];
      SlottedOn(before, init, v);
      if |row| == 1 {
        ReadSlot(defs, reps, vals, v, max, 0);
        assert row == [v];
      } else {
        ReadRow(defs, reps, vals, init, max);
        ReadSlot(defs + RowDefs(|init|, max), reps + RowReps(|init|), vals + init, v, max, 1);
        assert defs + RowDefs(|row|, max) == (defs + RowDefs(|init|, max)) + [max];
        assert reps + RowReps(|row|) == (reps + RowReps(|init|)) + [1];
      }
    }
  }

  /** The levels of a column's maximum and its values read back as the rows, every value present. */
  lemma {:induction false} MapRoundTrip(rows: seq<seq<Text>>, max: nat)
    requires max > 0
    ensures |Defs(Counts(rows), max)| == |Reps(Counts(rows))|
    ensures ReadColumn(Defs(Counts(rows), max), Reps(Counts(rows)), Flatten(rows), max) == SomeRows(rows)
  {
    hide ReadColumn;
    if rows == [] {
      NothingRead(max);
    } else {
      var init, row := rows[..|rows| - 1], rows[|rows| - 1];
      MapRoundTrip(init, max);
      var counts := Counts(rows);
      assert counts[..|counts| - 1] == Counts(init) && counts[|counts| - 1] == |row|;
      ReadRow(Defs(Counts(init), max), Reps(Counts(init)), Flatten(init), row, max);
      assert rows == init + [row] && SomeRows(rows) == SomeRows(init) + [AllSome(row)];
    }
  }

  lemma NothingRead(max: nat)
    ensures ReadColumn([], [], [], max) == []
  {
  }

  /** A slot written at a level under the maximum would read as a null entry. */
  lemma LowLevelIsNull(defs: seq<nat>, reps: seq<nat>, vals: seq<Text>, level: nat, rep: nat, max: nat)
    requires |defs| == |reps| && 0 < level < max
    ensures var rows := ReadColumn(defs + [level], reps + [rep], vals, max);
            && rows != [] && rows[|rows| - 1] != []
            && rows[|rows| - 1][|rows[|rows| - 1]| - 1] == None
  {
    var d, r := defs + [level], reps + [rep];
    assert d[..|d| - 1] == defs && r[..|r| - 1] == reps;
  }

  /** A group never starts inside a row. */
  lemma {:induction false} GroupOpensARow(counts: seq<nat>)
    ensures counts != [] ==> Reps(counts) != [] && Reps(counts)[0] == 0
  {
    if |counts| > 1 { GroupOpensARow(counts[..|counts| - 1]); }
  }

  lemma {:induction false} SumIsTotal<T>(maps: seq<seq<T>>)
    ensures Sum(Counts(maps)) == Total(maps)
  {
    if maps != [] {
      SumIsTotal(maps[..|maps| - 1]);
      assert Counts(maps)[..|maps| - 1] == Counts(maps[..|maps| - 1]);
    }
  }
}
