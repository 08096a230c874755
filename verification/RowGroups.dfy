/**
 * Cutting accumulated columns into row groups, whole-file and streaming, and
 * reading a group back (src/flush/parquet.rs).
 */
module RowGroups {
  import opened Bytes
  import opened Decimal
  import opened Codec
  import opened Extra
  import opened StrColumns
  import opened Levels
  import opened Columns

  /** One OPTIONAL column of a group: its present values and a level per row. */
  datatype Chunk = Chunk(vals: seq<Value>, defs: seq<nat>)

  /** The column batches handed to the Parquet writer for one row group. */
  datatype Group = Group(ts: seq<u64>, id: seq<Text>, keys: seq<Chunk>,
                         names: seq<Text>, nameDefs: seq<nat>, contents: seq<Text>, contentDefs: seq<nat>,
                         reps: seq<nat>,
                         data: seq<Text>)

  /** What the batches of exactly these rows are. */
  ghost predicate IsGroupOf(g: Group, width: nat, rows: seq<Row>) {
    && g.ts == Times(rows) && g.id == Ids(rows) && g.data == Datas(rows)
    && |g.keys| == width && (forall j :: 0 <= j < width ==>
         g.keys[j] == Chunk(Present(Column(rows, j)), DefsOf(Column(rows, j))))
    && g.names == PairNames(Flatten(Maps(rows))) && g.contents == Contents(Flatten(Maps(rows)))
    && g.nameDefs == Defs(Counts(Maps(rows)), 1) && g.contentDefs == Defs(Counts(Maps(rows)), 2)
    && g.reps == Reps(Counts(Maps(rows)))
  }

  lemma GroupUnique(g: Group, h: Group, width: nat, rows: seq<Row>)
    requires IsGroupOf(g, width, rows) && IsGroupOf(h, width, rows)
    ensures g == h
  {
    hide Times, Ids, Datas, Column, Present, DefsOf, PairNames, Contents, Flatten, Maps, Counts, Defs, Reps;
    assert g.keys == h.keys;
  }

  // ---- writing one group --------------------------------------------------------------------

  /** How many values of each column earlier groups have used. */
  datatype Cursors = Cursors(keys: seq<nat>, extra: nat)

  ghost predicate CursorsAt(c: Cursors, width: nat, before: seq<Row>) {
    && |c.keys| == width && (forall j :: 0 <= j < width ==> c.keys[j] == |Present(Column(before, j))|)
    && c.extra == Total(Maps(before))
  }

  function AsStrs(texts: seq<Text>): (r: seq<Value>)
    ensures |r| == |texts| && forall i :: 0 <= i < |texts| ==> r[i] == Str(texts[i])
  {
    if texts == [] then [] else AsStrs(texts[..|texts| - 1]) + [Str(texts[|texts| - 1])]
  }

  /** Values of the rows in between: the cursor skips one value for each present row before. */
  lemma PresentBetween(vs: seq<Value>, start: nat, end: nat)
    requires start <= end <= |vs|
    ensures var from := |Present(vs[..start])|;
            var to := from + |Present(vs[start..end])|;
            && to == |Present(vs[..end])| <= |Present(vs)| && Present(vs)[from..to] == Present(vs[start..end])
    ensures DefsOf(vs)[start..end] == DefsOf(vs[start..end])
    ensures CountOnes(DefsOf(vs[start..end])) == |Present(vs[start..end])|
  {
    hide Present, DefsOf, CountOnes;
    var a, b, c := vs[..start], vs[start..end], vs[end..];
    assert vs[..end] == a + b && vs == a + b + c;
    PresentConcat(a, b);
    PresentConcat(a + b, c);
    OnesArePresent(b);
  }

  lemma {:induction false} PresentAreStrs(vs: seq<Value>)
    requires forall i :: 0 <= i < |vs| ==> Admits(StrKey, vs[i])
    ensures forall i :: 0 <= i < |Present(vs)| ==> Present(vs)[i].Str?
  {
    if vs != [] { PresentAreStrs(vs[..|vs| - 1]); }
  }

  lemma StrsOfTexts(vs: seq<Value>, from: nat, to: nat)
    requires from <= to <= |vs| && forall i :: 0 <= i < |vs| ==> vs[i].Str?
    ensures AsStrs(Texts(vs)[from..to]) == vs[from..to]
  {
    hide AsStrs, Texts;
    var a, b := AsStrs(Texts(vs)[from..to]), vs[from..to];
    forall i | 0 <= i < to - from ensures a[i] == b[i] {
      assert Texts(vs)[from..to][i] == Texts(vs)[from + i] && b[i] == vs[from + i];
    }
  }

  /** One key column of a group: its slice of values and levels, and where the next group starts. */
  method WriteKey(c: KeyColumn, start: nat, end: nat, from: nat, ghost ty: KeyType, ghost vs: seq<Value>)
    returns (chunk: Chunk, to: nat)
    requires ColumnHolds(c, ty, vs) && start <= end <= |vs| && from == |Present(vs[..start])|
    ensures chunk == Chunk(Present(vs[start..end]), DefsOf(vs[start..end])) && to == |Present(vs[..end])|
  {
    hide Present, DefsOf, Holds, CountOnes, Texts, AsStrs;
    PresentBetween(vs, start, end);
    var defs := c.defs[start..end];
    to := from + CountOnes(defs);
    match c.vals {
      case Scalars(_, xs) =>
        chunk := Chunk(xs[from..to], defs);
      case Strs(col) =>
        PresentAreStrs(vs);
        StrsOfTexts(Present(vs), from, to);
        var texts := Arrays(col, from, to, Texts(Present(vs)));
        chunk := Chunk(AsStrs(texts), defs);
    }
  }

  lemma ColumnSlice(rows: seq<Row>, start: nat, end: nat, j: nat)
    requires start <= end <= |rows|
    ensures Column(rows, j)[start..end] == Column(rows[start..end], j)
    ensures Column(rows, j)[..start] == Column(rows[..start], j)
    ensures Column(rows, j)[..end] == Column(rows[..end], j)
  {
    hide *;
    ColumnPart(rows, start, end, j);
    ColumnPart(rows, 0, start, j);
    ColumnPart(rows, 0, end, j);
    assert rows[0..start] == rows[..start] && rows[0..end] == rows[..end];
    assert Column(rows, j)[0..start] == Column(rows, j)[..start] && Column(rows, j)[0..end] == Column(rows, j)[..end];
  }

  lemma ColumnPart(rows: seq<Row>, start: nat, end: nat, j: nat)
    requires start <= end <= |rows|
    ensures Column(rows, j)[start..end] == Column(rows[start..end], j)
  {
    hide Column, Cell;
    forall i | 0 <= i < end - start ensures Column(rows, j)[start..end][i] == Column(rows[start..end], j)[i] {
      assert rows[start..end][i] == rows[start + i];
    }
    SameSeqs(Column(rows, j)[start..end], Column(rows[start..end], j));
  }

  /** All key columns of a group. */
  method WriteKeys(keys: seq<KeyColumn>, start: nat, end: nat, cursors: seq<nat>, ghost types: seq<KeyType>,
                   ghost rows: seq<Row>)
    returns (chunks: seq<Chunk>, next: seq<nat>)
    requires KeysHold(keys, types, rows) && start <= end <= |rows|
    requires |cursors| == |types| && forall j :: 0 <= j < |types| ==> cursors[j] == |Present(Column(rows[..start], j))|
    ensures |chunks| == |next| == |types|
    ensures forall j :: 0 <= j < |types| ==>
              chunks[j] == Chunk(Present(Column(rows[start..end], j)), DefsOf(Column(rows[start..end], j)))
    ensures forall j :: 0 <= j < |types| ==> next[j] == |Present(Column(rows[..end], j))|
  {
    hide ColumnHolds, Present, DefsOf, Column;
    chunks, next := [], cursors;
    for j := 0 to |keys|
      invariant |chunks| == j && |next| == |types|
      invariant forall k :: 0 <= k < j ==>
                  chunks[k] == Chunk(Present(Column(rows[start..end], k)), DefsOf(Column(rows[start..end], k)))
      invariant forall k :: 0 <= k < j ==> next[k] == |Present(Column(rows[..end], k))|
      invariant forall k :: j <= k < |types| ==> next[k] == cursors[k]
    {
      ColumnSlice(rows, start, end, j);
      var chunk, to := WriteKey(keys[j], start, end, next[j], types[j], Column(rows, j));
      chunks, next := chunks + [chunk], next[j := to];
    }
  }

  /** Entries of the rows in between. */
  lemma EntriesBetween(rows: seq<Row>, start: nat, end: nat)
    requires start <= end <= |rows|
    ensures var maps, from := Maps(rows[start..end]), Total(Maps(rows[..start]));
            var to := from + Sum(Counts(maps));
            && to == Total(Maps(rows[..end])) <= |Flatten(Maps(rows))| && Flatten(Maps(rows))[from..to] == Flatten(maps)
            && Counts(Maps(rows))[start..end] == Counts(maps)
            && PairNames(Flatten(Maps(rows)))[from..to] == PairNames(Flatten(maps))
            && Contents(Flatten(Maps(rows)))[from..to] == Contents(Flatten(maps))
  {
    hide Maps, Flatten, Counts, PairNames, Contents, Sum, Total, Canonicalise;
    var a, b, c := Maps(rows[..start]), Maps(rows[start..end]), Maps(rows[end..]);
    assert Maps(rows[..end]) == a + b;
    assert Maps(rows) == a + b + c;
    FlattenConcat(a, b);
    FlattenConcat(a + b, c);
    SumIsTotal(b);
    var all, from, to := Flatten(Maps(rows)), Total(a), Total(a) + Total(b);
    assert all == Flatten(a) + Flatten(b) + Flatten(c);
    assert all[from..to] == Flatten(b);
    assert PairNames(all)[from..to] == PairNames(all[from..to]) && Contents(all)[from..to] == Contents(all[from..to]);
  }

  lemma PlainSlices(rows: seq<Row>, start: nat, end: nat)
    requires start <= end <= |rows|
    ensures Times(rows)[start..end] == Times(rows[start..end]) && Ids(rows)[start..end] == Ids(rows[start..end])
    ensures Datas(rows)[start..end] == Datas(rows[start..end])
  {
    hide *;
    TimesSlice(rows, start, end);
    IdsSlice(rows, start, end);
    DatasSlice(rows, start, end);
  }

  lemma TimesSlice(rows: seq<Row>, start: nat, end: nat)
    requires start <= end <= |rows|
    ensures Times(rows)[start..end] == Times(rows[start..end])
  {
    hide Times;
    forall i | 0 <= i < end - start ensures Times(rows)[start..end][i] == Times(rows[start..end])[i] {
      assert rows[start..end][i] == rows[start + i];
    }
    SameSeqs(Times(rows)[start..end], Times(rows[start..end]));
  }

  lemma IdsSlice(rows: seq<Row>, start: nat, end: nat)
    requires start <= end <= |rows|
    ensures Ids(rows)[start..end] == Ids(rows[start..end])
  {
    hide Ids;
    forall i | 0 <= i < end - start ensures Ids(rows)[start..end][i] == Ids(rows[start..end])[i] {
      assert rows[start..end][i] == rows[start + i];
    }
    SameSeqs(Ids(rows)[start..end], Ids(rows[start..end]));
  }

  lemma DatasSlice(rows: seq<Row>, start: nat, end: nat)
    requires start <= end <= |rows|
    ensures Datas(rows)[start..end] == Datas(rows[start..end])
  {
    hide Datas;
    forall i | 0 <= i < end - start ensures Datas(rows)[start..end][i] == Datas(rows[start..end])[i] {
      assert rows[start..end][i] == rows[start + i];
    }
    SameSeqs(Datas(rows)[start..end], Datas(rows[start..end]));
  }

  lemma SameSeqs<T>(a: seq<T>, b: seq<T>)
    requires |a| == |b| && forall i :: 0 <= i < |a| ==> a[i] == b[i]
    ensures a == b
  {
  }

  /** Rows `[start, end)` as one row group; the cursors carry over from the groups before. */
  method WriteGroup(c: Cols, start: nat, end: nat, cursors: Cursors, ghost types: seq<KeyType>, ghost rows: seq<Row>)
    returns (g: Group, next: Cursors)
    requires ColsHold(c, types, rows) && start <= end <= |rows| && CursorsAt(cursors, |types|, rows[..start])
    ensures IsGroupOf(g, |types|, rows[start..end]) && CursorsAt(next, |types|, rows[..end])
  {
    hide Holds, KeysHold, Present, DefsOf, Column, Maps, Flatten, Counts, PairNames, Contents, Sum, Total, Defs, Reps,
      Times, Ids, Datas, RowFits;
    PlainSlices(rows, start, end);
    EntriesBetween(rows, start, end);
    var ids := Arrays(c.id, start, end, Ids(rows));
    var chunks, keys := WriteKeys(c.keys, start, end, cursors.keys, types, rows);
    var nameDefs, contentDefs, reps, entries := MapLevels(c.counts[start..end]);
    var from, to := cursors.extra, cursors.extra + entries;
    var names := Arrays(c.extraKeys, from, to, PairNames(Flatten(Maps(rows))));
    var contents := Arrays(c.extraValues, from, to, Contents(Flatten(Maps(rows))));
    var data := Arrays(c.data, start, end, Datas(rows));
    g := Group(c.ts[start..end], ids, chunks, names, nameDefs, contents, contentDefs, reps, data);
    next := Cursors(keys, to);
  }

  // ---- the whole file, and streaming ----------------------------------------------------------

  /** Rows cut every `n`. */
  function CutRows(rows: seq<Row>, n: nat): seq<seq<Row>>
    requires n > 0
    decreases |rows|
  {
    if rows == [] then [] else if |rows| <= n then [rows] else [rows[..n]] + CutRows(rows[n..], n)
  }

  ghost predicate AreGroupsOf(groups: seq<Group>, width: nat, cut: seq<seq<Row>>) {
    |groups| == |cut| && forall i :: 0 <= i < |cut| ==> IsGroupOf(groups[i], width, cut[i])
  }

  /** The configured size, but never 0. */
  function AtLeastOne(n: nat): (r: nat)
    ensures r >= 1 && r >= n && (r == 1 || r == n)
  {
    if n == 0 then 1 else n
  }

  /** Cutting one more group off the rest. */
  lemma CutStep(rows: seq<Row>, n: nat, start: nat, end: nat, done: seq<seq<Row>>)
    requires n > 0 && start < |rows| && end == (if start + n < |rows| then start + n else |rows|)
    requires CutRows(rows, n) == done + CutRows(rows[start..], n)
    ensures CutRows(rows, n) == done + [rows[start..end]] + CutRows(rows[end..], n)
  {
    var rest := rows[start..];
    if |rest| <= n {
      assert rest == rows[start..end] && rows[end..] == [];
    } else {
      assert rest[..n] == rows[start..end] && rest[n..] == rows[end..];
    }
  }

  /** Write everything at once, cursors carried from group to group. */
  method WriteFile(c: Cols, rowGroupRows: nat, ghost types: seq<KeyType>, ghost rows: seq<Row>)
    returns (groups: seq<Group>)
    requires ColsHold(c, types, rows)
    ensures AreGroupsOf(groups, |types|, CutRows(rows, AtLeastOne(rowGroupRows)))
  {
    hide ColsHold, IsGroupOf, CutRows;
    KeysAreTypes(c, types, rows);
    RowCount(c, types, rows);
    var n := AtLeastOne(rowGroupRows);
    groups := [];
    ghost var done := [];
    var cursors := StartCursors(|c.keys|);
    var start := 0;
    assert rows[0..] == rows && rows[..0] == [];
    while start < c.rows
      invariant start <= |rows| && CursorsAt(cursors, |types|, rows[..start])
      invariant CutRows(rows, n) == done + CutRows(rows[start..], n)
      invariant AreGroupsOf(groups, |types|, done)
    {
      var end := if start + n < c.rows then start + n else c.rows;
      var g, next := WriteGroup(c, start, end, cursors, types, rows);
      CutStep(rows, n, start, end, done);
      groups, done, cursors, start := groups + [g], done + [rows[start..end]], next, end;
    }
    NothingToCut(rows[start..], n);
  }

  lemma RowCount(c: Cols, types: seq<KeyType>, rows: seq<Row>)
    requires ColsHold(c, types, rows)
    ensures c.rows == |rows|
  {
  }

  lemma NothingToCut(rows: seq<Row>, n: nat)
    requires n > 0 && rows == []
    ensures CutRows(rows, n) == []
  {
  }

  /** All cursors at zero. */
  method StartCursors(width: nat) returns (c: Cursors)
    ensures CursorsAt(c, width, [])
  {
    var keys := [];
    for j := 0 to width
      invariant |keys| == j && forall k :: 0 <= k < j ==> keys[k] == 0
    {
      keys := keys + [0];
    }
    c := Cursors(keys, 0);
  }

  function Joined(cut: seq<seq<Row>>): seq<Row> {
    if cut == [] then [] else Joined(cut[..|cut| - 1]) + cut[|cut| - 1]
  }

  /** Full groups followed by one shorter one are how the whole would be cut. */
  lemma {:induction false} FullGroupsAreCut(done: seq<seq<Row>>, rest: seq<Row>, n: nat)
    requires n > 0 && |rest| < n && forall i :: 0 <= i < |done| ==> |done[i]| == n
    ensures CutRows(Joined(done) + rest, n) == done + if rest == [] then [] else [rest]
    decreases |done|
  {
    if done == [] {
      assert Joined(done) + rest == rest;
    } else {
      JoinedFirst(done);
      var all := Joined(done) + rest;
      assert all[..n] == done[0] && all[n..] == Joined(done[1..]) + rest;
      FullGroupsAreCut(done[1..], rest, n);
      assert done == [done[0]] + done[1..];
      if all[n..] == [] { OnlyOne(done, rest, n); }
    }
  }

  lemma {:induction false} JoinedFirst(done: seq<seq<Row>>)
    requires done != []
    ensures Joined(done) == done[0] + Joined(done[1..])
  {
    if |done| > 1 {
      JoinedFirst(done[..|done| - 1]);
      assert done[..|done| - 1][1..] == done[1..][..|done| - 2];
    }
  }

  lemma {:induction false} OnlyOne(done: seq<seq<Row>>, rest: seq<Row>, n: nat)
    requires n > 0 && done != [] && Joined(done[1..]) + rest == [] && forall i :: 0 <= i < |done| ==> |done[i]| == n
    ensures |done| == 1 && rest == []
  {
    if |done| > 1 { JoinedFirst(done[1..]); }
  }

  /** A file streamed one row group at a time: the builder is cleared and the cursors restart at zero after each. */
  class PartitionWriter {
    const groupRows: nat
    const builder: RowBuilder
    var groups: seq<Group>
    var rows: nat
    /** The rows of the groups written so far. */
    ghost var done: seq<seq<Row>>

    ghost predicate Valid()
      reads this, builder
    {
      && groupRows > 0 && builder.Valid() && |builder.rows| < groupRows
      && AreGroupsOf(groups, |builder.types|, done) && (forall i :: 0 <= i < |done| ==> |done[i]| == groupRows)
      && rows == |Joined(done)| + |builder.rows|
    }

    /** Every row appended. */
    ghost function All(): seq<Row>
      reads this, builder
    {
      Joined(done) + builder.rows
    }

    constructor (types: seq<KeyType>, rowGroupRows: nat)
      ensures Valid() && fresh(builder) && All() == []
      ensures builder.types == types && groupRows == AtLeastOne(rowGroupRows)
    {
      groupRows := AtLeastOne(rowGroupRows);
      builder := new RowBuilder(types);
      groups, rows, done := [], 0, [];
    }

    /** Append one row; a full group is written out at once. */
    method Append(row: Row) returns (r: AppendResult)
      requires Valid()
      modifies this, builder
      ensures builder.types == old(builder.types)
      ensures r.Appended? <==> RowFits(builder.types, row)
      ensures r.Appended? ==> Valid() && All() == old(All()) + [row]
      ensures r.TsRange? <==> |row.keys| == |builder.types| && row.ts >= TS_END
    {
      hide IsGroupOf, ColsHold, RowFits;
      r := builder.Append(row);
      if !r.Appended? { return; }
      rows := rows + 1;
      RowCount(builder.cols, builder.types, builder.rows);
      if builder.cols.rows >= groupRows {
        WriteOut();
        JoinedLast(old(done), old(builder.rows) + [row]);
      }
    }

    /** The builder's rows as one group, cursors at zero. */
    method WriteOut()
      requires builder.Valid() && AreGroupsOf(groups, |builder.types|, done) && builder.rows != []
      modifies this, builder
      ensures builder.Valid() && builder.types == old(builder.types) && builder.rows == [] && rows == old(rows)
      ensures done == old(done) + [old(builder.rows)] && AreGroupsOf(groups, |builder.types|, done)
    {
      hide IsGroupOf, ColsHold;
      var c := builder.cols;
      ghost var rs := builder.rows;
      KeysAreTypes(c, builder.types, rs);
      RowCount(c, builder.types, rs);
      var cursors := StartCursors(|c.keys|);
      assert rs[..0] == [] && rs[0..c.rows] == rs;
      var g, next := WriteGroup(c, 0, c.rows, cursors, builder.types, rs);
      groups, done := groups + [g], done + [rs];
      builder.Clear();
    }

    static lemma JoinedLast(done: seq<seq<Row>>, more: seq<Row>)
      ensures Joined(done + [more]) == Joined(done) + more
    {
      var d := done + [more];
      assert d[..|d| - 1] == done;
    }

    /** Write what is left. The file holds exactly the groups the whole-file writer would cut. */
    method Finish() returns (count: nat)
      requires Valid()
      modifies this, builder
      ensures AreGroupsOf(groups, |old(builder.types)|, CutRows(old(All()), groupRows)) && count == |old(All())|
    {
      hide IsGroupOf, ColsHold, CutRows;
      FullGroupsAreCut(done, builder.rows, groupRows);
      RowCount(builder.cols, builder.types, builder.rows);
      assert done + [] == done;
      if builder.cols.rows > 0 { WriteOut(); }
      count := rows;
    }
  }

  /** Whole-file and streaming output of the same rows are the same groups. */
  lemma StreamingEqualsWhole(a: seq<Group>, b: seq<Group>, width: nat, cut: seq<seq<Row>>)
    requires AreGroupsOf(a, width, cut) && AreGroupsOf(b, width, cut)
    ensures a == b
  {
    hide IsGroupOf;
    forall i | 0 <= i < |cut| ensures a[i] == b[i] { GroupUnique(a[i], b[i], width, cut[i]); }
  }

  // ---- reading back -----------------------------------------------------------------------------

  function NameRows(maps: seq<Entries>): (r: seq<seq<Text>>)
    ensures |r| == |maps| && forall i :: 0 <= i < |maps| ==> r[i] == PairNames(maps[i])
  {
    seq(|maps|, i requires 0 <= i < |maps| => PairNames(maps[i]))
  }

  function ContentRows(maps: seq<Entries>): (r: seq<seq<Text>>)
    ensures |r| == |maps| && forall i :: 0 <= i < |maps| ==> r[i] == Contents(maps[i])
  {
    seq(|maps|, i requires 0 <= i < |maps| => Contents(maps[i]))
  }

  lemma PartsConcat(a: seq<Pair>, b: seq<Pair>)
    ensures PairNames(a + b) == PairNames(a) + PairNames(b) && Contents(a + b) == Contents(a) + Contents(b)
  {
    hide PairNames, Contents;
    SameSeqs(PairNames(a + b), PairNames(a) + PairNames(b));
    SameSeqs(Contents(a + b), Contents(a) + Contents(b));
  }

  /** The flattened names are the rows' names, flattened; so are the contents. */
  lemma {:induction false} PartsOfMaps(maps: seq<Entries>)
    ensures PairNames(Flatten(maps)) == Flatten(NameRows(maps)) && Contents(Flatten(maps)) == Flatten(ContentRows(maps))
    ensures Counts(NameRows(maps)) == Counts(maps) == Counts(ContentRows(maps))
  {
    hide PairNames, Contents;
    SameSeqs(Counts(NameRows(maps)), Counts(maps));
    SameSeqs(Counts(ContentRows(maps)), Counts(maps));
    if maps != [] {
      var n := |maps| - 1;
      PartsOfMaps(maps[..n]);
      PartsConcat(Flatten(maps[..n]), maps[n]);
      assert NameRows(maps)[..n] == NameRows(maps[..n]) && ContentRows(maps)[..n] == ContentRows(maps[..n]);
    }
  }

  /** The pairs of a map whose name and value columns read as these rows: no name and no value is null. */
  ghost predicate IsMap(pairs: seq<Pair>, names: seq<Option<Text>>, contents: seq<Option<Text>>) {
    && |pairs| == |names| == |contents|
    && forall k :: 0 <= k < |pairs| ==> names[k] == Some(pairs[k].0) && contents[k] == Some(pairs[k].1)
  }

  /** Row `i` as a reader assembles it from the group's columns, each decoded by its levels and maximum alone. */
  ghost predicate Reads(g: Group, i: nat, row: Row) {
    && i < |g.ts| && row.ts == g.ts[i] && i < |g.id| && row.id == g.id[i] && i < |g.data| && row.data == g.data[i]
    && |row.keys| == |g.keys|
    && (forall j :: 0 <= j < |g.keys| ==>
          i < |ReadOptional(g.keys[j].vals, g.keys[j].defs)|
          && row.keys[j] == ReadOptional(g.keys[j].vals, g.keys[j].defs)[i])
    && |g.nameDefs| == |g.reps| == |g.contentDefs|
    && (var names := ReadColumn(g.nameDefs, g.reps, g.names, 1);
        var contents := ReadColumn(g.contentDefs, g.reps, g.contents, 2);
        i < |names| && i < |contents| && IsMap(row.extra, names[i], contents[i]))
  }

  /** A group reads back as exactly its rows, `extra` in canonical form. */
  lemma GroupReassembles(g: Group, types: seq<KeyType>, rows: seq<Row>, i: nat)
    requires IsGroupOf(g, |types|, rows) && i < |rows| && RowFits(types, rows[i])
    ensures Reads(g, i, rows[i].(extra := Canonicalise(rows[i].extra)))
  {
    hide Times, Ids, Datas, Column, Present, DefsOf, PairNames, Contents, Flatten, Maps, Counts, Defs, Reps, ReadColumn,
      ReadOptional, Canonicalise, NameRows, ContentRows;
    forall j | 0 <= j < |types| ensures ReadOptional(g.keys[j].vals, g.keys[j].defs) == Column(rows, j) {
      OptionalRoundTrip(Column(rows, j));
    }
    var maps := Maps(rows);
    PartsOfMaps(maps);
    MapRoundTrip(NameRows(maps), 1);
    MapRoundTrip(ContentRows(maps), 2);
    assert IsMap(maps[i], AllSome(PairNames(maps[i])), AllSome(Contents(maps[i])));
  }

  /** Nothing else reads back: the reader's rows are determined. */
  lemma ReadsOne(g: Group, i: nat, a: Row, b: Row)
    requires Reads(g, i, a) && Reads(g, i, b)
    ensures a == b
  {
    hide ReadColumn, ReadOptional;
    assert a.keys == b.keys && a.extra == b.extra;
  }

  /** The groups of a file, in order, hold all rows in order: none is lost, repeated or split. */
  lemma {:induction false} CutKeepsRows(rows: seq<Row>, n: nat)
    requires n > 0
    ensures Joined(CutRows(rows, n)) == rows
    ensures forall i :: 0 <= i < |CutRows(rows, n)| ==> 0 < |CutRows(rows, n)[i]| <= n
    ensures forall i :: 0 <= i < |CutRows(rows, n)| - 1 ==> |CutRows(rows, n)[i]| == n
    decreases |rows|
  {
    if rows == [] {
    } else if |rows| <= n {
      assert Joined([rows]) == Joined([]) + rows;
    } else {
      CutKeepsRows(rows[n..], n);
      var cut := CutRows(rows, n);
      JoinedFirst(cut);
      assert cut[1..] == CutRows(rows[n..], n);
    }
  }

  /** The groups read, one after another, as these rows. */
  ghost predicate ReadBack(groups: seq<Group>, rows: seq<Row>) {
    exists cut :: Joined(cut) == rows && GroupsRead(groups, cut)
  }

  ghost predicate GroupsRead(groups: seq<Group>, cut: seq<seq<Row>>) {
    && |groups| == |cut|
    && (forall k :: 0 <= k < |cut| ==> |groups[k].ts| == |cut[k]|)
    && (forall k, i :: 0 <= k < |cut| && 0 <= i < |cut[k]| ==> Reads(groups[k], i, cut[k][i]))
  }

  /** A row as the file stores it. */
  function StoredRow(row: Row): Row { row.(extra := Canonicalise(row.extra)) }

  function StoredRows(rows: seq<Row>): (r: seq<Row>)
    ensures |r| == |rows| && forall i :: 0 <= i < |rows| ==> r[i] == StoredRow(rows[i])
  {
    if rows == [] then [] else StoredRows(rows[..|rows| - 1]) + [StoredRow(rows[|rows| - 1])]
  }

  function StoredCut(cut: seq<seq<Row>>): (r: seq<seq<Row>>)
    ensures |r| == |cut| && forall k :: 0 <= k < |cut| ==> r[k] == StoredRows(cut[k])
  {
    if cut == [] then [] else StoredCut(cut[..|cut| - 1]) + [StoredRows(cut[|cut| - 1])]
  }

  lemma StoredConcat(a: seq<Row>, b: seq<Row>)
    ensures StoredRows(a + b) == StoredRows(a) + StoredRows(b)
  {
    hide StoredRow, StoredRows;
    var l, r := StoredRows(a + b), StoredRows(a) + StoredRows(b);
    forall i | 0 <= i < |l| ensures l[i] == r[i] {
      assert l[i] == StoredRow((a + b)[i]);
    }
  }

  lemma {:induction false} JoinedStored(cut: seq<seq<Row>>)
    ensures Joined(StoredCut(cut)) == StoredRows(Joined(cut))
  {
    hide StoredRow, StoredRows;
    if cut == [] {
      assert StoredRows([]) == [];
    } else {
      JoinedStored(cut[..|cut| - 1]);
      StoredConcat(Joined(cut[..|cut| - 1]), cut[|cut| - 1]);
    }
  }

  lemma {:induction false} CutFits(types: seq<KeyType>, rows: seq<Row>, n: nat)
    requires n > 0 && forall i :: 0 <= i < |rows| ==> RowFits(types, rows[i])
    ensures forall k, i :: 0 <= k < |CutRows(rows, n)| && 0 <= i < |CutRows(rows, n)[k]| ==>
              RowFits(types, CutRows(rows, n)[k][i])
    decreases |rows|
  {
    hide RowFits;
    if |rows| > n { CutFits(types, rows[n..], n); }
  }

  lemma TimesCount(g: Group, width: nat, rows: seq<Row>)
    requires IsGroupOf(g, width, rows)
    ensures |g.ts| == |rows|
  {
  }

  /** A file of fitting rows reads back as exactly those rows, each with its canonical extra. */
  lemma FileReadsBack(groups: seq<Group>, types: seq<KeyType>, rows: seq<Row>, n: nat)
    requires n > 0 && AreGroupsOf(groups, |types|, CutRows(rows, n))
    requires forall i :: 0 <= i < |rows| ==> RowFits(types, rows[i])
    ensures ReadBack(groups, StoredRows(rows))
  {
    hide IsGroupOf, RowFits, CutRows, Reads, StoredRows, Joined;
    var cut := CutRows(rows, n);
    CutKeepsRows(rows, n);
    CutFits(types, rows, n);
    JoinedStored(cut);
    var stored := StoredCut(cut);
    forall k | 0 <= k < |cut| ensures |groups[k].ts| == |cut[k]| { TimesCount(groups[k], |types|, cut[k]); }
    forall k, i | 0 <= k < |stored| && 0 <= i < |stored[k]| ensures Reads(groups[k], i, stored[k][i]) {
      GroupReassembles(groups[k], types, cut[k], i);
    }
    assert GroupsRead(groups, stored);
  }

  /** It reads back as nothing else. */
  lemma ReadBackOnce(groups: seq<Group>, a: seq<Row>, b: seq<Row>)
    requires ReadBack(groups, a) && ReadBack(groups, b)
    ensures a == b
  {
    hide Reads, Joined;
    var p :| Joined(p) == a && GroupsRead(groups, p);
    var q :| Joined(q) == b && GroupsRead(groups, q);
    forall k | 0 <= k < |groups| ensures p[k] == q[k] {
      forall i | 0 <= i < |p[k]| ensures p[k][i] == q[k][i] { ReadsOne(groups[k], i, p[k][i], q[k][i]); }
    }
    assert p == q;
  }
}
