/** Accumulating rows into columns (src/flush/parquet.rs, `KeyColumn`, `RowBuilder`). */
module Columns {
  import opened Bytes
  import opened Decimal
  import opened Codec
  import opened Extra
  import opened StrColumns
  import opened Levels

  datatype KeyType = BoolKey | I64Key | F64Key | StrKey

  function TypeOf(v: Value): Option<KeyType> {
    match v
    case Null => None
    case Bool(_) => Some(BoolKey)
    case I64(_) => Some(I64Key)
    case F64(_) => Some(F64Key)
    case Str(_) => Some(StrKey)
  }

  /** Null satisfies any column. */
  predicate Admits(ty: KeyType, v: Value) { TypeOf(v).None? || TypeOf(v) == Some(ty) }

  /** Parquet's timestamps are signed 64-bit. */
  const TS_END: nat := 0x8000_0000_0000_0000

  predicate RowFits(types: seq<KeyType>, row: Row) {
    |row.keys| == |types| && row.ts < TS_END && forall j :: 0 <= j < |types| ==> Admits(types[j], row.keys[j])
  }

  // ---- a column of rows -----------------------------------------------------------------

  function Times(rows: seq<Row>): (r: seq<u64>)
    ensures |r| == |rows| && forall i :: 0 <= i < |rows| ==> r[i] == rows[i].ts
  {
    if rows == [] then [] else Times(rows[..|rows| - 1]) + [rows[|rows| - 1].ts]
  }

  function Ids(rows: seq<Row>): (r: seq<Text>)
    ensures |r| == |rows| && forall i :: 0 <= i < |rows| ==> r[i] == rows[i].id
  {
    if rows == [] then [] else Ids(rows[..|rows| - 1]) + [rows[|rows| - 1].id]
  }

  function Datas(rows: seq<Row>): (r: seq<Text>)
    ensures |r| == |rows| && forall i :: 0 <= i < |rows| ==> r[i] == rows[i].data
  {
    if rows == [] then [] else Datas(rows[..|rows| - 1]) + [rows[|rows| - 1].data]
  }

  function Cell(row: Row, j: nat): Value { if j < |row.keys| then row.keys[j] else Null }

  function Column(rows: seq<Row>, j: nat): (r: seq<Value>)
    ensures |r| == |rows| && forall i :: 0 <= i < |rows| ==> r[i] == Cell(rows[i], j)
  {
    if rows == [] then [] else Column(rows[..|rows| - 1], j) + [Cell(rows[|rows| - 1], j)]
  }

  /** Each row's map as it is stored: names once, in order. */
  function Maps(rows: seq<Row>): (r: seq<Entries>)
    ensures |r| == |rows| && forall i :: 0 <= i < |rows| ==> r[i] == Canonicalise(rows[i].extra)
  {
    if rows == [] then [] else Maps(rows[..|rows| - 1]) + [Canonicalise(rows[|rows| - 1].extra)]
  }

  function PairNames(pairs: seq<Pair>): (r: seq<Text>)
    ensures |r| == |pairs| && forall i :: 0 <= i < |pairs| ==> r[i] == pairs[i].0
  {
    if pairs == [] then [] else PairNames(pairs[..|pairs| - 1]) + [pairs[|pairs| - 1].0]
  }

  function Contents(pairs: seq<Pair>): (r: seq<Text>)
    ensures |r| == |pairs| && forall i :: 0 <= i < |pairs| ==> r[i] == pairs[i].1
  {
    if pairs == [] then [] else Contents(pairs[..|pairs| - 1]) + [pairs[|pairs| - 1].1]
  }

  function Texts(vs: seq<Value>): (r: seq<Text>)
    ensures |r| == |vs| && forall i :: 0 <= i < |vs| ==> r[i] == if vs[i].Str? then vs[i].s else []
  {
    if vs == [] then [] else Texts(vs[..|vs| - 1]) + [if vs[|vs| - 1].Str? then vs[|vs| - 1].s else []]
  }

  // ---- one key column ----------------------------------------------------------------------

  datatype Vals = Scalars(ty: KeyType, xs: seq<Value>) | Strs(col: StrColumn)

  /** Present values, and a level for every row. */
  datatype KeyColumn = KeyColumn(vals: Vals, defs: seq<nat>)

  function NewColumn(ty: KeyType): KeyColumn {
    KeyColumn(if ty == StrKey then Strs(EMPTY) else Scalars(ty, []), [])
  }

  /** Append one value, or `None` where its type is not the column's. */
  function AppendValue(c: KeyColumn, v: Value): Option<KeyColumn> {
    if v.Null? then Some(c.(defs := c.defs + [0]))
    else
      match c.vals
      case Scalars(ty, xs) =>
        if TypeOf(v) == Some(ty) && ty != StrKey then Some(KeyColumn(Scalars(ty, xs + [v]), c.defs + [1])) else None
      case Strs(col) => if v.Str? then Some(KeyColumn(Strs(StrColumns.Push(col, v.s)), c.defs + [1])) else None
  }

  ghost predicate ColumnHolds(c: KeyColumn, ty: KeyType, vs: seq<Value>) {
    && c.defs == DefsOf(vs) && (forall i :: 0 <= i < |vs| ==> Admits(ty, vs[i]))
    && match c.vals
       case Scalars(t, xs) => t == ty && ty != StrKey && xs == Present(vs)
       case Strs(col) => ty == StrKey && Holds(col, Texts(Present(vs)))
  }

  lemma PresentLast(vs: seq<Value>, v: Value)
    ensures Present(vs + [v]) == Present(vs) + if v.Null? then [] else [v]
    ensures DefsOf(vs + [v]) == DefsOf(vs) + [if v.Null? then 0 else 1]
  {
    var w := vs + [v];
    assert w[..|w| - 1] == vs;
  }

  lemma TextsLast(vs: seq<Value>, v: Value)
    requires v.Str?
    ensures Texts(vs + [v]) == Texts(vs) + [v.s]
  {
    var w := vs + [v];
    assert w[..|w| - 1] == vs;
  }

  /** The append succeeds exactly for values the column admits, and then holds one more. */
  lemma AppendHolds(c: KeyColumn, ty: KeyType, vs: seq<Value>, v: Value)
    requires ColumnHolds(c, ty, vs)
    ensures AppendValue(c, v).Some? <==> Admits(ty, v)
    ensures Admits(ty, v) ==> ColumnHolds(AppendValue(c, v).value, ty, vs + [v])
  {
    hide Holds, Present, DefsOf, Texts;
    PresentLast(vs, v);
    assert Present(vs) + [] == Present(vs);
    if v.Str? && c.vals.Strs? {
      PushHolds(c.vals.col, Texts(Present(vs)), v.s);
      TextsLast(Present(vs), v);
    }
  }

  function ClearColumn(c: KeyColumn): KeyColumn {
    KeyColumn(match c.vals case Scalars(ty, _) => Scalars(ty, []) case Strs(_) => Strs(EMPTY), [])
  }

  lemma ClearedIsNew(c: KeyColumn, ty: KeyType, vs: seq<Value>)
    requires ColumnHolds(c, ty, vs)
    ensures ClearColumn(c) == NewColumn(ty)
  {
  }

  // ---- all columns --------------------------------------------------------------------------

  datatype Cols = Cols(rows: nat, ts: seq<u64>, id: StrColumn, keys: seq<KeyColumn>,
                       extraKeys: StrColumn, extraValues: StrColumn, counts: seq<nat>, data: StrColumn)

  ghost predicate KeysHold(keys: seq<KeyColumn>, types: seq<KeyType>, rows: seq<Row>) {
    |keys| == |types| && forall j :: 0 <= j < |types| ==> ColumnHolds(keys[j], types[j], Column(rows, j))
  }

  ghost predicate ColsHold(c: Cols, types: seq<KeyType>, rows: seq<Row>) {
    && c.rows == |rows| && c.ts == Times(rows) && Holds(c.id, Ids(rows)) && Holds(c.data, Datas(rows))
    && KeysHold(c.keys, types, rows)
    && Holds(c.extraKeys, PairNames(Flatten(Maps(rows)))) && Holds(c.extraValues, Contents(Flatten(Maps(rows))))
    && c.counts == Counts(Maps(rows))
    && (forall i :: 0 <= i < |rows| ==> RowFits(types, rows[i]))
  }

  lemma NoRows(keys: seq<KeyColumn>, types: seq<KeyType>)
    requires |keys| == |types| && forall j :: 0 <= j < |types| ==> keys[j] == NewColumn(types[j])
    ensures ColsHold(Cols(0, [], EMPTY, keys, EMPTY, EMPTY, [], EMPTY), types, [])
  {
    EmptyHolds();
    forall j | 0 <= j < |types| ensures ColumnHolds(keys[j], types[j], Column([], j)) {
      assert Column([], j) == [] && Present([]) == [] && Texts([]) == [];
    }
  }

  datatype AppendResult = Appended | KeyArity | TsRange | TypeMismatch(key: nat)

  class RowBuilder {
    var cols: Cols
    ghost var types: seq<KeyType>
    /** The rows appended since the last `Clear`. */
    ghost var rows: seq<Row>

    ghost predicate Valid()
      reads this
    {
      ColsHold(cols, types, rows)
    }

    constructor (types: seq<KeyType>)
      ensures Valid() && this.types == types && rows == []
    {
      var keys := [];
      for j := 0 to |types|
        invariant |keys| == j && forall k :: 0 <= k < j ==> keys[k] == NewColumn(types[k])
      {
        keys := keys + [NewColumn(types[j])];
      }
      cols := Cols(0, [], EMPTY, keys, EMPTY, EMPTY, [], EMPTY);
      this.types, rows := types, [];
      new;
      NoRows(keys, types);
    }

    /** Drop every row, keeping the columns and their types. */
    method Clear()
      requires Valid()
      modifies this
      ensures Valid() && types == old(types) && rows == []
    {
      hide ColumnHolds, Holds, NewColumn, ClearColumn, Times, Ids, Datas, Column, Maps;
      KeysAreTypes(cols, types, rows);
      var keys := [];
      for j := 0 to |cols.keys|
        invariant unchanged(this) && |cols.keys| == |types|
        invariant |keys| == j && forall k :: 0 <= k < j ==> keys[k] == NewColumn(types[k])
      {
        assert ColumnHolds(cols.keys[j], types[j], Column(rows, j));
        ClearedIsNew(cols.keys[j], types[j], Column(rows, j));
        keys := keys + [ClearColumn(cols.keys[j])];
      }
      cols := Cols(0, [], EMPTY, keys, EMPTY, EMPTY, [], EMPTY);
      rows := [];
      NoRows(keys, types);
    }

    /**
     * Append one row. It succeeds exactly when the row fits the types and its timestamp the column; a
     * wrong arity or timestamp leaves the builder as it was. A type mismatch does not: the columns
     * before the mismatch keep the row's part.
     */
    method Append(row: Row) returns (r: AppendResult)
      requires Valid()
      modifies this
      ensures types == old(types)
      ensures r.Appended? <==> RowFits(types, row)
      ensures r.Appended? ==> Valid() && rows == old(rows) + [row]
      ensures r.KeyArity? || r.TsRange? ==> Valid() && rows == old(rows) && cols == old(cols)
      ensures r.KeyArity? <==> |row.keys| != |types|
      ensures r.TsRange? <==> |row.keys| == |types| && row.ts >= TS_END
      ensures r.TypeMismatch? ==> r.key < |types| && !Admits(types[r.key], row.keys[r.key])
      ensures r.TypeMismatch? ==> forall k :: 0 <= k < r.key ==> Admits(types[k], row.keys[k])
      ensures r.TypeMismatch? ==> |cols.ts| == |old(cols).ts| + 1 && !Valid()
    {
      hide ColumnHolds, Holds, Canonicalise, Times, Ids, Datas, Maps, PairNames, Contents, Flatten, Counts, AppendValue,
        KeysHold;
      KeysAreTypes(cols, types, rows);
      if |row.keys| != |cols.keys| { return KeyArity; }
      if row.ts >= TS_END { return TsRange; }
      var c := cols;
      var keys, bad := AppendKeys(c.keys, row, types, rows);
      if bad.Some? {
        cols := c.(ts := c.ts + [row.ts], id := StrColumns.Push(c.id, row.id), keys := keys);
        return TypeMismatch(bad.value);
      }
      var kept := Stored(row.extra);
      var names, contents := AppendPairs(c.extraKeys, c.extraValues, kept, Flatten(Maps(rows)));
      cols := Cols(c.rows + 1, c.ts + [row.ts], StrColumns.Push(c.id, row.id), keys, names, contents,
        c.counts + [|kept|],
                   StrColumns.Push(c.data, row.data));
      AppendedHolds(c.id, c.data, rows, row);
      MapsLast(rows, row);
      rows := rows + [row];
      r := Appended;
    }
  }

  lemma KeysAreTypes(c: Cols, types: seq<KeyType>, rows: seq<Row>)
    requires ColsHold(c, types, rows)
    ensures |c.keys| == |types| && |c.ts| == |rows|
  {
  }

  lemma AppendedHolds(id: StrColumn, data: StrColumn, rows: seq<Row>, row: Row)
    requires Holds(id, Ids(rows)) && Holds(data, Datas(rows))
    ensures Holds(StrColumns.Push(id, row.id), Ids(rows + [row]))
    ensures Holds(StrColumns.Push(data, row.data), Datas(rows + [row]))
    ensures Times(rows + [row]) == Times(rows) + [row.ts]
  {
    hide Holds;
    PushHolds(id, Ids(rows), row.id);
    PushHolds(data, Datas(rows), row.data);
    assert Ids(rows + [row]) == Ids(rows) + [row.id] && Datas(rows + [row]) == Datas(rows) + [row.data];
  }

  lemma MapsLast(rows: seq<Row>, row: Row)
    ensures Maps(rows + [row]) == Maps(rows) + [Canonicalise(row.extra)]
    ensures Flatten(Maps(rows + [row])) == Flatten(Maps(rows)) + Canonicalise(row.extra)
    ensures Counts(Maps(rows + [row])) == Counts(Maps(rows)) + [|Canonicalise(row.extra)|]
  {
    hide Canonicalise;
    var r := rows + [row];
    assert r[..|r| - 1] == rows;
    FlattenConcat(Maps(rows), [Canonicalise(row.extra)]);
    assert Flatten([Canonicalise(row.extra)]) == Canonicalise(row.extra);
  }

  /** The canonical form of `extra`, by the codec's fast path or by sorting and collapsing. */
  method Stored(extra: seq<Pair>) returns (kept: seq<Pair>)
    ensures kept == Canonicalise(extra)
  {
    if IsCanonical(extra) {
      CanonicaliseFixpoint(extra);
      kept := extra;
    } else {
      var order := SortAndCollapse(extra);
      kept := Select(extra, order);
    }
  }

  /** Append a row's values, column by column, stopping at the first that does not fit. */
  method AppendKeys(keys: seq<KeyColumn>, row: Row, ghost types: seq<KeyType>, ghost rows: seq<Row>)
    returns (r: seq<KeyColumn>, bad: Option<nat>)
    requires KeysHold(keys, types, rows) && |row.keys| == |keys|
    ensures bad.None? ==> KeysHold(r, types, rows + [row]) && forall j :: 0 <= j < |types| ==>
              Admits(types[j], row.keys[j])
    ensures bad.Some? ==> bad.value < |types| && !Admits(types[bad.value], row.keys[bad.value])
    ensures bad.Some? ==> forall k :: 0 <= k < bad.value ==> Admits(types[k], row.keys[k])
  {
    hide ColumnHolds;
    r := keys;
    for j := 0 to |keys|
      invariant |r| == |keys|
      invariant forall k :: 0 <= k < j ==>
                  ColumnHolds(r[k], types[k], Column(rows + [row], k)) && Admits(types[k], row.keys[k])
      invariant forall k :: j <= k < |keys| ==> r[k] == keys[k]
    {
      AppendHolds(keys[j], types[j], Column(rows, j), row.keys[j]);
      assert Column(rows + [row], j) == Column(rows, j) + [row.keys[j]];
      match AppendValue(r[j], row.keys[j])
      case None => return r, Some(j);
      case Some(c) => r := r[j := c];
    }
    bad := None;
  }

  method AppendPairs(names: StrColumn, contents: StrColumn, pairs: seq<Pair>, ghost before: seq<Pair>)
    returns (n: StrColumn, c: StrColumn)
    requires Holds(names, PairNames(before)) && Holds(contents, Contents(before))
    ensures Holds(n, PairNames(before + pairs)) && Holds(c, Contents(before + pairs))
  {
    hide Holds;
    n, c := names, contents;
    assert before + pairs[..0] == before;
    for i := 0 to |pairs|
      invariant Holds(n, PairNames(before + pairs[..i])) && Holds(c, Contents(before + pairs[..i]))
    {
      ghost var b := before + pairs[..i];
      PushHolds(n, PairNames(b), pairs[i].0);
      PushHolds(c, Contents(b), pairs[i].1);
      assert before + pairs[..i + 1] == b + [pairs[i]];
      assert PairNames(b + [pairs[i]]) == PairNames(b) + [pairs[i].0]
        && Contents(b + [pairs[i]]) == Contents(b) + [pairs[i].1];
      n, c := StrColumns.Push(n, pairs[i].0), StrColumns.Push(c, pairs[i].1);
    }
    assert pairs[..|pairs|] == pairs;
  }
}
