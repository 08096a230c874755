/**
 * Accepting a row and meeting it again: `append`'s checks (src/engine.rs) and
 * the flush's (src/flush/planner.rs), with any number of restarts and accepted
 * schema changes in between.
 */
module Accept {
  import opened Bytes
  import opened Decimal
  import opened Extra
  import opened Codec
  import opened FrameCodec
  import opened Segments
  import opened Columns
  import opened Manifest

  /** A series as the ingest path holds it: the epoch and keys of the config it was opened with. */
  datatype Handle = Handle(name: Text, epoch: u32, keys: seq<KeyDef>)

  const U64_MAX: nat := 0xffff_ffff_ffff_ffff

  /** The accept window's upper end; none while the clock reads before `tsMin`. */
  function TsUpperBound(now: u64, tsMin: u64, skew: u64): Option<u64> {
    if now < tsMin then None else Some(if now + skew > U64_MAX then U64_MAX else now + skew)
  }

  /** The saturated bound never refuses what the true sum would admit. */
  predicate TsAccepted(ts: u64, now: u64, tsMin: u64, skew: u64): (r: bool)
    ensures r <==> tsMin <= ts && (now < tsMin || ts <= now + skew)
  {
    ts >= tsMin && (TsUpperBound(now, tsMin, skew).None? || ts <= TsUpperBound(now, tsMin, skew).value)
  }

  /** Every accepted timestamp fits Parquet's signed column exactly when the window has an upper end that does. */
  lemma WindowFitsParquet(now: u64, tsMin: u64, skew: u64)
    ensures (forall ts: u64 :: TsAccepted(ts, now, tsMin, skew) ==> ts < TS_END) <==>
              tsMin <= now && now + skew < TS_END
  {
    var top := TsUpperBound(now, tsMin, skew);
    if top.None? {
      assert TsAccepted(U64_MAX, now, tsMin, skew);
    } else if top.value >= TS_END {
      assert TsAccepted(top.value, now, tsMin, skew);
    }
  }

  /** Null where the key may be null, otherwise a value of its type. */
  predicate ValueChecked(def: KeyDef, v: Value): (r: bool)
    ensures r <==>
            match v
            case Null => def.nullable
            case Bool(_) => def.ty == BoolKey
            case I64(_) => def.ty == I64Key
            case F64(_) => def.ty == F64Key
            case Str(_) => def.ty == StrKey
  {
    if v.Null? then def.nullable else TypeOf(v) == Some(def.ty)
  }

  predicate RowChecked(h: Handle, row: Row) {
    |row.keys| == |h.keys| && forall i :: 0 <= i < |h.keys| ==> ValueChecked(h.keys[i], row.keys[i])
  }

  datatype RowError = BadTs | BadArity | BadType(key: nat)

  /** `check_row`, stopping at the first fault. */
  method CheckRow(h: Handle, row: Row, now: u64, tsMin: u64, skew: u64) returns (fault: Option<RowError>)
    ensures fault.None? <==> TsAccepted(row.ts, now, tsMin, skew) && RowChecked(h, row)
    ensures fault == Some(BadTs) <==> row.ts < tsMin || (tsMin <= now && now + skew < row.ts)
    ensures fault == Some(BadArity) <==> TsAccepted(row.ts, now, tsMin, skew) && |row.keys| != |h.keys|
    ensures fault.Some? && fault.value.BadType? ==>
              var k := fault.value.key;
              k < |h.keys| == |row.keys| && !ValueChecked(h.keys[k], row.keys[k]) && forall i :: 0 <= i < k ==>
                ValueChecked(h.keys[i], row.keys[i])
  {
    if !TsAccepted(row.ts, now, tsMin, skew) { return Some(BadTs); }
    if |row.keys| != |h.keys| { return Some(BadArity); }
    for i := 0 to |h.keys|
      invariant forall k :: 0 <= k < i ==> ValueChecked(h.keys[k], row.keys[k])
    {
      if !ValueChecked(h.keys[i], row.keys[i]) { return Some(BadType(i)); }
    }
    fault := None;
  }

  // ---- size ----------------------------------------------------------------------------------

  function StrBytes(keys: seq<Value>): nat {
    if keys == [] then 0 else (if keys[0].Str? then |keys[0].s| else 0) + StrBytes(keys[1..])
  }

  /** The size test made before encoding. */
  predicate Oversize(row: Row, limit: nat) { |row.id| + |row.data| + StrBytes(row.keys) > limit }

  lemma {:induction false} StrBytesEncoded(keys: seq<Value>)
    ensures StrBytes(keys) <= |PutKeys(keys)|
  {
    if keys != [] { StrBytesEncoded(keys[1..]); }
  }

  /** It never turns away a row whose frame would have been small enough. */
  lemma OversizeIsTooLarge(env: Env, r: Record, limit: nat)
    requires Oversize(r.row, limit)
    ensures |EncodeRecord(env, r)| > limit
  {
    hide PutPrefix, PutKeys, PutPairs, Canonicalise;
    PayloadLength(Canonical(r));
    StrBytesEncoded(r.row.keys);
  }

  /** Bytes handed to the WAL, appended only when everything about the row is in order. */
  method Append(env: Env, h: Handle, row: Row, limit: nat, now: u64, tsMin: u64, skew: u64, wal: Buffer)
    returns (ok: bool)
    requires TextsValid(env, Record(h.name, h.epoch, row))
    modifies wal
    ensures ok <==>
              && TsAccepted(row.ts, now, tsMin, skew) && RowChecked(h, row)
              && Encodable(env, Record(h.name, h.epoch, row))
              && |EncodeRecord(env, Record(h.name, h.epoch, row))| <= limit
    ensures wal.bytes == old(wal.bytes) + if ok then EncodeRecord(env, Record(h.name, h.epoch, row)) else []
  {
    hide EncodeRecord, Encodable, TextsValid, RowChecked, TsAccepted;
    var fault := CheckRow(h, row, now, tsMin, skew);
    if fault.Some? { return false; }
    var r := Record(h.name, h.epoch, row);
    if Oversize(row, limit) {
      OversizeIsTooLarge(env, r, limit);
      return false;
    }
    var scratch := new Buffer();
    var enc := new Encoder();
    ok := enc.Encode(env, scratch, r);
    if !ok { return false; }
    assert scratch.bytes == EncodeRecord(env, r);
    if |scratch.bytes| > limit { return false; }
    wal.Extend(scratch.bytes);
  }

  predicate RowAccepted(env: Env, h: Handle, row: Row, limit: nat, now: u64, tsMin: u64, skew: u64) {
    var r := Record(h.name, h.epoch, row);
    TsAccepted(row.ts, now, tsMin, skew) && RowChecked(h, row) && Encodable(env, r) && |EncodeRecord(env, r)| <= limit
  }

  function FramesOf(env: Env, h: Handle, rows: seq<Row>): seq<seq<byte>> {
    if rows == [] then []
    else
      var n := |rows| - 1;
      FramesOf(env, h, rows[..n]) + [EncodeRecord(env, Record(h.name, h.epoch, rows[n]))]
  }

  /** Many rows under one lock: every one is handed to the WAL, or none is. */
  method AppendBatch(env: Env, h: Handle, rows: seq<Row>, limit: nat, now: u64, tsMin: u64, skew: u64, wal: Buffer)
    returns (ok: bool)
    requires forall i :: 0 <= i < |rows| ==> TextsValid(env, Record(h.name, h.epoch, rows[i]))
    modifies wal
    ensures ok <==> forall i :: 0 <= i < |rows| ==> RowAccepted(env, h, rows[i], limit, now, tsMin, skew)
    ensures wal.bytes == old(wal.bytes) + if ok then Flat(FramesOf(env, h, rows)) else []
  {
    hide EncodeRecord, Encodable, TextsValid, RowChecked, TsAccepted, Flat, FramesOf;
    for i := 0 to |rows|
      invariant forall k :: 0 <= k < i ==> TsAccepted(rows[k].ts, now, tsMin, skew) && RowChecked(h, rows[k])
      invariant wal.bytes == old(wal.bytes)
    {
      var fault := CheckRow(h, rows[i], now, tsMin, skew);
      if fault.Some? {
        assert !RowAccepted(env, h, rows[i], limit, now, tsMin, skew);
        return false;
      }
      if Oversize(rows[i], limit) {
        OversizeIsTooLarge(env, Record(h.name, h.epoch, rows[i]), limit);
        assert !RowAccepted(env, h, rows[i], limit, now, tsMin, skew);
        return false;
      }
    }
    var scratch := new Buffer();
    var enc := new Encoder();
    FramesStart(env, h, rows);
    for i := 0 to |rows|
      invariant scratch.bytes == Flat(FramesOf(env, h, rows[..i])) && wal.bytes == old(wal.bytes)
      invariant fresh(scratch)
      invariant forall k :: 0 <= k < i ==> RowAccepted(env, h, rows[k], limit, now, tsMin, skew)
    {
      var start := |scratch.bytes|;
      FramesStep(env, h, rows, i);
      var done := enc.Encode(env, scratch, Record(h.name, h.epoch, rows[i]));
      if !done || |scratch.bytes| - start > limit {
        assert !RowAccepted(env, h, rows[i], limit, now, tsMin, skew);
        return false;
      }
    }
    assert rows[..|rows|] == rows;
    wal.Extend(scratch.bytes);
    ok := true;
  }

  lemma FramesStart(env: Env, h: Handle, rows: seq<Row>)
    ensures Flat(FramesOf(env, h, rows[..0])) == []
  {
  }

  lemma FramesStep(env: Env, h: Handle, rows: seq<Row>, i: nat)
    requires i < |rows|
    ensures Flat(FramesOf(env, h, rows[..i + 1]))
              == Flat(FramesOf(env, h, rows[..i])) + EncodeRecord(env, Record(h.name, h.epoch, rows[i]))
  {
    hide EncodeRecord;
    assert rows[..i + 1][..i] == rows[..i];
    var f := EncodeRecord(env, Record(h.name, h.epoch, rows[i]));
    FlatConcat(FramesOf(env, h, rows[..i]), [f]);
    assert Flat([f]) == f + [];
  }

  // ---- at the flush ------------------------------------------------------------------------------

  /** Arity and types match; null matches any type. */
  predicate MatchesSchema(keys: seq<KeyDef>, values: seq<Value>) {
    |keys| == |values| && forall i :: 0 <= i < |keys| ==>
      TypeOf(values[i]).None? || TypeOf(values[i]) == Some(keys[i].ty)
  }

  function Types(keys: seq<KeyDef>): (r: seq<KeyType>)
    ensures |r| == |keys| && forall i :: 0 <= i < |keys| ==> r[i] == keys[i].ty
  {
    if keys == [] then [] else Types(keys[..|keys| - 1]) + [keys[|keys| - 1].ty]
  }

  function Arity(m: Histories): Lookup {
    (series: Text, epoch: u32) => match Schema(m, series, epoch) case None => None case Some(keys) => Some(|keys|)
  }

  /** What the flush accepts, the row builder accepts too, except for timestamps past 2^63. */
  lemma MatchingRowsFit(keys: seq<KeyDef>, row: Row)
    ensures MatchesSchema(keys, row.keys) && row.ts < TS_END <==> RowFits(Types(keys), row)
  {
    hide Types;
    if RowFits(Types(keys), row) {
      forall i | 0 <= i < |keys| ensures TypeOf(row.keys[i]).None? || TypeOf(row.keys[i]) == Some(keys[i].ty) {
        assert Admits(Types(keys)[i], row.keys[i]);
      }
    }
    if MatchesSchema(keys, row.keys) {
      forall i | 0 <= i < |keys| ensures Admits(Types(keys)[i], row.keys[i]) {
      }
    }
  }

  /** A checked row matches any later form of the layout it was checked against. */
  lemma CheckedMatches(h: Handle, row: Row, later: seq<KeyDef>)
    requires RowChecked(h, row) && SameLayout(h.keys, later)
    ensures MatchesSchema(later, row.keys)
  {
    forall i | 0 <= i < |later| ensures TypeOf(row.keys[i]).None? || TypeOf(row.keys[i]) == Some(later[i].ty) {
      assert ValueChecked(h.keys[i], row.keys[i]) && h.keys[i].ty == later[i].ty;
    }
  }

  /** The handle a config opens: its own keys, stamped with the current epoch. */
  ghost predicate IsHandle(m: Histories, config: seq<SeriesConfig>, i: nat, h: Handle) {
    i < |config| && h.name == config[i].name && h.keys == config[i].keys && CurrentEpoch(m, h.name) == Some(h.epoch)
  }

  /** An epoch's layout is found again in every later history. */
  lemma LayoutIsKept(states: seq<Histories>, configs: seq<seq<SeriesConfig>>, m: nat, n: nat, i: nat, h: Handle)
    requires AcceptedRun(states, configs) && 0 < m <= n <= |configs| && IsHandle(states[m], configs[m - 1], i, h)
    ensures Schema(states[n], h.name, h.epoch).Some? && SameLayout(h.keys, Schema(states[n], h.name, h.epoch).value)
  {
    hide ValidConfig, Retypes, Exhausts, FoldAll, HistoryOk, SameLayout, FindEpoch;
    HistoryOnlyGrows(states, configs, m - 1, m);
    HistoryOnlyGrows(states, configs, m, n);
    AcceptedKeeps(states[m - 1], configs[m - 1]);
    var a, b := states[m][h.name], states[n][h.name];
    KnownUpToCurrent(states[m], h.name, h.epoch);
    LastEpoch(a);
    assert a[h.epoch].keys == h.keys;
    assert SameLayout(a[h.epoch].keys, b[h.epoch].keys);
    LastEpoch(b);
    KnownUpToCurrent(states[n], h.name, h.epoch);
  }

  lemma LastEpoch(h: History)
    requires HistoryOk(h) && h != []
    ensures h[|h| - 1].epoch == |h| - 1
  {
  }

  /**
   * A row `append` accepted under one config is, after any later accepted configs and wherever its
   * frame lies in a segment, read back whole, matches the schema its epoch names, and (before the
   * year 294247) fits the columns.
   */
  lemma AcceptedIsNeverRejected(env: Env, states: seq<Histories>, configs: seq<seq<SeriesConfig>>, m: nat, n: nat,
                                i: nat, h: Handle, row: Row, pre: seq<byte>, post: seq<byte>)
    requires AcceptedRun(states, configs) && 0 < m <= n <= |configs| && IsHandle(states[m], configs[m - 1], i, h)
    requires RowChecked(h, row) && Encodable(env, Record(h.name, h.epoch, row))
    ensures var r := Record(h.name, h.epoch, row);
            var buf := pre + EncodeRecord(env, r) + post;
            ItemAt(env, buf, |pre|, |buf|, Arity(states[n])) == Frame(Canonical(r), |pre|, |EncodeRecord(env, r)|)
    ensures var keys := Schema(states[n], h.name, h.epoch);
            && keys.Some? && MatchesSchema(keys.value, row.keys)
            && (row.ts < TS_END ==> RowFits(Types(keys.value), Canonical(Record(h.name, h.epoch, row)).row))
  {
    hide ValidConfig, Retypes, Exhausts, FoldAll, IsHandle, Decode, ValidatePrefix, Fits, EncodeRecord, Schema,
      RowChecked, Canonicalise, Types, MatchesSchema, RowFits;
    LayoutIsKept(states, configs, m, n, i, h);
    var keys := Schema(states[n], h.name, h.epoch).value;
    CheckedMatches(h, row, keys);
    var r := Record(h.name, h.epoch, row);
    MatchingRowsFit(keys, Canonical(r).row);
    MatchesArity(keys, row.keys);
    var buf := pre + EncodeRecord(env, r) + post;
    assert buf[|pre|..] == EncodeRecord(env, r) + post;
    PutFrameInjectiveLength(env, r);
    RoundTrip(env, r, post, |buf|);
    ReadersAgree(env, EncodeRecord(env, r) + post, |row.keys|, |buf|, Canonical(r), |EncodeRecord(env, r)|);
  }

  lemma MatchesArity(keys: seq<KeyDef>, values: seq<Value>)
    requires MatchesSchema(keys, values)
    ensures |keys| == |values|
  {
  }
}
