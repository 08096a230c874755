/**
 * From an accepted row to a file: a row `append` took, wherever it lies in a segment and whatever configs
 * were accepted since, is in a file of the flush that reads the segment, itself or the first arrival of
 * its timestamp and id.
 */
module Delivery {
  import opened Bytes
  import opened Codec
  import opened FrameCodec
  import opened Segments
  import opened Groups
  import opened FlushSort
  import opened Columns
  import opened Manifest
  import opened Accept
  import opened SegmentRows
  import opened Partition
  import opened Flush
  import opened Sink
  import FlushPlan

  /** Every value is null or of its key's type. */
  ghost predicate Typed(keys: seq<KeyDef>, values: seq<Value>) {
    && |values| == |keys|
    && forall i :: 0 <= i < |keys| ==>
         match values[i]
         case Null => true
         case Bool(_) => keys[i].ty == BoolKey
         case I64(_) => keys[i].ty == I64Key
         case F64(_) => keys[i].ty == F64Key
         case Str(_) => keys[i].ty == StrKey
  }

  /** The flush accepts exactly typed values. */
  lemma MatchesMeans(keys: seq<KeyDef>, values: seq<Value>)
    ensures MatchesSchema(keys, values) <==> Typed(keys, values)
  {
  }

  /** Behind intact frames the reader comes to whatever lies there. */
  lemma {:induction false} ReadReaches(env: Env, m: Histories, pre: seq<byte>, frames: seq<seq<byte>>, rest: seq<byte>)
    requires AllFrames(env, frames) && rest != []
    ensures var buf := pre + Flat(frames) + rest;
            var items := ReadAll(env, buf, |pre|, |buf|, Arity(m));
            |frames| < |items| && items[|frames|] == ItemAt(env, buf, |pre + Flat(frames)|, |buf|, Arity(m))
    decreases |frames|
  {
    hide ValidatePrefix, IsFrame, Arity, ItemAt;
    var buf := pre + Flat(frames) + rest;
    if frames == [] {
      assert buf == pre + rest;
    } else {
      var f, more := frames[0], frames[1..];
      assert buf == pre + f + (Flat(more) + rest) && buf == (pre + f) + Flat(more) + rest;
      FlushPlan.FrameInPlace(env, m, pre, f, Flat(more) + rest);
      FlushPlan.ItemDelimited(env, m, ItemAt(env, buf, |pre|, |buf|, Arity(m)), f);
      FrameInBounds(env, f);
      ReadReaches(env, m, pre + f, more, rest);
      assert pre + Flat(frames) == (pre + f) + Flat(more);
    }
  }

  /** A record's frame reads as that record when its values are typed. */
  lemma RecordRead(env: Env, m: Histories, pre: seq<byte>, r: Record, rest: seq<byte>)
    requires Fits(env, r) && Schema(m, r.series, r.epoch).Some? && Typed(Schema(m, r.series, r.epoch).value, r.row.keys)
    ensures var f := PutFrame(env, PutPayload(r));
            var buf := pre + f + rest;
            var item := ItemAt(env, buf, |pre|, |buf|, Arity(m));
            item == Frame(r, |pre|, |f|) && Wanted(m, item)
  {
    hide PutPayload, PutFrame, Decode, ValidatePrefix, VerifiedSortKey, Fits, Schema, Typed;
    var f := PutFrame(env, PutPayload(r));
    var buf := pre + f + rest;
    var keys := Schema(m, r.series, r.epoch).value;
    MatchesMeans(keys, r.row.keys);
    TypedCount(keys, r.row.keys);
    FrameLength(env, PutPayload(r));
    assert buf[|pre|..] == f + rest && (f + rest)[0..|f|] == f;
    DecodeCodes(env, f + rest, |keys|, |buf|, r, |f|);
    ReadersAgree(env, f + rest, |keys|, |buf|, r, |f|);
  }

  lemma TypedCount(keys: seq<KeyDef>, values: seq<Value>)
    requires Typed(keys, values)
    ensures |values| == |keys|
  {
  }

  /** A file of the group holds a record with this timestamp and id. */
  ghost predicate FileHasKey(staged: seq<(GroupKey, Staged)>, g: GroupKey, ts: u64, id: Text) {
    exists a, e :: 0 <= a < |staged| && staged[a].0 == g && e in staged[a].1.file.rows && e.ts == ts && e.id == id
  }

  /**
   * Any record whose frame lies intact behind intact frames of a segment, and whose values have the types
   * of the schema its epoch names, is delivered by the flush that reads the segment.
   */
  lemma TypedRecordIsDelivered(env: Env, m: Histories, ids: seq<nat>, bufs: seq<seq<byte>>,
                               staged: seq<(GroupKey, Staged)>, b: nat, header: seq<byte>, frames: seq<seq<byte>>,
                               r: Record, rest: seq<byte>)
    requires FlushInput(m, ids, bufs) && FilesDeliver(staged, AllRows(DecodedRows(env, m, ids, bufs)))
    requires b < |bufs| && |header| == SEGMENT_HEADER_BYTES && AllFrames(env, frames)
    requires bufs[b] == header + Flat(frames) + (PutFrame(env, PutPayload(r)) + rest)
    requires Fits(env, r) && Schema(m, r.series, r.epoch).Some? && Typed(Schema(m, r.series, r.epoch).value, r.row.keys)
    ensures FileHasKey(staged, (r.series, r.epoch), r.row.ts, r.row.id)
  {
    hide PutPayload, PutFrame, Fits, Schema, Typed, ReadAll, ItemAt, ItemsOf, AllRows, DecodedRows, FilesDeliver, Flat,
      AllFrames, ParseSegmentHeader, ShortNames, Wanted, Arity;
    var f, buf, pre := PutFrame(env, PutPayload(r)), bufs[b], header + Flat(frames);
    FrameLength(env, PutPayload(r));
    ReadReaches(env, m, header, frames, f + rest);
    assert buf == pre + f + rest;
    RecordRead(env, m, pre, r, rest);
    ItemsAre(env, m, buf);
    var items, k := ItemsOf(env, m, buf), |frames|;
    var x := TaggedRow(ids[b], buf, items[k]);
    assert IsRowOf(m, ids[b], buf, items[k], x);
    FlushRowsAre(env, m, ids, bufs, x);
    var a, e := SurvivorInFile(staged, AllRows(DecodedRows(env, m, ids, bufs)), x);
  }

  /** A row `append` accepted is delivered, after any accepted configs. */
  lemma AcceptedRowIsDelivered(env: Env, states: seq<Histories>, configs: seq<seq<SeriesConfig>>, m: nat, n: nat,
                               i: nat, h: Handle, row: Row, ids: seq<nat>, bufs: seq<seq<byte>>,
                               staged: seq<(GroupKey, Staged)>, b: nat, header: seq<byte>, frames: seq<seq<byte>>,
                               rest: seq<byte>)
    requires AcceptedRun(states, configs) && 0 < m <= n <= |configs| && IsHandle(states[m], configs[m - 1], i, h)
    requires RowChecked(h, row) && Encodable(env, Record(h.name, h.epoch, row))
    requires FlushInput(states[n], ids, bufs) && FilesDeliver(staged, AllRows(DecodedRows(env, states[n], ids, bufs)))
    requires b < |bufs| && |header| == SEGMENT_HEADER_BYTES && AllFrames(env, frames)
    requires bufs[b] == header + Flat(frames) + (EncodeRecord(env, Record(h.name, h.epoch, row)) + rest)
    ensures FileHasKey(staged, (h.name, h.epoch), row.ts, row.id)
  {
    hide ValidConfig, Retypes, Exhausts, FoldAll, IsHandle, Fits, Schema, RowChecked, MatchesSchema, Typed, PutPayload,
      PutFrame, FlushInput, FilesDeliver, AllRows, DecodedRows, Flat, AllFrames;
    LayoutIsKept(states, configs, m, n, i, h);
    var keys := Schema(states[n], h.name, h.epoch).value;
    CheckedMatches(h, row, keys);
    MatchesMeans(keys, row.keys);
    TypedRecordIsDelivered(env, states[n], ids, bufs, staged, b, header, frames,
      Canonical(Record(h.name, h.epoch, row)), rest);
  }
}
