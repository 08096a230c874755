/**
 * Decoding one segment into the batch (src/flush/planner.rs, `decode_segment`):
 * every item the reader yields is a row, a reject, or the damaged rest.
 */
module SegmentRows {
  import opened Bytes
  import opened Codec
  import opened Segments
  import opened Arrivals
  import opened Batch
  import opened FlushSort
  import opened RunFile
  import opened Manifest
  import opened Accept

  /** Where a frame's id starts: behind the frame header, `ts`, `epoch`, the series and two lengths. */
  function IdOffset(r: Record): nat { 24 + |r.series| }

  /** The row a frame becomes. */
  function RowFor(id: nat, buf: seq<byte>, item: Item): Decoded
    requires item.Frame? && item.offset + item.len <= |buf|
  {
    var r := item.record;
    Decoded((r.series, r.epoch),
            Entry(r.row.ts, r.row.id, (id, item.offset), buf[item.offset..item.offset + item.len]), IdOffset(r))
  }

  predicate Wanted(m: Histories, item: Item) {
    item.Frame? && Schema(m, item.record.series, item.record.epoch).Some?
    && MatchesSchema(Schema(m, item.record.series, item.record.epoch).value, item.record.row.keys)
  }

  ghost predicate Located(env: Env, buf: seq<byte>, m: Histories, item: Item) {
    item.offset <= |buf| && item == ItemAt(env, buf, item.offset, |buf|, Arity(m))
  }

  /** The bytes of a decoded frame are its printed form. */
  lemma FrameBytes(env: Env, buf: seq<byte>, m: Histories, item: Item)
    requires Located(env, buf, m, item) && item.Frame?
    ensures item.offset + item.len <= |buf|
    ensures buf[item.offset..item.offset + item.len] == PutFrame(env, PutPayload(item.record)) && Fits(env, item.record)
  {
    hide Decode, ValidatePrefix, PutPayload, Fits, PutFrame;
    var rest := buf[item.offset..];
    var p := ValidatePrefix(env, rest, |buf|).value.0;
    var k := Arity(m)(p.series, p.epoch).value;
    DecodeCodes(env, rest, k, |buf|, item.record, item.len);
    FrameLength(env, PutPayload(item.record));
    assert rest[0..item.len] == buf[item.offset..item.offset + item.len];
  }

  lemma FrameLength(env: Env, payload: seq<byte>)
    ensures |PutFrame(env, payload)| == 8 + |payload|
  {
  }

  /** The id sits at its offset, and the frame alone yields its sort key. */
  lemma IdInFrame(env: Env, r: Record)
    requires Fits(env, r)
    ensures var f := PutFrame(env, PutPayload(r));
            && IdOffset(r) + |r.row.id| <= |f| && f[IdOffset(r)..IdOffset(r) + |r.row.id|] == r.row.id
            && VerifiedSortKey(f) == Ok((r.row.ts, r.row.id, |f|))
  {
    hide Le, PutKeys, PutPairs, PutStr32, VerifiedSortKey, Fits;
    var f := PutFrame(env, PutPayload(r));
    var head := Le(|PutPayload(r)|, 4) + Le(env.crc(Le(|PutPayload(r)|, 4) + PutPayload(r)), 4);
    var before := head + (Le(r.row.ts, 8) + Le(r.epoch, 4) + PutStr16(r.series) + Le(|r.row.id|, 2));
    var after := PutKeys(r.row.keys) + (Le(|r.row.extra|, 2) + PutPairs(r.row.extra)) + PutStr32(r.row.data);
    assert f == before + r.row.id + after;
    assert |before| == IdOffset(r);
    FrameDecodes(env, r);
  }

  /** While the series name leaves the id's offset addressable, the batch sorts and deduplicates by the id. */
  lemma ShortNameKeepsId(env: Env, r: Record)
    requires Fits(env, r) && IdOffset(r) < U16_END
    ensures var f := PutFrame(env, PutPayload(r));
            IdOffset(r) + |r.row.id| <= |f| && BatchedId(f, IdOffset(r), |r.row.id|) == r.row.id
  {
    hide PutFrame, PutPayload, Fits;
    IdInFrame(env, r);
  }

  lemma FrameDecodes(env: Env, r: Record)
    requires Fits(env, r)
    ensures VerifiedSortKey(PutFrame(env, PutPayload(r))) == Ok((r.row.ts, r.row.id, |PutFrame(env, PutPayload(r))|))
  {
    hide PutPayload, PutFrame, Decode, VerifiedSortKey, ValidatePrefix, DecodeVerified, FieldsFit;
    var f := PutFrame(env, PutPayload(r));
    FrameLength(env, PutPayload(r));
    assert f[0..|f|] == f;
    DecodeCodes(env, f, |r.row.keys|, |f|, r, |f|);
    ReadersAgree(env, f, |r.row.keys|, |f|, r, |f|);
  }

  /** A decoded frame with a series name the batch can address is stored whole and survives a spill. */
  lemma RowIsStorable(env: Env, id: nat, buf: seq<byte>, m: Histories, item: Item)
    requires Located(env, buf, m, item) && item.Frame? && id < U64_END && |buf| < U32_END
    requires 24 + |item.record.series| < U16_END
    ensures item.offset + item.len <= |buf|
    ensures Storable(RowFor(id, buf, item)) && Writable(RowFor(id, buf, item).entry)
  {
    hide PutFrame, PutPayload, VerifiedSortKey, Schema, ItemAt, FieldsFit;
    FrameBytes(env, buf, m, item);
    IdInFrame(env, item.record);
    IdFits(env, item.record);
  }

  lemma IdFits(env: Env, r: Record)
    requires Fits(env, r)
    ensures |r.row.id| < U16_END
  {
    hide PutPayload;
  }

  // ---- the loop ------------------------------------------------------------------------------

  /** The rows among the items, in order. */
  function RowsAmong(m: Histories, id: nat, buf: seq<byte>, items: seq<Item>): seq<Decoded> {
    if items == [] then []
    else
      var item := items[|items| - 1];
      RowsAmong(m, id, buf, items[..|items| - 1])
      + if Wanted(m, item) && item.offset + item.len <= |buf| then [RowFor(id, buf, item)] else []
  }

  function BytesSkipped(buf: seq<byte>, items: seq<Item>): nat {
    if items != [] && items[|items| - 1].Undecodable? && items[|items| - 1].offset <= |buf|
      then |buf| - items[|items| - 1].offset else 0
  }

  /** What is skipped are the bytes from where recovery's scan stops. */
  lemma SkippedIsUnscanned(env: Env, buf: seq<byte>, m: Histories, at: nat)
    requires at <= |buf|
    ensures BytesSkipped(buf, ReadAll(env, buf, at, |buf|, Arity(m))) == |buf| - ScanFrom(env, buf, at, |buf|).end
  {
    hide ReadAll, ScanFrom, Arity;
    ReaderAgreesWithScan(env, buf, at, |buf|, Arity(m));
    LastStops(ReadAll(env, buf, at, |buf|, Arity(m)), at, ScanFrom(env, buf, at, |buf|).end);
  }

  lemma {:induction false} LastStops(items: seq<Item>, at: nat, end: nat)
    requires Tile(items, at, end)
    ensures forall i :: 0 <= i < |items| - 1 ==> !items[i].Undecodable?
    ensures items != [] && items[|items| - 1].Undecodable? ==> items[|items| - 1].offset == end
    decreases |items|
  {
    if items != [] && !items[0].Undecodable? { LastStops(items[1..], at + items[0].len, end); }
  }

  lemma {:induction false} AllLocated(env: Env, buf: seq<byte>, m: Histories, at: nat, k: nat)
    requires at <= |buf| && k < |ReadAll(env, buf, at, |buf|, Arity(m))|
    ensures Located(env, buf, m, ReadAll(env, buf, at, |buf|, Arity(m))[k])
    ensures ReadAll(env, buf, at, |buf|, Arity(m))[k].offset >= at
    ensures k > 0 ==> ReadAll(env, buf, at, |buf|, Arity(m))[k].offset > at
    ensures ReadAll(env, buf, at, |buf|, Arity(m))[k].Undecodable? ==> k == |ReadAll(env, buf, at, |buf|, Arity(m))| - 1
    decreases |buf| - at
  {
    hide ItemAt, ValidatePrefix, Arity;
    ItemExtent(env, buf, at, |buf|, Arity(m));
    var item := ItemAt(env, buf, at, |buf|, Arity(m));
    if k > 0 { AllLocated(env, buf, m, at + item.len, k - 1); }
  }

  /**
   * Decode a readable segment. Each item is one row or one reject; an undecodable length ends the
   * segment, and the bytes from there on are counted as skipped.
   */
  method DecodeSegment(env: Env, id: nat, buf: seq<byte>, m: Histories)
    returns (rows: seq<Decoded>, rejected: nat, skipped: nat)
    requires ParseSegmentHeader(buf).Ok?
    ensures |buf| >= SEGMENT_HEADER_BYTES
    ensures var items := ReadAll(env, buf, SEGMENT_HEADER_BYTES, |buf|, Arity(m));
            rows == RowsAmong(m, id, buf, items) && |rows| + rejected == |items| && skipped == BytesSkipped(buf, items)
  {
    hide ParseSegmentHeader, ItemAt, ReadAll, Wanted, Arity, ValidatePrefix, RowsAmong, BytesSkipped;
    HeaderLength(buf);
    NoItems(m, id, buf);
    var reader := new SegmentReader(env, buf, |buf|, Arity(m));
    rows, rejected, skipped := [], 0, 0;
    ghost var items := ReadAll(env, buf, SEGMENT_HEADER_BYTES, |buf|, Arity(m));
    ghost var n := 0;
    var item := reader.NextFrame();
    SeqSplit(items);
    while item.Some?
      invariant reader.Valid() && fresh(reader) && fresh(reader.scratch)
      invariant n <= |items| && rows == RowsAmong(m, id, buf, items[..n])
      invariant |rows| + rejected == n && skipped == BytesSkipped(buf, items[..n])
      invariant item.Some? ==> skipped == 0 && n < |items| && item.value == items[n]
      invariant item.Some? ==> reader.Remaining() == items[n + 1..]
      invariant item.None? ==> n == |items|
      decreases |items| - n
    {
      AllLocated(env, buf, m, SEGMENT_HEADER_BYTES, n);
      var it := item.value;
      OneMoreItem(m, id, buf, items, n);
      if it.Undecodable? {
        rejected, skipped := rejected + 1, |buf| - it.offset;
      } else {
        ItemEnds(env, buf, m, it);
        if Wanted(m, it) { rows := rows + [RowFor(id, buf, it)]; } else { rejected := rejected + 1; }
      }
      n := n + 1;
      item := reader.NextFrame();
      SeqSplit(items[n..]);
    }
    assert items[..n] == items;
  }

  lemma NoItems(m: Histories, id: nat, buf: seq<byte>)
    ensures RowsAmong(m, id, buf, []) == [] && BytesSkipped(buf, []) == 0
  {
  }

  /** What one more item adds. */
  lemma OneMoreItem(m: Histories, id: nat, buf: seq<byte>, items: seq<Item>, n: nat)
    requires n < |items|
    ensures Wanted(m, items[n]) ==> items[n].Frame?
    ensures RowsAmong(m, id, buf, items[..n + 1]) ==
              RowsAmong(m, id, buf, items[..n])
              + if Wanted(m, items[n]) && items[n].offset + items[n].len <= |buf| then [RowFor(id, buf, items[n])]
                else []
    ensures BytesSkipped(buf, items[..n + 1]) ==
              if items[n].Undecodable? && items[n].offset <= |buf| then |buf| - items[n].offset else 0
  {
    assert items[..n + 1][..n] == items[..n];
  }

  lemma SeqSplit(s: seq<Item>)
    ensures s != [] ==> s == [s[0]] + s[1..]
  {
  }

  lemma ItemEnds(env: Env, buf: seq<byte>, m: Histories, item: Item)
    requires Located(env, buf, m, item) && !item.Undecodable?
    ensures item.offset + item.len <= |buf|
  {
    hide ItemAt, Arity;
    ItemExtent(env, buf, item.offset, |buf|, Arity(m));
  }
}
