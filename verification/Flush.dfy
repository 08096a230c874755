/**
 * A flush from segment bytes to staged files: decoding, the external sort and
 * the hourly split composed (src/flush/planner.rs, `run` up to its commit point).
 */
module Flush {
  import opened Bytes
  import opened Codec
  import opened Segments
  import opened Arrivals
  import opened Groups
  import opened Batch
  import opened FlushSort
  import opened Manifest
  import opened Accept
  import opened SegmentRows
  import opened RunFile
  import opened Partition

  /** Every series name leaves the id's offset addressable in 16 bits. */
  ghost predicate ShortNames(m: Histories) { forall s :: s in m ==> 24 + |s| < U16_END }

  /** A readable segment under 4 GiB. */
  predicate Readable(buf: seq<byte>) { ParseSegmentHeader(buf).Ok? && |buf| < U32_END }

  // ---- rows of one segment ----------------------------------------------------------------------

  ghost predicate Ascend(items: seq<Item>) { forall i, j :: 0 <= i < j < |items| ==> items[i].offset < items[j].offset }

  lemma {:induction false} OffsetsAscend(env: Env, buf: seq<byte>, m: Histories, at: nat)
    requires at <= |buf|
    ensures Ascend(ReadAll(env, buf, at, |buf|, Arity(m)))
    decreases |buf| - at
  {
    hide ItemAt, ValidatePrefix, Arity;
    var items := ReadAll(env, buf, at, |buf|, Arity(m));
    if items != [] && !items[0].Undecodable? {
      ItemExtent(env, buf, at, |buf|, Arity(m));
      var next := at + items[0].len;
      OffsetsAscend(env, buf, m, next);
      var rest := ReadAll(env, buf, next, |buf|, Arity(m));
      assert items == [items[0]] + rest;
      forall k | 0 <= k < |rest| ensures rest[k].offset > items[0].offset { AllLocated(env, buf, m, next, k); }
    }
  }

  /** The rows of a segment carry its id, in offset order, and lie before `end`. */
  ghost predicate FromSegment(rows: seq<Tagged>, id: nat, end: nat) {
    && (forall i :: 0 <= i < |rows| ==> rows[i].1.arrival.0 == id && rows[i].1.arrival.1 < end)
    && (forall i, j :: 0 <= i < j < |rows| ==> rows[i].1.arrival.1 < rows[j].1.arrival.1)
  }

  ghost predicate InSegment(rows: seq<Tagged>, id: nat) { exists end :: FromSegment(rows, id, end) }

  lemma OneMoreRow(rows: seq<Tagged>, row: Tagged, id: nat, mid: nat, end: nat)
    requires FromSegment(rows, id, mid) && row.1.arrival == (id, mid) && mid < end
    ensures FromSegment(rows + [row], id, end) && FromSegment(rows, id, end)
  {
  }

  lemma RowsLast(rows: seq<Decoded>, d: Decoded)
    ensures Rows(rows + [d]) == Rows(rows) + [(d.key, d.entry)]
  {
    var r := rows + [d];
    assert r[..|r| - 1] == rows;
  }

  lemma AscendInit(items: seq<Item>)
    requires Ascend(items) && items != []
    ensures var init, end := items[..|items| - 1], items[|items| - 1].offset;
            Ascend(init) && forall i :: 0 <= i < |init| ==> init[i].offset < end
  {
  }

  lemma RowArrives(id: nat, buf: seq<byte>, item: Item)
    requires item.Frame? && item.offset + item.len <= |buf|
    ensures RowFor(id, buf, item).entry.arrival == (id, item.offset)
  {
  }

  lemma {:induction false} RowsInOrder(m: Histories, id: nat, buf: seq<byte>, items: seq<Item>, end: nat)
    requires Ascend(items) && forall i :: 0 <= i < |items| ==> items[i].offset < end
    ensures FromSegment(Rows(RowsAmong(m, id, buf, items)), id, end)
    decreases |items|
  {
    if items != [] {
      hide Wanted, FromSegment, Rows, Ascend, RowFor;
      var n := |items| - 1;
      var init, item := items[..n], items[n];
      AscendInit(items);
      RowsInOrder(m, id, buf, init, item.offset);
      var before := RowsAmong(m, id, buf, init);
      assert before + [] == before;
      OneMoreRow(Rows(before), (([], 0), Entry(0, [], (id, item.offset), [])), id, item.offset, end);
      WantedIsFrame(m, item);
      if Wanted(m, item) && item.offset + item.len <= |buf| {
        var d := RowFor(id, buf, item);
        RowArrives(id, buf, item);
        RowsLast(before, d);
        OneMoreRow(Rows(before), (d.key, d.entry), id, item.offset, end);
      }
    }
  }

  lemma WantedIsFrame(m: Histories, item: Item)
    ensures Wanted(m, item) ==> item.Frame?
  {
  }

  lemma {:induction false} RowsStorable(env: Env, m: Histories, id: nat, buf: seq<byte>, items: seq<Item>)
    requires id < U64_END && Readable(buf) && ShortNames(m)
    requires forall i :: 0 <= i < |items| ==> Located(env, buf, m, items[i])
    ensures forall i :: 0 <= i < |RowsAmong(m, id, buf, items)| ==> Storable(RowsAmong(m, id, buf, items)[i])
    ensures |Rows(RowsAmong(m, id, buf, items))| == |RowsAmong(m, id, buf, items)|
    ensures RowsWritable(Rows(RowsAmong(m, id, buf, items)))
    decreases |items|
  {
    hide Located, Storable, ParseSegmentHeader, Writable;
    if items != [] {
      var n := |items| - 1;
      var init, item := items[..n], items[n];
      assert forall i :: 0 <= i < n ==> init[i] == items[i];
      RowsStorable(env, m, id, buf, init);
      if Wanted(m, item) { RowIsStorable(env, id, buf, m, item); }
      var before, rows := RowsAmong(m, id, buf, init), RowsAmong(m, id, buf, items);
      if rows != before { assert rows[..|rows| - 1] == before; }
    }
  }

  // ---- rows of all segments ------------------------------------------------------------------------

  ghost predicate OfSegments(segments: seq<seq<Decoded>>, ids: seq<nat>) {
    |segments| == |ids| && forall i :: 0 <= i < |ids| ==> InSegment(Rows(segments[i]), ids[i])
  }

  ghost predicate IdsAscend(ids: seq<nat>) { forall i, j :: 0 <= i < j < |ids| ==> ids[i] < ids[j] }

  /** Ids in order and offsets in order make arrivals grow over the whole flush. */
  lemma {:induction false} FlushInOrder(segments: seq<seq<Decoded>>, ids: seq<nat>)
    requires OfSegments(segments, ids) && IdsAscend(ids)
    ensures InArrivalOrder(AllRows(segments))
    ensures forall i :: 0 <= i < |AllRows(segments)| ==>
              exists k :: 0 <= k < |ids| && AllRows(segments)[i].1.arrival.0 == ids[k]
    decreases |segments|
  {
    hide Rows;
    if segments != [] {
      var n := |segments| - 1;
      var init, last := AllRows(segments[..n]), Rows(segments[n]);
      assert forall i :: 0 <= i < n ==> segments[..n][i] == segments[i] && ids[..n][i] == ids[i];
      FlushInOrder(segments[..n], ids[..n]);
      var all := AllRows(segments);
      assert all == init + last;
      forall i | 0 <= i < |all|
        ensures exists k :: 0 <= k < |ids| && all[i].1.arrival.0 == ids[k] && (i < |init| ==> k < n)
                  && (i >= |init| ==> k == n)
      {
        if i < |init| {
          var k :| 0 <= k < n && init[i].1.arrival.0 == ids[..n][k];
          assert ids[k] == ids[..n][k];
        } else {
          assert all[i] == last[i - |init|];
        }
      }
      forall i, j | 0 <= i < j < |all| ensures ArrivalLess(all[i].1.arrival, all[j].1.arrival) {
        OrderedPair(init, last, ids, n, i, j);
      }
    }
  }

  lemma OrderedPair(init: seq<Tagged>, last: seq<Tagged>, ids: seq<nat>, n: nat, i: nat, j: nat)
    requires n < |ids| && IdsAscend(ids) && InArrivalOrder(init) && i < j < |init + last|
    requires InSegment(last, ids[n])
    requires i < |init| ==> exists k :: 0 <= k < n && init[i].1.arrival.0 == ids[k]
    ensures ArrivalLess((init + last)[i].1.arrival, (init + last)[j].1.arrival)
  {
    if j >= |init| {
      assert (init + last)[j] == last[j - |init|];
      if i >= |init| { assert (init + last)[i] == last[i - |init|]; }
    }
  }

  /** What a flush is asked to read, and what it may be configured with. */
  ghost predicate FlushInput(m: Histories, ids: seq<nat>, bufs: seq<seq<byte>>) {
    && |bufs| == |ids| && IdsAscend(ids) && ShortNames(m)
    && forall i :: 0 <= i < |ids| ==> ids[i] < U64_END && Readable(bufs[i])
  }

  function ItemsOf(env: Env, m: Histories, buf: seq<byte>): seq<Item>
    requires Readable(buf)
  {
    HeaderLength(buf); ReadAll(env, buf, SEGMENT_HEADER_BYTES, |buf|, Arity(m))
  }

  /** How many items all the segments hold. */
  function Items(env: Env, m: Histories, bufs: seq<seq<byte>>): nat
    requires forall i :: 0 <= i < |bufs| ==> Readable(bufs[i])
  {
    if bufs == [] then 0 else Items(env, m, bufs[..|bufs| - 1]) + |ItemsOf(env, m, bufs[|bufs| - 1])|
  }

  /** The bytes that all the segments hold behind an undecodable length. */
  function Skipped(env: Env, m: Histories, bufs: seq<seq<byte>>): nat
    requires forall i :: 0 <= i < |bufs| ==> Readable(bufs[i])
  {
    if bufs == [] then 0
    else
      var n := |bufs| - 1;
      Skipped(env, m, bufs[..n]) + BytesSkipped(bufs[n], ItemsOf(env, m, bufs[n]))
  }

  /** The rows each segment contributes. */
  function DecodedRows(env: Env, m: Histories, ids: seq<nat>, bufs: seq<seq<byte>>): (r: seq<seq<Decoded>>)
    requires |bufs| == |ids| && forall i :: 0 <= i < |bufs| ==> Readable(bufs[i])
    ensures |r| == |ids|
    ensures forall i :: 0 <= i < |ids| ==> r[i] == RowsAmong(m, ids[i], bufs[i], ItemsOf(env, m, bufs[i]))
  {
    seq(|ids|, i requires 0 <= i < |ids| => RowsAmong(m, ids[i], bufs[i], ItemsOf(env, m, bufs[i])))
  }

  /** The rows of one segment lie in it, in order, and each can be batched and spilled. */
  ghost predicate WellDecoded(rows: seq<Decoded>, id: nat) {
    && InSegment(Rows(rows), id) && |Rows(rows)| == |rows| && RowsWritable(Rows(rows))
    && forall j :: 0 <= j < |rows| ==> Storable(rows[j])
  }

  lemma {:induction false} AllWellDecoded(segments: seq<seq<Decoded>>, ids: seq<nat>)
    requires |segments| == |ids| && forall i :: 0 <= i < |ids| ==> WellDecoded(segments[i], ids[i])
    ensures OfSegments(segments, ids) && RowsWritable(AllRows(segments))
    ensures forall i, j :: 0 <= i < |segments| && 0 <= j < |segments[i]| ==> Storable(segments[i][j])
    decreases |segments|
  {
    hide Storable, InSegment, Rows, Writable;
    if segments != [] { AllWellDecoded(segments[..|segments| - 1], ids[..|ids| - 1]); }
  }

  /** What one more segment adds to the totals. */
  lemma OneMoreSegment(env: Env, m: Histories, segments: seq<seq<Decoded>>, rows: seq<Decoded>, bufs: seq<seq<byte>>,
                       n: nat)
    requires n < |bufs| && forall i :: 0 <= i < |bufs| ==> Readable(bufs[i])
    ensures AllRows(segments + [rows]) == AllRows(segments) + Rows(rows)
    ensures Items(env, m, bufs[..n + 1]) == Items(env, m, bufs[..n]) + |ItemsOf(env, m, bufs[n])|
    ensures Skipped(env, m, bufs[..n + 1])
              == Skipped(env, m, bufs[..n]) + BytesSkipped(bufs[n], ItemsOf(env, m, bufs[n]))
  {
    hide ItemsOf, BytesSkipped, Rows, ParseSegmentHeader;
    var more := segments + [rows];
    assert more[..|segments|] == segments && bufs[..n + 1][..n] == bufs[..n];
  }

  /** Decode every segment; each item is a row or a reject, and what follows an undecodable length is skipped. */
  method DecodeAll(env: Env, m: Histories, ids: seq<nat>, bufs: seq<seq<byte>>)
    returns (segments: seq<seq<Decoded>>, rejected: nat, skipped: nat)
    requires FlushInput(m, ids, bufs)
    ensures segments == DecodedRows(env, m, ids, bufs) && OfSegments(segments, ids)
    ensures |AllRows(segments)| + rejected == Items(env, m, bufs) && skipped == Skipped(env, m, bufs)
    ensures RowsWritable(AllRows(segments))
    ensures forall i, j :: 0 <= i < |segments| && 0 <= j < |segments[i]| ==> Storable(segments[i][j])
  {
    hide ReadAll, RowsAmong, Storable, InSegment, Rows, ShortNames, ParseSegmentHeader, ItemsOf, BytesSkipped,
      WellDecoded, AllRows, Items, Skipped, RowsWritable;
    segments, rejected, skipped := [], 0, 0;
    NothingDecoded(env, m);
    assert bufs[..0] == [];
    for n := 0 to |ids|
      invariant |segments| == n && |AllRows(segments)| + rejected == Items(env, m, bufs[..n])
      invariant skipped == Skipped(env, m, bufs[..n])
      invariant forall i :: 0 <= i < n ==> WellDecoded(segments[i], ids[i])
      invariant forall i :: 0 <= i < n ==> segments[i] == RowsAmong(m, ids[i], bufs[i], ItemsOf(env, m, bufs[i]))
    {
      var rows, r, s := DecodeSegment(env, ids[n], bufs[n], m);
      ItemsAre(env, m, bufs[n]);
      SegmentDecoded(env, m, ids[n], bufs[n], ItemsOf(env, m, bufs[n]));
      OneMoreSegment(env, m, segments, rows, bufs, n);
      segments, rejected, skipped := segments + [rows], rejected + r, skipped + s;
    }
    assert bufs[..|ids|] == bufs;
    AllWellDecoded(segments, ids);
  }

  lemma NothingDecoded(env: Env, m: Histories)
    ensures AllRows([]) == [] && Items(env, m, []) == 0 == Skipped(env, m, [])
  {
  }

  lemma ItemsAre(env: Env, m: Histories, buf: seq<byte>)
    requires Readable(buf)
    ensures |buf| >= SEGMENT_HEADER_BYTES
    ensures ItemsOf(env, m, buf) == ReadAll(env, buf, SEGMENT_HEADER_BYTES, |buf|, Arity(m))
  {
    HeaderLength(buf);
  }

  lemma SegmentDecoded(env: Env, m: Histories, id: nat, buf: seq<byte>, items: seq<Item>)
    requires id < U64_END && Readable(buf) && ShortNames(m) && |buf| >= SEGMENT_HEADER_BYTES
    requires items == ReadAll(env, buf, SEGMENT_HEADER_BYTES, |buf|, Arity(m))
    ensures WellDecoded(RowsAmong(m, id, buf, items), id)
    ensures |Rows(RowsAmong(m, id, buf, items))| == |RowsAmong(m, id, buf, items)|
  {
    hide ReadAll, RowsAmong, Storable, Rows, ShortNames, ParseSegmentHeader, Arity, ItemAt, Writable;
    OffsetsAscend(env, buf, m, SEGMENT_HEADER_BYTES);
    forall i | 0 <= i < |items|
      ensures Located(env, buf, m, items[i])
    {
      AllLocated(env, buf, m, SEGMENT_HEADER_BYTES, i);
    }
    RowsInOrder(m, id, buf, items, |buf| + 1);
    RowsStorable(env, m, id, buf, items);
  }

  /**
   * Each group's files, in hour order, are its records sorted by `(ts, id)` with the first arrival of
   * each kept; a group without records has no file.
   */
  ghost predicate FilesDeliver(staged: seq<(GroupKey, Staged)>, rows: seq<Tagged>) {
    && (forall g :: Of(rows, g) != [] ==>
          ByHour(FilesOf(staged, g)) && IsStreamOf(Concat(FilesOf(staged, g)), Elements(Of(rows, g))))
    && (forall i :: 0 <= i < |staged| ==> Of(rows, staged[i].0) != [])
  }

  lemma StagedDeliver(staged: seq<(GroupKey, Staged)>, streams: Runs, rows: seq<Tagged>)
    requires Delivered(streams, rows) && Stages(staged, streams, |streams|)
    ensures FilesDeliver(staged, rows)
  {
    hide Of, FilesOf, Concat, ByHour, IsStreamOf, Elements;
    forall g | Of(rows, g) != []
      ensures ByHour(FilesOf(staged, g)) && IsStreamOf(Concat(FilesOf(staged, g)), Elements(Of(rows, g)))
    {
      var i :| 0 <= i < |streams| && streams[i].0 == g;
    }
  }

  /**
   * A whole flush, whatever its budget and fan-in: the files deliver exactly the segments' matching
   * records, no staged path is created twice, every file lies where its group and hour put it.
   * Every item read is a row or a reject, every row is in a file or a duplicate, and the bytes
   * behind each segment's undecodable length are counted.
   */
  method FlushSegments(env: Env, m: Histories, ids: seq<nat>, bufs: seq<seq<byte>>, budget: nat, fanIn: nat,
                       size: seq<byte> -> nat)
    returns (staged: seq<(GroupKey, Staged)>, written: nat, deduplicated: nat, rejected: nat, skipped: nat)
    requires FlushInput(m, ids, bufs) && ids != []
    ensures FilesDeliver(staged, AllRows(DecodedRows(env, m, ids, bufs)))
    ensures PathsOnce(staged) && WellPlaced(staged, ids[0], ids[|ids| - 1])
    ensures written == RowsStaged(staged)
    ensures written + deduplicated == |AllRows(DecodedRows(env, m, ids, bufs))|
    ensures |AllRows(DecodedRows(env, m, ids, bufs))| + rejected == Items(env, m, bufs)
    ensures skipped == Skipped(env, m, bufs)
  {
    hide OfSegments, Storable, AllRows, Delivered, Stages, PathsOnce, WellPlaced, RowsAmong, ReadAll, ShortNames,
      InArrivalOrder, Items, DecodedRows, FilesDeliver, RowsWritable, Size, RowsStaged, Skipped;
    var decoded;
    decoded, rejected, skipped := DecodeAll(env, m, ids, bufs);
    FlushInOrder(decoded, ids);
    var sorted;
    sorted, written, deduplicated := SortFlush(decoded, budget, fanIn, size);
    staged := StageAll(sorted, ids[0], ids[|ids| - 1], AllRows(decoded));
    StagedDeliver(staged, sorted, AllRows(decoded));
  }
}
