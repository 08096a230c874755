/**
 * The sink of a flush (src/flush/planner.rs, the closure of `merge_partition`): each merged frame is
 * decoded again, without its CRC, and appended to the hour's Parquet writer. The first refused row
 * fails the flush.
 */
module Sink {
  import opened Bytes
  import opened Decimal
  import opened Codec
  import opened Segments
  import opened Arrivals
  import opened Groups
  import opened FlushSort
  import opened Columns
  import opened Manifest
  import opened Accept
  import opened SegmentRows
  import opened Partition
  import opened Flush
  import opened RowGroups

  // ---- what a batched row carries -----------------------------------------------------------

  /** `r` is the record of this frame: of the group it is stored under, with the values its schema declares. */
  ghost predicate Genuine(env: Env, m: Histories, x: Tagged, r: Record) {
    && Fits(env, r) && x.1.frame == PutFrame(env, PutPayload(r)) && x.0 == (r.series, r.epoch)
    && x.1.ts == r.row.ts && x.1.id == r.row.id
    && Schema(m, r.series, r.epoch).Some? && MatchesSchema(Schema(m, r.series, r.epoch).value, r.row.keys)
  }

  function TaggedRow(id: nat, buf: seq<byte>, item: Item): Tagged
    requires item.Frame? && item.offset + item.len <= |buf|
  {
    (RowFor(id, buf, item).key, RowFor(id, buf, item).entry)
  }

  lemma RowIsGenuine(env: Env, m: Histories, id: nat, buf: seq<byte>, item: Item)
    requires Located(env, buf, m, item) && Wanted(m, item)
    ensures item.offset + item.len <= |buf| && Genuine(env, m, TaggedRow(id, buf, item), item.record)
  {
    hide Located, MatchesSchema, Schema, PutFrame, PutPayload, Fits;
    FrameBytes(env, buf, m, item);
  }

  /** Some wanted item became this row. */
  ghost predicate IsRowOf(m: Histories, id: nat, buf: seq<byte>, item: Item, x: Tagged) {
    Wanted(m, item) && item.offset + item.len <= |buf| && x == TaggedRow(id, buf, item)
  }

  lemma {:induction false} RowsAmongAre(m: Histories, id: nat, buf: seq<byte>, items: seq<Item>, x: Tagged)
    ensures x in Rows(RowsAmong(m, id, buf, items)) <==>
              exists k :: 0 <= k < |items| && IsRowOf(m, id, buf, items[k], x)
    decreases |items|
  {
    hide Wanted, RowFor, Rows, IsRowOf, RowsAmong;
    NoItems(m, id, buf);
    NoRowsAt();
    if items != [] {
      var n := |items| - 1;
      var init, item := items[..n], items[n];
      RowsAmongAre(m, id, buf, init, x);
      OneMoreItem(m, id, buf, items, n);
      assert items[..n + 1] == items && forall k :: 0 <= k < n ==> init[k] == items[k];
      LastRow(m, id, buf, RowsAmong(m, id, buf, init), item, x);
    }
  }

  lemma NoRowsAt()
    ensures Rows([]) == []
  {
  }

  lemma LastRow(m: Histories, id: nat, buf: seq<byte>, before: seq<Decoded>, item: Item, x: Tagged)
    ensures Wanted(m, item) ==> item.Frame?
    ensures var more := if Wanted(m, item) && item.offset + item.len <= |buf| then [RowFor(id, buf, item)] else [];
            x in Rows(before + more) <==> x in Rows(before) || IsRowOf(m, id, buf, item, x)
  {
    hide RowFor, Rows;
    WantedIsFrame(m, item);
    if Wanted(m, item) && item.offset + item.len <= |buf| {
      RowsLast(before, RowFor(id, buf, item));
    } else {
      assert before + [] == before;
    }
  }

  lemma {:induction false} AllRowsAre(segments: seq<seq<Decoded>>, x: Tagged)
    ensures x in AllRows(segments) <==> exists i :: 0 <= i < |segments| && x in Rows(segments[i])
  {
    hide Rows;
    if segments != [] { AllRowsAre(segments[..|segments| - 1], x); }
  }

  /** Every row of a flush is some wanted item of one of its segments. */
  lemma FlushRowsAre(env: Env, m: Histories, ids: seq<nat>, bufs: seq<seq<byte>>, x: Tagged)
    requires FlushInput(m, ids, bufs)
    ensures x in AllRows(DecodedRows(env, m, ids, bufs)) <==>
            exists i, k :: 0 <= i < |bufs| && 0 <= k < |ItemsOf(env, m, bufs[i])|
                           && IsRowOf(m, ids[i], bufs[i], ItemsOf(env, m, bufs[i])[k], x)
  {
    hide Rows, RowsAmong, AllRows, ItemsOf, IsRowOf, ParseSegmentHeader, ShortNames;
    var rows := DecodedRows(env, m, ids, bufs);
    AllRowsAre(rows, x);
    forall i | 0 <= i < |bufs|
      ensures x in Rows(rows[i]) <==>
              exists k :: 0 <= k < |ItemsOf(env, m, bufs[i])|
                && IsRowOf(m, ids[i], bufs[i], ItemsOf(env, m, bufs[i])[k], x)
    {
      RowsAmongAre(m, ids[i], bufs[i], ItemsOf(env, m, bufs[i]), x);
    }
  }

  lemma ItemLocated(env: Env, m: Histories, buf: seq<byte>, k: nat)
    requires Readable(buf) && k < |ItemsOf(env, m, buf)|
    ensures Located(env, buf, m, ItemsOf(env, m, buf)[k])
  {
    hide ItemsOf, ReadAll, Located, ParseSegmentHeader;
    ItemsAre(env, m, buf);
    AllLocated(env, buf, m, SEGMENT_HEADER_BYTES, k);
  }

  /** Every row the flush batches has its record. */
  lemma FlushRowsGenuine(env: Env, m: Histories, ids: seq<nat>, bufs: seq<seq<byte>>, x: Tagged)
    returns (r: Record)
    requires FlushInput(m, ids, bufs) && x in AllRows(DecodedRows(env, m, ids, bufs))
    ensures Genuine(env, m, x, r)
  {
    hide AllRows, DecodedRows, ItemsOf, Genuine, ParseSegmentHeader, Located, RowFor, ShortNames;
    FlushRowsAre(env, m, ids, bufs, x);
    var i, k :| 0 <= i < |bufs| && 0 <= k < |ItemsOf(env, m, bufs[i])|
                && IsRowOf(m, ids[i], bufs[i], ItemsOf(env, m, bufs[i])[k], x);
    ItemLocated(env, m, bufs[i], k);
    RowIsGenuine(env, m, ids[i], bufs[i], ItemsOf(env, m, bufs[i])[k]);
    r := ItemsOf(env, m, bufs[i])[k].record;
  }

  // ---- decoding again and appending -----------------------------------------------------------

  /** The row a stored frame decodes to. */
  function Redecode(env: Env, width: nat, e: Entry): Option<Row> {
    match DecodeVerified(env, e.frame, width) case Ok((r, _)) => Some(r.row) case Err(_) => None
  }

  /** Decoding without the CRC recovers the record. */
  lemma GenuineRedecodes(env: Env, m: Histories, x: Tagged, r: Record)
    requires Genuine(env, m, x, r)
    ensures Schema(m, x.0.0, x.0.1).Some?
    ensures DecodeVerified(env, x.1.frame, |Schema(m, x.0.0, x.0.1).value|) == Ok((r, |x.1.frame|))
  {
    hide PutPayload, PutFrame, Decode, VerifiedSortKey, ValidatePrefix, DecodeVerified, FieldsFit, Schema;
    var f := x.1.frame;
    FrameLength(env, PutPayload(r));
    assert f[0..|f|] == f;
    DecodeCodes(env, f, |r.row.keys|, |f|, r, |f|);
    ReadersAgree(env, f, |r.row.keys|, |f|, r, |f|);
  }

  /** The writer of a file with these keys takes the entry. */
  predicate Sinks(env: Env, keys: seq<KeyDef>, e: Entry) {
    Redecode(env, |keys|, e).Some? && RowFits(Types(keys), Redecode(env, |keys|, e).value)
  }

  /** A row of the flush is refused for its timestamp or not at all. */
  lemma GenuineSinks(env: Env, m: Histories, x: Tagged, r: Record)
    requires Genuine(env, m, x, r)
    ensures Schema(m, x.0.0, x.0.1).Some?
    ensures var keys := Schema(m, x.0.0, x.0.1).value;
            Redecode(env, |keys|, x.1) == Some(r.row) && (Sinks(env, keys, x.1) <==> x.1.ts < TS_END)
  {
    hide DecodeVerified, Schema, Types, RowFits, MatchesSchema, PutFrame, PutPayload, Fits;
    GenuineRedecodes(env, m, x, r);
    MatchingRowsFit(Schema(m, x.0.0, x.0.1).value, r.row);
  }

  /** The rows of entries that all decode. */
  function Redecoded(env: Env, width: nat, entries: seq<Entry>): (r: seq<Row>)
    requires forall i :: 0 <= i < |entries| ==> Redecode(env, width, entries[i]).Some?
    ensures |r| == |entries| && forall i :: 0 <= i < |entries| ==> Some(r[i]) == Redecode(env, width, entries[i])
  {
    seq(|entries|, i requires 0 <= i < |entries| => Redecode(env, width, entries[i]).value)
  }

  datatype Sunk = Finished(groups: seq<Group>) | Garbled(at: nat) | Refused(at: nat, why: AppendResult)

  /** Write one staged file, row by row, until its end or the first row that fails. */
  method WriteEntries(env: Env, keys: seq<KeyDef>, entries: seq<Entry>, rowGroupRows: nat) returns (r: Sunk)
    ensures r.Finished? <==> forall i :: 0 <= i < |entries| ==> Sinks(env, keys, entries[i])
    ensures r.Finished? ==> ReadBack(r.groups, StoredRows(Redecoded(env, |keys|, entries)))
    ensures r.Finished? ==>
              AreGroupsOf(r.groups, |keys|, CutRows(Redecoded(env, |keys|, entries), AtLeastOne(rowGroupRows)))
    ensures !r.Finished? ==>
              r.at < |entries| && !Sinks(env, keys, entries[r.at]) && forall k :: 0 <= k < r.at ==>
                Sinks(env, keys, entries[k])
    ensures r.Garbled? ==> Redecode(env, |keys|, entries[r.at]).None?
    ensures r.Refused? ==>
              var got := Redecode(env, |keys|, entries[r.at]);
              got.Some? && (r.why.TsRange? <==> |got.value.keys| == |keys| && got.value.ts >= TS_END)
  {
    hide Redecode, Redecoded, RowFits, Types, IsGroupOf, CutRows, ReadBack, Joined, StoredRows, ColsHold, AreGroupsOf;
    var w := new PartitionWriter(Types(keys), rowGroupRows);
    ghost var rows := [];
    for i := 0 to |entries|
      invariant w.Valid() && fresh(w) && fresh(w.builder) && w.builder.types == Types(keys)
      invariant w.groupRows == AtLeastOne(rowGroupRows) && w.All() == rows && |rows| == i
      invariant forall k :: 0 <= k < i ==>
                  Redecode(env, |keys|, entries[k]) == Some(rows[k]) && RowFits(Types(keys), rows[k])
    {
      var got := Redecode(env, |keys|, entries[i]);
      if got.None? { return Garbled(i); }
      var a := w.Append(got.value);
      if !a.Appended? { return Refused(i, a); }
      rows := rows + [got.value];
    }
    RedecodedAre(env, |keys|, entries, rows);
    var count := w.Finish();
    FileReadsBack(w.groups, Types(keys), rows, w.groupRows);
    r := Finished(w.groups);
  }

  lemma RedecodedAre(env: Env, width: nat, entries: seq<Entry>, rows: seq<Row>)
    requires |rows| == |entries| && forall k :: 0 <= k < |entries| ==> Redecode(env, width, entries[k]) == Some(rows[k])
    ensures Redecoded(env, width, entries) == rows
  {
    hide Redecode, Redecoded;
  }

  // ---- a whole flush ----------------------------------------------------------------------------

  function RowsOfRecords(records: seq<Record>): (r: seq<Row>)
    ensures |r| == |records| && forall i :: 0 <= i < |records| ==> r[i] == records[i].row
  {
    if records == [] then [] else RowsOfRecords(records[..|records| - 1]) + [records[|records| - 1].row]
  }

  /** `records` are the records of these entries of group `g`. */
  ghost predicate AreRecords(env: Env, m: Histories, g: GroupKey, entries: seq<Entry>, records: seq<Record>) {
    |records| == |entries| && forall j :: 0 <= j < |entries| ==> Genuine(env, m, (g, entries[j]), records[j])
  }

  /** The file reads back as exactly the rows of the records staged in it. */
  ghost predicate FileHolds(env: Env, m: Histories, s: (GroupKey, Staged), groups: seq<Group>) {
    exists records :: AreRecords(env, m, s.0, s.1.file.rows, records)
      && ReadBack(groups, StoredRows(RowsOfRecords(records)))
  }

  lemma {:induction false} RecordsOf(env: Env, m: Histories, ids: seq<nat>, bufs: seq<seq<byte>>, g: GroupKey,
                                     entries: seq<Entry>)
    returns (records: seq<Record>)
    requires FlushInput(m, ids, bufs)
    requires forall j :: 0 <= j < |entries| ==> (g, entries[j]) in AllRows(DecodedRows(env, m, ids, bufs))
    ensures AreRecords(env, m, g, entries, records)
    decreases |entries|
  {
    hide AllRows, DecodedRows, FlushInput, Genuine;
    if entries == [] {
      records := [];
    } else {
      var n := |entries| - 1;
      var init := RecordsOf(env, m, ids, bufs, g, entries[..n]);
      var r := FlushRowsGenuine(env, m, ids, bufs, (g, entries[n]));
      records := init + [r];
    }
  }

  /** Write one staged file with the schema of its group: only a timestamp can be refused. */
  method WriteStaged(env: Env, m: Histories, s: (GroupKey, Staged), rowGroupRows: nat, ghost records: seq<Record>)
    returns (r: Sunk)
    requires s.1.file.rows != [] && AreRecords(env, m, s.0, s.1.file.rows, records)
    ensures r.Finished? <==> forall j :: 0 <= j < |s.1.file.rows| ==> s.1.file.rows[j].ts < TS_END
    ensures r.Finished? ==> FileHolds(env, m, s, r.groups)
    ensures !r.Finished? ==> r.Refused? && r.why.TsRange?
  {
    hide Redecode, Redecoded, Sinks, Schema, Genuine, ReadBack, AreGroupsOf, CutRows, StoredRows;
    var keys := match Schema(m, s.0.0, s.0.1) case Some(keys) => keys case None => [];
    forall j | 0 <= j < |records|
      ensures Redecode(env, |keys|, s.1.file.rows[j]) == Some(records[j].row) && |records[j].row.keys| == |keys|
      ensures records[j].row.ts == s.1.file.rows[j].ts
      ensures Sinks(env, keys, s.1.file.rows[j]) <==> s.1.file.rows[j].ts < TS_END
    {
      GenuineSinks(env, m, (s.0, s.1.file.rows[j]), records[j]);
      GenuineArity(env, m, (s.0, s.1.file.rows[j]), records[j]);
    }
    r := WriteEntries(env, keys, s.1.file.rows, rowGroupRows);
    if r.Finished? { RedecodedAre(env, |keys|, s.1.file.rows, RowsOfRecords(records)); }
  }

  lemma GenuineArity(env: Env, m: Histories, x: Tagged, r: Record)
    requires Genuine(env, m, x, r)
    ensures Schema(m, x.0.0, x.0.1).Some? && |r.row.keys| == |Schema(m, x.0.0, x.0.1).value| && r.row.ts == x.1.ts
  {
  }

  /** A wanted record whose timestamp Parquet cannot carry. */
  predicate TooLate(m: Histories, item: Item) { Wanted(m, item) && item.record.row.ts >= TS_END }

  ghost predicate Blocks(env: Env, m: Histories, buf: seq<byte>)
    requires Readable(buf)
  {
    exists k :: 0 <= k < |ItemsOf(env, m, buf)| && TooLate(m, ItemsOf(env, m, buf)[k])
  }

  /** A flush reads a late row exactly when one of its segments holds one. */
  lemma LateRows(env: Env, m: Histories, ids: seq<nat>, bufs: seq<seq<byte>>)
    requires FlushInput(m, ids, bufs)
    ensures (exists i :: 0 <= i < |bufs| && Blocks(env, m, bufs[i])) <==>
            exists x :: x in AllRows(DecodedRows(env, m, ids, bufs)) && x.1.ts >= TS_END
  {
    hide AllRows, DecodedRows, ItemsOf, ParseSegmentHeader, Located, ShortNames, Wanted;
    if i :| 0 <= i < |bufs| && Blocks(env, m, bufs[i]) {
      var items := ItemsOf(env, m, bufs[i]);
      var k :| 0 <= k < |items| && TooLate(m, items[k]);
      ItemLocated(env, m, bufs[i], k);
      RowIsGenuine(env, m, ids[i], bufs[i], items[k]);
      WantedIsFrame(m, items[k]);
      var x := TaggedRow(ids[i], bufs[i], items[k]);
      assert IsRowOf(m, ids[i], bufs[i], items[k], x);
      FlushRowsAre(env, m, ids, bufs, x);
    }
    if x :| x in AllRows(DecodedRows(env, m, ids, bufs)) && x.1.ts >= TS_END {
      FlushRowsAre(env, m, ids, bufs, x);
      var i, k :| 0 <= i < |bufs| && 0 <= k < |ItemsOf(env, m, bufs[i])|
                  && IsRowOf(m, ids[i], bufs[i], ItemsOf(env, m, bufs[i])[k], x);
      WantedIsFrame(m, ItemsOf(env, m, bufs[i])[k]);
      assert TooLate(m, ItemsOf(env, m, bufs[i])[k]);
      assert Blocks(env, m, bufs[i]);
    }
  }

  lemma {:induction false} ConcatHolds(staged: seq<(GroupKey, Staged)>, g: GroupKey, e: Entry)
    ensures e in Concat(FilesOf(staged, g)) <==>
            exists i :: 0 <= i < |staged| && staged[i].0 == g && e in staged[i].1.file.rows
  {
    hide Concat;
    if staged == [] {
      NothingOpen();
      assert [] + Pending(None) == [];
    } else {
      var n := |staged| - 1;
      ConcatHolds(staged[..n], g, e);
      var init := FilesOf(staged[..n], g);
      ConcatLast(init, staged[n].1.file);
      assert init + [] == init;
    }
  }

  /** Every staged entry is a row of the flush. */
  lemma StagedAreRows(staged: seq<(GroupKey, Staged)>, rows: seq<Tagged>, i: nat, j: nat)
    requires FilesDeliver(staged, rows) && i < |staged| && j < |staged[i].1.file.rows|
    ensures (staged[i].0, staged[i].1.file.rows[j]) in rows
  {
    hide Of, FilesOf, Concat, ByHour, First;
    var g, e := staged[i].0, staged[i].1.file.rows[j];
    ConcatHolds(staged, g, e);
    assert e in Elements(Concat(FilesOf(staged, g)));
    Merge.FirstIsSubset(Elements(Of(rows, g)));
    OfMembers(rows, g);
  }

  /** The survivor of a row's key is in a file of its group. */
  lemma SurvivorInFile(staged: seq<(GroupKey, Staged)>, rows: seq<Tagged>, x: Tagged) returns (i: nat, e: Entry)
    requires FilesDeliver(staged, rows) && x in rows
    ensures i < |staged| && staged[i].0 == x.0 && e in staged[i].1.file.rows && SameKey(e, x.1) && (x.0, e) in rows
  {
    hide Of, FilesOf, Concat, ByHour, First;
    OfMembers(rows, x.0);
    var all := Elements(Of(rows, x.0));
    e := SurvivorOf(all, x.1);
    assert e in Elements(Concat(FilesOf(staged, x.0)));
    ConcatHolds(staged, x.0, e);
    i :| 0 <= i < |staged| && staged[i].0 == x.0 && e in staged[i].1.file.rows;
    var j :| 0 <= j < |staged[i].1.file.rows| && staged[i].1.file.rows[j] == e;
    StagedAreRows(staged, rows, i, j);
  }

  ghost predicate AllInRange(s: (GroupKey, Staged)) {
    forall j :: 0 <= j < |s.1.file.rows| ==> s.1.file.rows[j].ts < TS_END
  }

  /** Some staged file holds a late row exactly when a segment of the flush does. */
  lemma LateFiles(env: Env, m: Histories, ids: seq<nat>, bufs: seq<seq<byte>>, staged: seq<(GroupKey, Staged)>)
    requires FlushInput(m, ids, bufs) && FilesDeliver(staged, AllRows(DecodedRows(env, m, ids, bufs)))
    ensures (exists i :: 0 <= i < |bufs| && Blocks(env, m, bufs[i])) <==>
            exists i :: 0 <= i < |staged| && !AllInRange(staged[i])
  {
    hide AllRows, DecodedRows, FlushInput, FilesDeliver, Blocks;
    InputReadable(m, ids, bufs);
    var rows := AllRows(DecodedRows(env, m, ids, bufs));
    LateRows(env, m, ids, bufs);
    if x :| x in rows && x.1.ts >= TS_END {
      var i, e := SurvivorInFile(staged, rows, x);
      var j :| 0 <= j < |staged[i].1.file.rows| && staged[i].1.file.rows[j] == e;
      assert !AllInRange(staged[i]);
    }
    if i :| 0 <= i < |staged| && !AllInRange(staged[i]) {
      var j :| 0 <= j < |staged[i].1.file.rows| && staged[i].1.file.rows[j].ts >= TS_END;
      StagedAreRows(staged, rows, i, j);
    }
  }

  lemma InputReadable(m: Histories, ids: seq<nat>, bufs: seq<seq<byte>>)
    requires FlushInput(m, ids, bufs)
    ensures |bufs| == |ids| && forall i :: 0 <= i < |bufs| ==> Readable(bufs[i])
  {
  }

  /** The records of every staged file. */
  lemma StagedRecords(env: Env, m: Histories, ids: seq<nat>, bufs: seq<seq<byte>>, staged: seq<(GroupKey, Staged)>)
    returns (records: seq<seq<Record>>)
    requires FlushInput(m, ids, bufs) && FilesDeliver(staged, AllRows(DecodedRows(env, m, ids, bufs)))
    ensures |records| == |staged|
    ensures forall i :: 0 <= i < |staged| ==> AreRecords(env, m, staged[i].0, staged[i].1.file.rows, records[i])
  {
    hide FlushInput, FilesDeliver, AllRows, DecodedRows, AreRecords;
    InputReadable(m, ids, bufs);
    var rows := AllRows(DecodedRows(env, m, ids, bufs));
    records := [];
    for i := 0 to |staged|
      invariant |records| == i
      invariant forall k :: 0 <= k < i ==> AreRecords(env, m, staged[k].0, staged[k].1.file.rows, records[k])
    {
      forall j | 0 <= j < |staged[i].1.file.rows| ensures (staged[i].0, staged[i].1.file.rows[j]) in rows {
        StagedAreRows(staged, rows, i, j);
      }
      var more := RecordsOf(env, m, ids, bufs, staged[i].0, staged[i].1.file.rows);
      records := records + [more];
    }
  }

  /** Write the staged files in order, up to the first that fails. */
  method WriteAllStaged(env: Env, m: Histories, staged: seq<(GroupKey, Staged)>, rowGroupRows: nat,
                        ghost records: seq<seq<Record>>)
    returns (files: Option<seq<seq<Group>>>)
    requires |records| == |staged|
    requires forall i :: 0 <= i < |staged| ==>
               staged[i].1.file.rows != [] && AreRecords(env, m, staged[i].0, staged[i].1.file.rows, records[i])
    ensures files.None? <==> exists i :: 0 <= i < |staged| && !AllInRange(staged[i])
    ensures files.Some? ==>
              |files.value| == |staged| && forall i :: 0 <= i < |staged| ==>
                FileHolds(env, m, staged[i], files.value[i])
  {
    hide FileHolds, AreRecords;
    var done := [];
    for i := 0 to |staged|
      invariant |done| == i && forall k :: 0 <= k < i ==> AllInRange(staged[k]) && FileHolds(env, m, staged[k], done[k])
    {
      var r := WriteStaged(env, m, staged[i], rowGroupRows, records[i]);
      if !r.Finished? { assert !AllInRange(staged[i]); return None; }
      done := done + [r.groups];
    }
    files := Some(done);
  }

  /**
   * A whole flush up to its commit point. It writes its files unless a segment holds a wanted record
   * with a timestamp of 2^63 or more; nothing else is refused. Each file written reads back as exactly
   * the rows of its records.
   */
  method FlushToParquet(env: Env, m: Histories, ids: seq<nat>, bufs: seq<seq<byte>>, budget: nat, fanIn: nat,
                        size: seq<byte> -> nat, rowGroupRows: nat)
    returns (staged: seq<(GroupKey, Staged)>, files: Option<seq<seq<Group>>>)
    requires FlushInput(m, ids, bufs) && ids != []
    ensures FilesDeliver(staged, AllRows(DecodedRows(env, m, ids, bufs)))
    ensures PathsOnce(staged) && WellPlaced(staged, ids[0], ids[|ids| - 1])
    ensures files.None? <==> exists i :: 0 <= i < |bufs| && Blocks(env, m, bufs[i])
    ensures files.Some? ==>
              |files.value| == |staged| && forall i :: 0 <= i < |staged| ==>
                FileHolds(env, m, staged[i], files.value[i])
  {
    hide FlushInput, FilesDeliver, PathsOnce, WellPlaced, AllRows, DecodedRows, Blocks, FileHolds, AreRecords,
      AllInRange;
    InputReadable(m, ids, bufs);
    var written, deduplicated, rejected, skipped;
    staged, written, deduplicated, rejected, skipped := FlushSegments(env, m, ids, bufs, budget, fanIn, size);
    LateFiles(env, m, ids, bufs, staged);
    ghost var records := StagedRecords(env, m, ids, bufs, staged);
    forall i | 0 <= i < |staged|
      ensures staged[i].1.file.rows != []
    {
      FileNotEmpty(staged, ids[0], ids[|ids| - 1], i);
    }
    files := WriteAllStaged(env, m, staged, rowGroupRows, records);
  }

  lemma FileNotEmpty(staged: seq<(GroupKey, Staged)>, first: nat, last: nat, i: nat)
    requires WellPlaced(staged, first, last) && i < |staged|
    ensures staged[i].1.file.rows != []
  {
  }

  // ---- trying again -------------------------------------------------------------------------------

  /** What the reader finds at an offset under a later manifest: the same extent, and the same wanted record. */
  lemma ItemKept(env: Env, buf: seq<byte>, at: nat, m: Histories, later: Histories)
    requires at <= |buf| && AllOk(m) && AllOk(later) && Extends(m, later)
    ensures var a, b := ItemAt(env, buf, at, |buf|, Arity(m)), ItemAt(env, buf, at, |buf|, Arity(later));
            && (a.Undecodable? <==> b.Undecodable?) && (!a.Undecodable? ==> a.len == b.len)
            && (Wanted(m, a) ==> b == a && Wanted(later, a))
  {
    hide ValidatePrefix, Decode, Schema, AllOk, Extends;
    ItemExtent(env, buf, at, |buf|, Arity(m));
    ItemExtent(env, buf, at, |buf|, Arity(later));
    var a := ItemAt(env, buf, at, |buf|, Arity(m));
    if Wanted(m, a) {
      var p := ValidatePrefix(env, buf[at..], |buf|).value.0;
      FramePrefix(env, buf, at, m);
      SchemaKept(m, later, p.series, p.epoch);
    }
  }

  lemma FramePrefix(env: Env, buf: seq<byte>, at: nat, m: Histories)
    requires at <= |buf| && ItemAt(env, buf, at, |buf|, Arity(m)).Frame?
    ensures var p, r := ValidatePrefix(env, buf[at..], |buf|).value.0, ItemAt(env, buf, at, |buf|, Arity(m)).record;
            p.series == r.series && p.epoch == r.epoch
  {
    hide ValidatePrefix, Decode, Schema;
    var item := ItemAt(env, buf, at, |buf|, Arity(m));
    var p := ValidatePrefix(env, buf[at..], |buf|).value.0;
    ReadersAgree(env, buf[at..], Arity(m)(p.series, p.epoch).value, |buf|, item.record, item.len);
  }

  lemma {:induction false} ReadAllKept(env: Env, buf: seq<byte>, at: nat, m: Histories, later: Histories, k: nat)
    requires at <= |buf| && AllOk(m) && AllOk(later) && Extends(m, later)
    requires k < |ReadAll(env, buf, at, |buf|, Arity(m))|
    requires Wanted(m, ReadAll(env, buf, at, |buf|, Arity(m))[k])
    ensures k < |ReadAll(env, buf, at, |buf|, Arity(later))|
    ensures var item := ReadAll(env, buf, at, |buf|, Arity(m))[k];
            ReadAll(env, buf, at, |buf|, Arity(later))[k] == item && Wanted(later, item)
    decreases k
  {
    hide ItemAt, Arity, Wanted, AllOk, Extends, ValidatePrefix;
    ItemKept(env, buf, at, m, later);
    ItemExtent(env, buf, at, |buf|, Arity(m));
    ItemExtent(env, buf, at, |buf|, Arity(later));
    var a := ItemAt(env, buf, at, |buf|, Arity(m));
    if k > 0 { ReadAllKept(env, buf, at + a.len, m, later, k - 1); }
  }

  /** A segment that fails a flush fails every later one that reads it, whatever configs were accepted between. */
  lemma StillBlocks(env: Env, m: Histories, later: Histories, buf: seq<byte>)
    requires AllOk(m) && AllOk(later) && Extends(m, later) && Readable(buf) && Blocks(env, m, buf)
    ensures Blocks(env, later, buf)
  {
    hide ReadAll, ItemsOf, Wanted, AllOk, Extends, ParseSegmentHeader;
    var k :| 0 <= k < |ItemsOf(env, m, buf)| && TooLate(m, ItemsOf(env, m, buf)[k]);
    ItemsAre(env, m, buf);
    ItemsAre(env, later, buf);
    ReadAllKept(env, buf, SEGMENT_HEADER_BYTES, m, later, k);
    assert TooLate(later, ItemsOf(env, later, buf)[k]);
  }
}
