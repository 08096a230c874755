/**
 * A flush of one segment whatever its series names: what it delivers is keyed by the id bytes the batch
 * takes, and it keeps the records of a series apart exactly when the name leaves their offset in 16 bits.
 */
module LongNameFlush {
  import opened Bytes
  import opened Codec
  import opened Segments
  import opened Arrivals
  import opened Groups
  import opened Batch
  import opened FlushSort
  import opened Manifest
  import opened Accept
  import opened SegmentRows
  import opened Partition
  import opened Flush
  import opened Sink
  import opened FlushPlan
  import opened LongNames

  // ---- the rows as the batch has them -------------------------------------------------------

  /** A decoded row with the id the batch takes from its frame. */
  function Taken(d: Decoded): Decoded {
    var e := d.entry;
    if d.idOff + |e.id| <= |e.frame| then d.(entry := e.(id := BatchedId(e.frame, d.idOff, |e.id|))) else d
  }

  function AllTaken(rows: seq<Decoded>): (r: seq<Decoded>)
    ensures |r| == |rows| && forall i :: 0 <= i < |rows| ==> r[i] == Taken(rows[i])
  {
    seq(|rows|, i requires 0 <= i < |rows| => Taken(rows[i]))
  }

  /** The rows of one segment. */
  function RowsRead(env: Env, m: Histories, id: nat, buf: seq<byte>): seq<Decoded>
    requires Readable(buf)
  {
    RowsAmong(m, id, buf, ItemsOf(env, m, buf))
  }

  /** `d` is the row of record `r`, of a series the manifest names. */
  ghost predicate IsOf(env: Env, m: Histories, d: Decoded, r: Record) {
    && Fits(env, r) && r.series in m && |d.entry.frame| < U32_END
    && d == Decoded((r.series, r.epoch), Entry(r.row.ts, r.row.id, d.entry.arrival, PutFrame(env, PutPayload(r))),
         IdOffset(r))
  }

  ghost predicate HasRecord(env: Env, m: Histories, d: Decoded) { exists r :: IsOf(env, m, d, r) }

  lemma ItemHasRecord(env: Env, m: Histories, id: nat, buf: seq<byte>, item: Item)
    requires Readable(buf) && Located(env, buf, m, item) && Wanted(m, item)
    ensures item.offset + item.len <= |buf| && IsOf(env, m, RowFor(id, buf, item), item.record)
  {
    hide Located, MatchesSchema, FindEpoch, PutFrame, PutPayload, Fits, ParseSegmentHeader;
    FrameBytes(env, buf, m, item);
  }

  ghost predicate AllHaveRecords(env: Env, m: Histories, rows: seq<Decoded>) {
    forall i :: 0 <= i < |rows| ==> HasRecord(env, m, rows[i])
  }

  lemma {:induction false} RowsHaveRecords(env: Env, m: Histories, id: nat, buf: seq<byte>, items: seq<Item>)
    requires Readable(buf) && forall i :: 0 <= i < |items| ==> Located(env, buf, m, items[i])
    ensures AllHaveRecords(env, m, RowsAmong(m, id, buf, items))
    decreases |items|
  {
    hide Located, Wanted, RowFor, HasRecord, ParseSegmentHeader, RowsAmong;
    NoItems(m, id, buf);
    if items != [] {
      var n := |items| - 1;
      OneMoreItem(m, id, buf, items, n);
      assert items[..n + 1] == items && forall i :: 0 <= i < n ==> items[..n][i] == items[i];
      RowsHaveRecords(env, m, id, buf, items[..n]);
      LastHasRecord(env, m, id, buf, items[n]);
    }
  }

  lemma LastHasRecord(env: Env, m: Histories, id: nat, buf: seq<byte>, item: Item)
    requires Readable(buf) && Located(env, buf, m, item)
    ensures Wanted(m, item) ==> item.Frame?
    ensures AllHaveRecords(env, m, if Wanted(m, item) && item.offset + item.len <= |buf| then [RowFor(id, buf, item)]
              else [])
  {
    hide Located, Wanted, RowFor, HasRecord, ParseSegmentHeader, IsOf;
    WantedIsFrame(m, item);
    if Wanted(m, item) {
      ItemHasRecord(env, m, id, buf, item);
      Recorded(env, m, RowFor(id, buf, item), item.record);
    }
  }

  lemma Recorded(env: Env, m: Histories, d: Decoded, r: Record)
    requires IsOf(env, m, d, r)
    ensures HasRecord(env, m, d)
  {
  }

  lemma ReadHaveRecords(env: Env, m: Histories, id: nat, buf: seq<byte>)
    requires Readable(buf)
    ensures forall i :: 0 <= i < |RowsRead(env, m, id, buf)| ==> HasRecord(env, m, RowsRead(env, m, id, buf)[i])
  {
    hide ItemsOf, Located, HasRecord, ParseSegmentHeader, RowsAmong;
    var items := ItemsOf(env, m, buf);
    forall i | 0 <= i < |items| ensures Located(env, buf, m, items[i]) { ItemLocated(env, m, buf, i); }
    RowsHaveRecords(env, m, id, buf, items);
  }

  /** The batch stores such a row under the id it takes. */
  lemma TakenStorable(env: Env, m: Histories, d: Decoded)
    requires HasRecord(env, m, d)
    ensures Storable(Taken(d)) && Taken(d) == d.(entry := d.entry.(id := Taken(d).entry.id))
  {
    hide PutFrame, PutPayload, Fits;
    var r :| IsOf(env, m, d, r);
    Framed(env, r);
  }

  lemma {:induction false} RowsAt(rows: seq<Decoded>)
    ensures |Rows(rows)| == |rows| && forall i :: 0 <= i < |rows| ==> Rows(rows)[i] == (rows[i].key, rows[i].entry)
  {
    if rows != [] { RowsAt(rows[..|rows| - 1]); }
  }

  // ---- the flush ----------------------------------------------------------------------------

  lemma TakenInSegment(env: Env, m: Histories, id: nat, buf: seq<byte>)
    requires Readable(buf)
    ensures InSegment(Rows(AllTaken(RowsRead(env, m, id, buf))), id)
    ensures |Rows(AllTaken(RowsRead(env, m, id, buf)))| == |RowsRead(env, m, id, buf)|
  {
    hide ReadAll, RowsAmong, Rows, ParseSegmentHeader, Arity, Taken, HasRecord, ItemsOf;
    var rows, items := RowsRead(env, m, id, buf), ItemsOf(env, m, buf);
    ItemsAre(env, m, buf);
    OffsetsAscend(env, buf, m, SEGMENT_HEADER_BYTES);
    forall i | 0 <= i < |items|
      ensures items[i].offset < |buf| + 1
    {
      AllLocated(env, buf, m, SEGMENT_HEADER_BYTES, i);
    }
    RowsInOrder(m, id, buf, items, |buf| + 1);
    RowsAt(rows);
    RowsAt(AllTaken(rows));
    ReadHaveRecords(env, m, id, buf);
    forall i | 0 <= i < |rows| ensures Rows(AllTaken(rows))[i].1.arrival == Rows(rows)[i].1.arrival {
      TakenStorable(env, m, rows[i]);
    }
    assert FromSegment(Rows(AllTaken(rows)), id, |buf| + 1);
  }

  /** A flush of one segment, whatever its series names: the promise holds of the rows as the batch has them. */
  method FlushOne(env: Env, m: Histories, id: nat, buf: seq<byte>, budget: nat, fanIn: nat, size: seq<byte> -> nat)
    returns (staged: seq<(GroupKey, Staged)>, written: nat, deduplicated: nat, rejected: nat, skipped: nat)
    requires id < U64_END && Readable(buf)
    ensures FilesDeliver(staged, Rows(AllTaken(RowsRead(env, m, id, buf))))
    ensures PathsOnce(staged) && WellPlaced(staged, id, id)
    ensures written == RowsStaged(staged) && written + deduplicated == |RowsRead(env, m, id, buf)|
    ensures |RowsRead(env, m, id, buf)| + rejected == |ItemsOf(env, m, buf)|
    ensures skipped == BytesSkipped(buf, ItemsOf(env, m, buf))
  {
    hide Storable, Delivered, Stages, PathsOnce, WellPlaced, RowsAmong, ReadAll, InArrivalOrder, FilesDeliver,
      RowsWritable, Size, RowsStaged, ParseSegmentHeader, ItemsOf, Rows, HasRecord, InSegment, Taken, BytesSkipped;
    var rows;
    rows, rejected, skipped := DecodeSegment(env, id, buf, m);
    ItemsAre(env, m, buf);
    assert rows == RowsRead(env, m, id, buf);
    ReadHaveRecords(env, m, id, buf);
    var taken := AllTaken(rows);
    forall i | 0 <= i < |taken| ensures Storable(taken[i]) { TakenStorable(env, m, rows[i]); }
    TakenInSegment(env, m, id, buf);
    FlushInOrder([taken], [id]);
    OneSegment(taken);
    var sorted;
    sorted, written, deduplicated := SortFlush([taken], budget, fanIn, size);
    staged := StageAll(sorted, id, id, Rows(taken));
    StagedDeliver(staged, sorted, Rows(taken));
  }

  lemma OneSegment(rows: seq<Decoded>)
    ensures AllRows([rows]) == Rows(rows)
  {
    assert [rows][..0] == [] && AllRows([]) == [];
  }

  // ---- whether every record is delivered -----------------------------------------------------------

  /** A file of the row's group holds a frame with its timestamp and id. */
  ghost predicate Carried(staged: seq<(GroupKey, Staged)>, x: Tagged) {
    exists i, e :: 0 <= i < |staged| && staged[i].0 == x.0 && e in staged[i].1.file.rows && Carries(e, x.1)
  }

  predicate Carries(e: Entry, x: Entry) { VerifiedSortKey(e.frame) == Ok((x.ts, x.id, |e.frame|)) }

  /** What `FlushOne` promises of the files of one segment. */
  ghost predicate FlushedTo(env: Env, m: Histories, id: nat, buf: seq<byte>, staged: seq<(GroupKey, Staged)>) {
    id < U64_END && Readable(buf) && FilesDeliver(staged, Rows(AllTaken(RowsRead(env, m, id, buf))))
  }

  ghost predicate AllCarried(env: Env, m: Histories, id: nat, buf: seq<byte>, staged: seq<(GroupKey, Staged)>)
    requires Readable(buf)
  {
    forall d :: d in RowsRead(env, m, id, buf) ==> Carried(staged, (d.key, d.entry))
  }

  /** Every series of the manifest has a name of `n` bytes. */
  ghost predicate NamesOf(m: Histories, n: nat) { forall s :: s in m ==> |s| == n }

  ghost predicate DeliversAll(env: Env, n: nat) {
    forall m, id, buf, staged :: NamesOf(m, n) && FlushedTo(env, m, id, buf, staged) ==>
      AllCarried(env, m, id, buf, staged)
  }

  /** A short name's rows are the same in the batch. */
  lemma ShortTaken(env: Env, m: Histories, n: nat, d: Decoded)
    requires HasRecord(env, m, d) && NamesOf(m, n) && 24 + n < U16_END
    ensures Taken(d) == d && Carries(d.entry, d.entry)
  {
    hide PutFrame, PutPayload, Fits, VerifiedSortKey;
    var r :| IsOf(env, m, d, r);
    IdInFrame(env, r);
    ShortNameKeepsId(env, r);
  }

  lemma ShortDelivers(env: Env, m: Histories, n: nat, id: nat, buf: seq<byte>, staged: seq<(GroupKey, Staged)>)
    requires NamesOf(m, n) && 24 + n < U16_END && FlushedTo(env, m, id, buf, staged)
    ensures AllCarried(env, m, id, buf, staged)
  {
    hide Rows, RowsRead, FilesDeliver, HasRecord, Carries, ParseSegmentHeader, Taken, NamesOf;
    var rows := RowsRead(env, m, id, buf);
    ReadHaveRecords(env, m, id, buf);
    forall i | 0 <= i < |rows| ensures Taken(rows[i]) == rows[i] && Carries(rows[i].entry, rows[i].entry) {
      ShortTaken(env, m, n, rows[i]);
    }
    assert AllTaken(rows) == rows;
    RowsAt(rows);
    forall d | d in rows ensures Carried(staged, (d.key, d.entry)) {
      var k :| 0 <= k < |rows| && rows[k] == d;
      assert Rows(rows)[k] == (d.key, d.entry);
      var i, e := SurvivorInFile(staged, Rows(rows), (d.key, d.entry));
      var j :| 0 <= j < |Rows(rows)| && Rows(rows)[j] == (d.key, e);
      SameCarries(rows[j].entry, d.entry);
    }
  }

  lemma SameCarries(e: Entry, x: Entry)
    requires Carries(e, e) && SameKey(e, x)
    ensures Carries(e, x)
  {
  }

  // ---- a segment that loses a record ------------------------------------------------------------

  /** A manifest with one series of `n` bytes and no keys. */
  function OneSeries(n: nat): Histories { map[Name(n) := [EpochSchema(0, [])]] }

  function FrameOf(env: Env, r: Record): seq<byte> { PutFrame(env, PutPayload(r)) }

  /** A segment with two frames. */
  function TwoFrames(env: Env, r: Record, q: Record): seq<byte> {
    PutSegmentHeader(1) + Flat([FrameOf(env, r), FrameOf(env, q)]) + []
  }

  lemma FrameAlone(env: Env, n: nat, k: nat)
    requires Fits(env, Numbered(n, k))
    ensures IsFrame(env, FrameOf(env, Numbered(n, k)))
    ensures FrameItem(env, OneSeries(n), FrameOf(env, Numbered(n, k)))
              == Frame(Numbered(n, k), 0, |FrameOf(env, Numbered(n, k))|)
    ensures Wanted(OneSeries(n), Frame(Numbered(n, k), 0, |FrameOf(env, Numbered(n, k))|))
  {
    hide PutPayload, PutFrame, Decode, ValidatePrefix, VerifiedSortKey, Fits, Ascii;
    var r, f := Numbered(n, k), FrameOf(env, Numbered(n, k));
    FrameLength(env, PutPayload(r));
    assert f[0..|f|] == f && f[0..] == f;
    DecodeCodes(env, f, 0, |f|, r, |f|);
    ReadersAgree(env, f, 0, |f|, r, |f|);
  }

  /** The flush reads exactly the two records from it. */
  lemma TwoRows(env: Env, n: nat, j: nat, k: nat, id: nat)
    requires Fits(env, Numbered(n, j)) && Fits(env, Numbered(n, k)) && n < U16_END
    ensures var buf, m := TwoFrames(env, Numbered(n, j), Numbered(n, k)), OneSeries(n);
            && Readable(buf) && |RowsRead(env, m, id, buf)| == 2
            && IsOf(env, m, RowsRead(env, m, id, buf)[0], Numbered(n, j))
            && IsOf(env, m, RowsRead(env, m, id, buf)[1], Numbered(n, k))
            && ArrivalLess(RowsRead(env, m, id, buf)[0].entry.arrival, RowsRead(env, m, id, buf)[1].entry.arrival)
  {
    hide PutFrame, PutPayload, Fits, IsFrame, ReadAll, Numbered, OneSeries, Wanted, RowFor, FrameItem, Located,
      PutSegmentHeader, ParseSegmentHeader, ValidatePrefix, IsOf;
    var r, q, m := Numbered(n, j), Numbered(n, k), OneSeries(n);
    var buf, head, frames := TwoFrames(env, r, q), PutSegmentHeader(1), [FrameOf(env, r), FrameOf(env, q)];
    TwoReadable(env, n, j, k);
    FrameAlone(env, n, j);
    FrameAlone(env, n, k);
    ItemsAreFrames(env, m, head, frames, []);
    ItemsAre(env, m, buf);
    var items := ItemsOf(env, m, buf);
    assert items == ReadAll(env, buf, |head|, |buf|, Arity(m));
    assert SameItem(env, m, items[0], frames[0]) && SameItem(env, m, items[1], frames[1]);
    ItemLocated(env, m, buf, 0);
    ItemLocated(env, m, buf, 1);
    ItemHasRecord(env, m, id, buf, items[0]);
    ItemHasRecord(env, m, id, buf, items[1]);
    OffsetsAscend(env, buf, m, SEGMENT_HEADER_BYTES);
    WantedIsFrame(m, items[0]);
    WantedIsFrame(m, items[1]);
    RowArrives(id, buf, items[0]);
    RowArrives(id, buf, items[1]);
    BothRows(m, id, buf, items);
  }

  lemma BothRows(m: Histories, id: nat, buf: seq<byte>, items: seq<Item>)
    requires |items| == 2 && Wanted(m, items[0]) && Wanted(m, items[1]) && items[0].Frame? && items[1].Frame?
    requires items[0].offset + items[0].len <= |buf| && items[1].offset + items[1].len <= |buf|
    ensures RowsAmong(m, id, buf, items) == [RowFor(id, buf, items[0]), RowFor(id, buf, items[1])]
  {
    hide Wanted, RowFor;
    NoItems(m, id, buf);
    OneMoreItem(m, id, buf, items, 0);
    OneMoreItem(m, id, buf, items, 1);
    assert items[..0] == [] && items[..2] == items;
  }

  lemma FlatOfTwo(f: seq<byte>, g: seq<byte>)
    ensures Flat([f, g]) == f + g
  {
    assert [f, g][1..] == [g];
    assert Flat([g]) == g + Flat([]);
  }

  lemma TwoReadable(env: Env, n: nat, j: nat, k: nat)
    requires n < U16_END
    ensures Readable(TwoFrames(env, Numbered(n, j), Numbered(n, k)))
  {
    hide PutPayload, PutFrame, ParseSegmentHeader, PutSegmentHeader, Numbered;
    var r, q := Numbered(n, j), Numbered(n, k);
    NumberedPayload(n, j);
    NumberedPayload(n, k);
    FrameLength(env, PutPayload(r));
    FrameLength(env, PutPayload(q));
    FlatOfTwo(FrameOf(env, r), FrameOf(env, q));
    var buf := TwoFrames(env, r, q);
    assert buf[0..|PutSegmentHeader(1)|] == PutSegmentHeader(1);
    SegmentHeaderCodes(buf, 1);
  }

  /** The one file such a flush writes: the first of the two. */
  function OneFile(d: Decoded): seq<(GroupKey, Staged)> {
    var file := HourFile(Hour(d.entry), CivilTime.HourPartition(d.entry.ts), [d.entry]);
    [(d.key, Staged(Path(d.key.0, file.hour, []), file))]
  }

  /** Rows with one key: the promise as the batch has them is met by the first of them alone. */
  lemma FirstAlone(x: Decoded, y: Decoded)
    requires x.key == y.key && SameKey(x.entry, y.entry)
    requires ArrivalLess(x.entry.arrival, y.entry.arrival)
    ensures FilesDeliver(OneFile(x), Rows([x, y]))
  {
    hide Of, FilesOf, Concat, ByHour, First, Rows;
    var rows, staged, g := Rows([x, y]), OneFile(x), x.key;
    forall h ensures Of(rows, h) == if h == g then [x.entry, y.entry] else [] { TwoOf(x, y, h); }
    OneFileHolds(x);
    OneSurvives(x.entry, y.entry);
    assert Elements([x.entry]) == {x.entry} && StrictKeys([x.entry]);
  }

  lemma OneFileHolds(x: Decoded)
    ensures var files := FilesOf(OneFile(x), x.key); ByHour(files) && Concat(files) == [x.entry]
  {
    hide CivilTime.HourPartition, ByHour, Concat, Hour;
    var staged := OneFile(x);
    NoFilesYet();
    Reopened([], x.entry);
    assert staged[..0] == [] && FilesOf(staged, x.key) == [] + [staged[0].1.file];
    assert [] + [x.entry] == [x.entry];
  }

  lemma OneSurvives(e: Entry, f: Entry)
    requires SameKey(e, f) && ArrivalLess(e.arrival, f.arrival)
    ensures First(Elements([e, f])) == {e}
  {
    assert Elements([e, f]) == {e, f};
    assert Survives({e, f}, e) && !Survives({e, f}, f);
  }

  /** Behind a name that is too long: a segment of two records of which every flush of it delivers one. */
  lemma LosesARecord(env: Env, n: nat) returns (m: Histories, id: nat, buf: seq<byte>, staged: seq<(GroupKey, Staged)>)
    requires TakesAscii(env) && n < U16_END <= 24 + n
    ensures NamesOf(m, n) && FlushedTo(env, m, id, buf, staged)
    ensures forall any :: FlushedTo(env, m, id, buf, any) ==> !AllCarried(env, m, id, buf, any)
  {
    hide PutPayload, PutFrame, Fits, RowsRead, TwoFrames, Rows, FilesDeliver, ParseSegmentHeader, Name, Carries,
      IdTaken, Numbered;
    var j, k := LongNamesCollide(env, n);
    var r, q := Numbered(n, j), Numbered(n, k);
    m, id, buf := OneSeries(n), 0, TwoFrames(env, r, q);
    TwoRows(env, n, j, k, id);
    var rows := RowsRead(env, m, id, buf);
    var x, y := Taken(rows[0]), Taken(rows[1]);
    TakenIs(env, m, rows[0], r);
    TakenIs(env, m, rows[1], q);
    assert AllTaken(rows) == [x, y];
    FirstAlone(x, y);
    staged := OneFile(x);
    assert rows[1] in rows;
    forall any | FlushedTo(env, m, id, buf, any) ensures !AllCarried(env, m, id, buf, any) {
      OnlyFirst(any, x, y);
      NotCarried(env, m, rows[0], r, rows[1], q, any);
    }
  }

  /** Of two rows with one key every file of their group holds only the first. */
  lemma OnlyFirst(staged: seq<(GroupKey, Staged)>, x: Decoded, y: Decoded)
    requires x.key == y.key && SameKey(x.entry, y.entry) && ArrivalLess(x.entry.arrival, y.entry.arrival)
    requires FilesDeliver(staged, Rows([x, y]))
    ensures forall i, e :: 0 <= i < |staged| && staged[i].0 == x.key && e in staged[i].1.file.rows ==> e == x.entry
  {
    hide FilesOf, Concat, ByHour, First;
    var g := x.key;
    TwoOf(x, y, g);
    OneSurvives(x.entry, y.entry);
    forall i, e | 0 <= i < |staged| && staged[i].0 == g && e in staged[i].1.file.rows ensures e == x.entry {
      ConcatHolds(staged, g, e);
      assert e in Elements(Concat(FilesOf(staged, g)));
    }
  }

  lemma TwoOf(x: Decoded, y: Decoded, g: GroupKey)
    requires x.key == y.key
    ensures Of(Rows([x, y]), g) == if g == x.key then [x.entry, y.entry] else []
  {
    hide Rows, Of;
    RowsAt([x, y]);
    var a, b := (x.key, x.entry), (y.key, y.entry);
    assert Rows([x, y]) == [a, b];
    OfNone([], g);
    OfLast([], a, g);
    OfLast([a], b, g);
    assert [] + [a] == [a] && [a] + [b] == [a, b];
  }

  lemma TakenIs(env: Env, m: Histories, d: Decoded, r: Record)
    requires IsOf(env, m, d, r)
    ensures Taken(d) == d.(entry := d.entry.(id := IdTaken(env, r)))
  {
    hide PutPayload, PutFrame, Fits;
    IdInFrame(env, r);
  }

  lemma NotCarried(env: Env, m: Histories, a: Decoded, r: Record, b: Decoded, q: Record,
                   staged: seq<(GroupKey, Staged)>)
    requires IsOf(env, m, a, r) && IsOf(env, m, b, q) && r.row.id != q.row.id && a.key == b.key
    requires forall i, e :: 0 <= i < |staged| && staged[i].0 == a.key && e in staged[i].1.file.rows ==>
               e == Taken(a).entry
    ensures !Carried(staged, (b.key, b.entry))
  {
    hide PutPayload, PutFrame, Fits, VerifiedSortKey;
    TakenIs(env, m, a, r);
    IdInFrame(env, r);
    assert !Carries(Taken(a).entry, b.entry);
  }

  /**
   * A flush of one segment delivers every record it reads of an n-byte series exactly when the name is short
   * enough.
   */
  lemma DeliversExactlyWhen(env: Env, n: nat)
    requires TakesAscii(env) && n < U16_END
    ensures DeliversAll(env, n) <==> 24 + n < U16_END
  {
    hide NamesOf, FlushedTo, AllCarried;
    if 24 + n < U16_END {
      forall m, id, buf, staged | NamesOf(m, n) && FlushedTo(env, m, id, buf, staged)
        ensures Readable(buf) && AllCarried(env, m, id, buf, staged)
      {
        FlushedReadable(env, m, id, buf, staged);
        ShortDelivers(env, m, n, id, buf, staged);
      }
    } else {
      var m, id, buf, staged := LosesARecord(env, n);
    }
  }

  lemma FlushedReadable(env: Env, m: Histories, id: nat, buf: seq<byte>, staged: seq<(GroupKey, Staged)>)
    requires FlushedTo(env, m, id, buf, staged)
    ensures Readable(buf)
  {
  }
}
