/**
 * A flush over bytes is a step of the protocol over records: frame by frame, what
 * `Flush.FlushSegments` makes of the segments it reads is a plan in the sense of
 * `Protocol.PlanOf`.
 */
module FlushPlan {
  import opened Bytes
  import opened Codec
  import opened Segments
  import opened Arrivals
  import opened Groups
  import opened FlushSort
  import opened Manifest
  import opened Accept
  import opened SegmentRows
  import opened Partition
  import opened Flush
  import opened Sink
  import opened CivilTime
  import opened Names
  import L = Ledger
  import P = Protocol

  // ---- from frames to records ---------------------------------------------------------------

  /** Numbers that stand for `(group, ts, id)` and for `(group, hour)` in the protocol. */
  datatype Numbering = Numbering(key: (GroupKey, u64, Text) -> nat, part: (GroupKey, nat) -> nat)

  ghost predicate PartsApart(num: Numbering) {
    forall g, h, i, j :: num.part(g, i) == num.part(h, j) ==> g == h && i == j
  }

  function RecordKey(num: Numbering, r: Record): nat { num.key((r.series, r.epoch), r.row.ts, r.row.id) }

  /** What the reader makes of a frame by itself. */
  function FrameItem(env: Env, m: Histories, f: seq<byte>): Item { ItemAt(env, f, 0, |f|, Arity(m)) }

  /** A record stands for an item: accepted exactly when the flush wants it, with its key. */
  predicate StandsFor(m: Histories, num: Numbering, item: Item, r: L.Rec) {
    && (r.accepted <==> Wanted(m, item))
    && (Wanted(m, item) ==> r.key == RecordKey(num, item.record))
  }

  /** The records of a segment, one for each frame written to it. */
  ghost predicate RecordsOfFrames(env: Env, m: Histories, num: Numbering, frames: seq<seq<byte>>, recs: seq<L.Rec>) {
    |frames| == |recs| && forall i :: 0 <= i < |recs| ==> StandsFor(m, num, FrameItem(env, m, frames[i]), recs[i])
  }

  /** A sound header, `taken` intact frames, and then nothing or bytes that no frame starts. */
  ghost predicate Image(env: Env, buf: seq<byte>, frames: seq<seq<byte>>, taken: nat, header: seq<byte>,
                        rest: seq<byte>) {
    && taken <= |frames| && AllFrames(env, frames[..taken])
    && |header| == SEGMENT_HEADER_BYTES && buf == header + Flat(frames[..taken]) + rest
    && (rest == [] || ValidatePrefix(env, rest, |buf|).Err?)
  }

  /** The item is what the frame is by itself. */
  ghost predicate SameItem(env: Env, m: Histories, item: Item, f: seq<byte>) {
    var b := FrameItem(env, m, f);
    && !item.Undecodable? && (Wanted(m, item) <==> Wanted(m, b)) && (Wanted(m, item) ==> item.record == b.record)
  }

  /** The reader finds the frame where it lies, as it is by itself. */
  lemma FrameInPlace(env: Env, m: Histories, pre: seq<byte>, f: seq<byte>, post: seq<byte>)
    requires IsFrame(env, f)
    ensures var buf := pre + f + post;
            var item := ItemAt(env, buf, |pre|, |buf|, Arity(m));
            SameItem(env, m, item, f) && item.len == |f|
  {
    hide FramePayload, ValidatePrefix, Decode, Schema;
    var buf := pre + f + post;
    assert buf[|pre|..] == f + post && (f + post)[..|f|] == f && f[0..] == f;
    FramesPayload(env, f);
    FrameIsLocal(env, f, |f|, f + post, |buf|);
    ItemExtent(env, buf, |pre|, |buf|, Arity(m));
  }

  lemma FramesPayload(env: Env, f: seq<byte>)
    requires IsFrame(env, f)
    ensures FramePayload(env, f, |f|) == Ok(|f|)
  {
    hide FramePayload, GetPrefix;
  }

  /** The reader's items are the intact frames, then at most one fault it cannot delimit. */
  lemma {:induction false} ItemsAreFrames(env: Env, m: Histories, pre: seq<byte>, frames: seq<seq<byte>>,
                                          rest: seq<byte>)
    requires AllFrames(env, frames)
    requires var buf := pre + Flat(frames) + rest; rest == [] || ValidatePrefix(env, rest, |buf|).Err?
    ensures var buf := pre + Flat(frames) + rest;
            var items := ReadAll(env, buf, |pre|, |buf|, Arity(m));
            && |items| == |frames| + (if rest == [] then 0 else 1) && (rest != [] ==> items[|frames|].Undecodable?)
            && forall i :: 0 <= i < |frames| ==> SameItem(env, m, items[i], frames[i])
    decreases |frames|
  {
    hide ValidatePrefix, SameItem, IsFrame, Arity, ItemAt;
    var buf := pre + Flat(frames) + rest;
    if frames == [] {
      assert buf == pre + rest && buf[|pre|..] == rest;
      if rest != [] { ItemExtent(env, buf, |pre|, |buf|, Arity(m)); }
      assert rest == [] ==> |pre| == |buf|;
    } else {
      var f, more := frames[0], frames[1..];
      assert buf == pre + f + (Flat(more) + rest) && buf == (pre + f) + Flat(more) + rest;
      FrameInPlace(env, m, pre, f, Flat(more) + rest);
      ItemDelimited(env, m, ItemAt(env, buf, |pre|, |buf|, Arity(m)), f);
      FrameInBounds(env, f);
      ItemsAreFrames(env, m, pre + f, more, rest);
      var items := ReadAll(env, buf, |pre|, |buf|, Arity(m));
      assert items[1..] == ReadAll(env, buf, |pre + f|, |buf|, Arity(m));
      forall i | 0 < i < |frames| ensures items[i] == items[1..][i - 1] && frames[i] == more[i - 1] {}
    }
  }

  lemma ItemDelimited(env: Env, m: Histories, item: Item, f: seq<byte>)
    requires SameItem(env, m, item, f)
    ensures !item.Undecodable?
  {
  }

  /** A segment's bytes and records agree on what the flush takes: the items are its first records, in order. */
  ghost predicate Mirrors(env: Env, m: Histories, num: Numbering, buf: seq<byte>, seg: L.Segment)
    requires Readable(buf)
  {
    var items := ItemsOf(env, m, buf);
    && seg.read.Took? && seg.read.count <= |L.Recs(seg)| && seg.read.count <= |items| <= seg.read.count + 1
    && (forall i :: 0 <= i < seg.read.count ==> !items[i].Undecodable? && StandsFor(m, num, items[i], L.Recs(seg)[i]))
    && (|items| > seg.read.count ==> items[seg.read.count].Undecodable?)
  }

  /** So they do when the segment holds the frames of its records up to the first damaged one. */
  lemma ImageMirrors(env: Env, m: Histories, num: Numbering, buf: seq<byte>, seg: L.Segment, frames: seq<seq<byte>>,
                     header: seq<byte>, rest: seq<byte>)
    requires Readable(buf) && seg.read.Took? && seg.read.count <= |L.Recs(seg)|
    requires RecordsOfFrames(env, m, num, frames, L.Recs(seg)) && Image(env, buf, frames, seg.read.count, header, rest)
    ensures Mirrors(env, m, num, buf, seg)
  {
    hide Wanted, FrameItem, IsFrame, ReadAll, ItemsOf, ParseSegmentHeader, ValidatePrefix, RecordKey;
    var n := seg.read.count;
    ItemsAre(env, m, buf);
    ItemsAreFrames(env, m, header, frames[..n], rest);
    assert forall i :: 0 <= i < n ==> frames[..n][i] == frames[i];
  }

  // ---- the plan of a flush -----------------------------------------------------------------

  /** A flush at work: what it reads, and the records its segments stand for. */
  datatype Work = Work(env: Env, m: Histories, ids: seq<nat>, bufs: seq<seq<byte>>, log: L.Log, num: Numbering)

  ghost predicate WorkOk(w: Work) {
    && FlushInput(w.m, w.ids, w.bufs) && w.ids != [] && L.Births(w.log) && PartsApart(w.num)
    && forall j :: 0 <= j < |w.ids| ==>
         w.ids[j] in w.log.wal && Mirrors(w.env, w.m, w.num, w.bufs[j], w.log.wal[w.ids[j]])
  }

  function RecsAt(w: Work, j: nat): seq<L.Rec> {
    if j < |w.ids| && w.ids[j] in w.log.wal then L.Recs(w.log.wal[w.ids[j]]) else []
  }

  function TakenAt(w: Work, j: nat): nat {
    if j < |w.ids| && w.ids[j] in w.log.wal && w.log.wal[w.ids[j]].read.Took? then w.log.wal[w.ids[j]].read.count else 0
  }

  function ItemsIn(w: Work, j: nat): seq<Item> {
    if j < |w.bufs| && Readable(w.bufs[j]) then ItemsOf(w.env, w.m, w.bufs[j]) else []
  }

  /** `r` is record `i` of segment `j`. */
  ghost predicate IsAt(w: Work, r: L.Rec, j: nat, i: nat) { j < |w.ids| && i < |RecsAt(w, j)| && r == RecsAt(w, j)[i] }

  /** The row that item `i` of segment `j` became. */
  ghost predicate RowAt(w: Work, x: Tagged, j: nat, i: nat) {
    j < |w.ids| && |w.ids| == |w.bufs| && i < |ItemsIn(w, j)| && IsRowOf(w.m, w.ids[j], w.bufs[j], ItemsIn(w, j)[i], x)
  }

  ghost predicate Denotes(w: Work, x: Tagged, r: L.Rec) { exists j, i :: RowAt(w, x, j, i) && IsAt(w, r, j, i) }

  ghost predicate SkippedAt(w: Work, r: L.Rec, j: nat, i: nat) { IsAt(w, r, j, i) && i >= TakenAt(w, j) }

  ghost predicate IsSkipped(w: Work, r: L.Rec) { exists j, i :: SkippedAt(w, r, j, i) }

  ghost predicate RejectedAt(w: Work, r: L.Rec, j: nat, i: nat) {
    IsAt(w, r, j, i) && i < TakenAt(w, j) && i < |ItemsIn(w, j)| && !Wanted(w.m, ItemsIn(w, j)[i])
  }

  ghost predicate IsRejected(w: Work, r: L.Rec) { exists j, i :: RejectedAt(w, r, j, i) }

  /** One of the file's entries is the record's row. */
  ghost predicate Contains(w: Work, s: (GroupKey, Staged), r: L.Rec) {
    exists e :: e in s.1.file.rows && Denotes(w, (s.0, e), r)
  }

  ghost predicate IsStaged(w: Work, staged: seq<(GroupKey, Staged)>, r: L.Rec) {
    exists a :: 0 <= a < |staged| && Contains(w, staged[a], r)
  }

  /** The record's row is in no file. */
  ghost predicate IsDropped(w: Work, staged: seq<(GroupKey, Staged)>, r: L.Rec) {
    (exists x :: Denotes(w, x, r)) && !IsStaged(w, staged, r)
  }

  /** Every record the flush reads. */
  ghost function Everything(w: Work): set<L.Rec> {
    set j, i | 0 <= j < |w.ids| && 0 <= i < |RecsAt(w, j)| :: RecsAt(w, j)[i]
  }

  ghost function KeyFor(w: Work, s: (GroupKey, Staged)): L.Key
    requires w.ids != []
  {
    L.Key(w.num.part(s.0, s.1.file.index), w.ids[0], w.ids[|w.ids| - 1])
  }

  ghost function Content(w: Work, s: (GroupKey, Staged)): set<L.Rec> { set r | r in Everything(w) && Contains(w, s, r) }

  ghost function Files(w: Work, staged: seq<(GroupKey, Staged)>): map<L.Key, set<L.Rec>>
    requires w.ids != []
  {
    if staged == [] then map[]
    else
      var n := |staged| - 1;
      Files(w, staged[..n])[KeyFor(w, staged[n]) := Content(w, staged[n])]
  }

  ghost function PlanFrom(w: Work, staged: seq<(GroupKey, Staged)>): L.Plan
    requires w.ids != []
  {
    L.Plan(Files(w, staged),
           set r | r in Everything(w) && IsRejected(w, r),
           set r | r in Everything(w) && IsSkipped(w, r),
           set r | r in Everything(w) && IsDropped(w, staged, r))
  }

  // ---- a record and a row each lie at one place ------------------------------------------------

  lemma RecOnce(w: Work, r: L.Rec, j: nat, i: nat, jj: nat, ii: nat)
    requires WorkOk(w) && IsAt(w, r, j, i) && IsAt(w, r, jj, ii)
    ensures j == jj && i == ii
  {
    hide Mirrors, Readable, ShortNames;
    var a, b := w.log.wal[w.ids[j]], w.log.wal[w.ids[jj]];
    assert L.InOrder(a) && L.InOrder(b);
    assert r in L.Recs(a) && r in L.Recs(b);
    assert a.born == b.born;
    assert w.ids[j] == w.ids[jj];
    assert j == jj;
  }

  /** Taken records and items stand for each other. */
  lemma TakenStands(w: Work, j: nat, i: nat)
    requires WorkOk(w) && j < |w.ids| && i < TakenAt(w, j)
    ensures i < |RecsAt(w, j)| && i < |ItemsIn(w, j)| && StandsFor(w.m, w.num, ItemsIn(w, j)[i], RecsAt(w, j)[i])
  {
    hide StandsFor, ItemsOf, ParseSegmentHeader, ShortNames, L.Births, PartsApart;
    assert Mirrors(w.env, w.m, w.num, w.bufs[j], w.log.wal[w.ids[j]]);
  }

  /** Only taken records have rows. */
  lemma RowsAreTaken(w: Work, x: Tagged, j: nat, i: nat)
    requires WorkOk(w) && RowAt(w, x, j, i)
    ensures i < TakenAt(w, j) && i < |RecsAt(w, j)| && Wanted(w.m, ItemsIn(w, j)[i])
  {
    hide StandsFor, ItemsOf, ParseSegmentHeader, ShortNames, L.Births, PartsApart, RowFor;
    assert Mirrors(w.env, w.m, w.num, w.bufs[j], w.log.wal[w.ids[j]]);
    WantedIsFrame(w.m, ItemsIn(w, j)[i]);
  }

  /** Every wanted item has a row. */
  lemma WantedHasRow(w: Work, j: nat, i: nat) returns (x: Tagged)
    requires WorkOk(w) && j < |w.ids| && i < |ItemsIn(w, j)| && Wanted(w.m, ItemsIn(w, j)[i])
    ensures RowAt(w, x, j, i)
  {
    hide Mirrors, ItemsOf, ParseSegmentHeader, ShortNames, L.Births, PartsApart, Wanted, RowFor, Located;
    var item := ItemsIn(w, j)[i];
    ItemLocated(w.env, w.m, w.bufs[j], i);
    RowIsGenuine(w.env, w.m, w.ids[j], w.bufs[j], item);
    WantedIsFrame(w.m, item);
    x := TaggedRow(w.ids[j], w.bufs[j], item);
  }

  // ---- each record has one verdict --------------------------------------------------------------

  lemma SkippedApart(w: Work, r: L.Rec)
    requires WorkOk(w) && IsSkipped(w, r)
    ensures !IsRejected(w, r) && forall x :: !Denotes(w, x, r)
  {
    hide WorkOk, IsAt, RowAt, ItemsIn, TakenAt, Wanted;
    var j, i :| SkippedAt(w, r, j, i);
    if IsRejected(w, r) {
      var jj, ii :| RejectedAt(w, r, jj, ii);
      RecOnce(w, r, j, i, jj, ii);
    }
    forall x ensures !Denotes(w, x, r) {
      if Denotes(w, x, r) {
        var jj, ii :| RowAt(w, x, jj, ii) && IsAt(w, r, jj, ii);
        RecOnce(w, r, j, i, jj, ii);
        RowsAreTaken(w, x, j, i);
      }
    }
  }

  lemma RejectedApart(w: Work, r: L.Rec)
    requires WorkOk(w) && IsRejected(w, r)
    ensures forall x :: !Denotes(w, x, r)
  {
    hide WorkOk, IsAt, RowAt, Wanted, ItemsIn, TakenAt;
    var j, i :| RejectedAt(w, r, j, i);
    forall x ensures !Denotes(w, x, r) {
      if Denotes(w, x, r) {
        var jj, ii :| RowAt(w, x, jj, ii) && IsAt(w, r, jj, ii);
        RecOnce(w, r, j, i, jj, ii);
        RowsAreTaken(w, x, j, i);
      }
    }
  }

  /** A record is skipped, rejected or has a row. */
  lemma HasVerdict(w: Work, r: L.Rec)
    requires WorkOk(w) && r in Everything(w)
    ensures IsSkipped(w, r) || IsRejected(w, r) || exists x :: Denotes(w, x, r)
  {
    hide WorkOk, Wanted, RowAt, ItemsIn, RecsAt, TakenAt;
    var j, i :| 0 <= j < |w.ids| && 0 <= i < |RecsAt(w, j)| && r == RecsAt(w, j)[i];
    assert IsAt(w, r, j, i);
    if i >= TakenAt(w, j) {
      assert SkippedAt(w, r, j, i);
    } else {
      TakenStands(w, j, i);
      if Wanted(w.m, ItemsIn(w, j)[i]) {
        var x := WantedHasRow(w, j, i);
        assert Denotes(w, x, r);
      } else {
        assert RejectedAt(w, r, j, i);
      }
    }
  }

  /** A record is rejected exactly when it was taken and is not accepted. */
  lemma RejectedIs(w: Work, r: L.Rec)
    requires WorkOk(w) && r in Everything(w)
    ensures IsRejected(w, r) <==> !IsSkipped(w, r) && !r.accepted
  {
    hide WorkOk, Wanted, RecordKey, ItemsIn, RecsAt, TakenAt;
    if IsRejected(w, r) {
      SkippedNot(w, r);
      var j, i :| RejectedAt(w, r, j, i);
      TakenStands(w, j, i);
    } else if !IsSkipped(w, r) {
      var j, i :| 0 <= j < |w.ids| && 0 <= i < |RecsAt(w, j)| && r == RecsAt(w, j)[i];
      assert !SkippedAt(w, r, j, i);
      TakenStands(w, j, i);
      assert !RejectedAt(w, r, j, i);
    }
  }

  lemma SkippedNot(w: Work, r: L.Rec)
    requires WorkOk(w) && IsRejected(w, r)
    ensures !IsSkipped(w, r)
  {
    hide WorkOk, IsSkipped, IsRejected;
    if IsSkipped(w, r) { SkippedApart(w, r); }
  }

  // ---- rows and files -----------------------------------------------------------------------------

  /** A record has one row. */
  lemma DenotesOnce(w: Work, x: Tagged, y: Tagged, r: L.Rec)
    requires WorkOk(w) && Denotes(w, x, r) && Denotes(w, y, r)
    ensures x == y
  {
    hide WorkOk, IsAt, ItemsIn, RowFor;
    var j, i :| RowAt(w, x, j, i) && IsAt(w, r, j, i);
    var jj, ii :| RowAt(w, y, jj, ii) && IsAt(w, r, jj, ii);
    RecOnce(w, r, j, i, jj, ii);
  }

  lemma DenotedKey(w: Work, x: Tagged, r: L.Rec)
    requires WorkOk(w) && Denotes(w, x, r)
    ensures r in Everything(w) && r.key == w.num.key(x.0, x.1.ts, x.1.id)
  {
    hide WorkOk, ItemsIn, RecsAt, TakenAt;
    var j, i :| RowAt(w, x, j, i) && IsAt(w, r, j, i);
    RowsAreTaken(w, x, j, i);
    TakenStands(w, j, i);
  }

  ghost function FlushRows(w: Work): seq<Tagged>
    requires WorkOk(w)
  {
    AllRows(DecodedRows(w.env, w.m, w.ids, w.bufs))
  }

  lemma FlushRowHasRec(w: Work, x: Tagged) returns (r: L.Rec)
    requires WorkOk(w) && x in FlushRows(w)
    ensures Denotes(w, x, r)
  {
    hide AllRows, DecodedRows, IsRowOf, ItemsOf, Mirrors, ParseSegmentHeader, ShortNames, L.Births, PartsApart;
    FlushRowsAre(w.env, w.m, w.ids, w.bufs, x);
    var j, i :| 0 <= j < |w.bufs| && 0 <= i < |ItemsOf(w.env, w.m, w.bufs[j])|
                && IsRowOf(w.m, w.ids[j], w.bufs[j], ItemsOf(w.env, w.m, w.bufs[j])[i], x);
    assert RowAt(w, x, j, i);
    RowsAreTaken(w, x, j, i);
    r := RecsAt(w, j)[i];
    assert IsAt(w, r, j, i);
  }

  lemma DenotedIsRow(w: Work, x: Tagged, r: L.Rec)
    requires WorkOk(w) && Denotes(w, x, r)
    ensures x in FlushRows(w)
  {
    hide AllRows, DecodedRows, IsRowOf, ItemsOf, Mirrors, ParseSegmentHeader, ShortNames, L.Births, PartsApart;
    var j, i :| RowAt(w, x, j, i) && IsAt(w, r, j, i);
    FlushRowsAre(w.env, w.m, w.ids, w.bufs, x);
  }

  /** What the flush staged. */
  ghost predicate StagedBy(w: Work, staged: seq<(GroupKey, Staged)>) {
    && WorkOk(w) && FilesDeliver(staged, FlushRows(w))
    && PathsOnce(staged) && WellPlaced(staged, w.ids[0], w.ids[|w.ids| - 1])
  }

  /** Files are told apart by group and hour. */
  lemma NamesApart(w: Work, staged: seq<(GroupKey, Staged)>, a: nat, b: nat)
    requires StagedBy(w, staged) && a < |staged| && b < |staged| && KeyFor(w, staged[a]) == KeyFor(w, staged[b])
    ensures a == b
  {
    hide FlushInput, Mirrors, L.Births, HourPartition, OutputFileName, FilesDeliver, FlushRows;
    var f, g := staged[a].1.file, staged[b].1.file;
    assert staged[a].0 == staged[b].0 && f.index == g.index;
    assert OneHour(f) && OneHour(g);
    assert Hour(f.rows[0]) == Hour(g.rows[0]);
    PartitionNamesHours(f.rows[0].ts, g.rows[0].ts);
    assert staged[a].1.path == staged[b].1.path;
  }

  lemma {:induction false} FilesAre(w: Work, staged: seq<(GroupKey, Staged)>, k: L.Key)
    requires w.ids != []
    ensures k in Files(w, staged) <==> exists a :: 0 <= a < |staged| && KeyFor(w, staged[a]) == k
    ensures k in Files(w, staged) ==>
              exists a :: 0 <= a < |staged| && KeyFor(w, staged[a]) == k && Files(w, staged)[k] == Content(w, staged[a])
  {
    hide KeyFor, Content;
    if staged != [] {
      var n := |staged| - 1;
      FilesAre(w, staged[..n], k);
      assert forall a :: 0 <= a < n ==> staged[..n][a] == staged[a];
    }
  }

  lemma FileAt(w: Work, staged: seq<(GroupKey, Staged)>, a: nat)
    requires StagedBy(w, staged) && a < |staged|
    ensures KeyFor(w, staged[a]) in Files(w, staged) && Files(w, staged)[KeyFor(w, staged[a])] == Content(w, staged[a])
  {
    hide KeyFor, Content, Files, StagedBy;
    StagedWork(w, staged);
    var k := KeyFor(w, staged[a]);
    FilesAre(w, staged, k);
    var b :| 0 <= b < |staged| && KeyFor(w, staged[b]) == k && Files(w, staged)[k] == Content(w, staged[b]);
    NamesApart(w, staged, a, b);
  }

  /** No record is in two files. */
  lemma ContainsOnce(w: Work, staged: seq<(GroupKey, Staged)>, r: L.Rec, a: nat, b: nat)
    requires StagedBy(w, staged) && a < |staged| && b < |staged|
    requires Contains(w, staged[a], r) && Contains(w, staged[b], r)
    ensures a == b
  {
    hide WorkOk, Denotes, FilesDeliver, FlushRows, PathsOnce, OutputFileName, HourPartition;
    var e :| e in staged[a].1.file.rows && Denotes(w, (staged[a].0, e), r);
    var f :| f in staged[b].1.file.rows && Denotes(w, (staged[b].0, f), r);
    DenotesOnce(w, (staged[a].0, e), (staged[b].0, f), r);
    assert OneHour(staged[a].1.file) && OneHour(staged[b].1.file);
    assert staged[a].1.file.index == Hour(e) == staged[b].1.file.index;
    NamesApart(w, staged, a, b);
  }

  /** What a place in the plan says of the record. */
  ghost predicate Says(w: Work, staged: seq<(GroupKey, Staged)>, r: L.Rec, at: L.Place)
    requires w.ids != []
  {
    match at
    case InFile(k) => exists a :: 0 <= a < |staged| && KeyFor(w, staged[a]) == k && Contains(w, staged[a], r)
    case AsRejected => IsRejected(w, r)
    case AsSkipped => IsSkipped(w, r)
    case AsDuplicate => IsDropped(w, staged, r)
    case _ => false
  }

  lemma PlanSays(w: Work, staged: seq<(GroupKey, Staged)>, r: L.Rec, at: L.Place)
    requires StagedBy(w, staged)
    ensures L.PlanAt(PlanFrom(w, staged), r, at) <==> r in Everything(w) && Says(w, staged, r, at)
  {
    hide WorkOk, IsRejected, IsSkipped, IsDropped, Contains, KeyFor, Files, FilesDeliver, FlushRows, PathsOnce,
      WellPlaced, Everything;
    StagedWork(w, staged);
    if at.InFile? {
      FilesAre(w, staged, at.key);
      if at.key in Files(w, staged) {
        var a :| 0 <= a < |staged| && KeyFor(w, staged[a]) == at.key
          && Files(w, staged)[at.key] == Content(w, staged[a]);
        forall b | 0 <= b < |staged| && KeyFor(w, staged[b]) == at.key ensures b == a { NamesApart(w, staged, a, b); }
      }
    }
  }

  lemma SaysOnce(w: Work, staged: seq<(GroupKey, Staged)>, r: L.Rec, p: L.Place, q: L.Place)
    requires StagedBy(w, staged) && Says(w, staged, r, p) && Says(w, staged, r, q)
    ensures p == q
  {
    hide IsRejected, IsSkipped, WorkOk, KeyFor, Denotes, FilesDeliver, FlushRows, PathsOnce, WellPlaced;
    StagedWork(w, staged);
    if IsSkipped(w, r) { SkippedApart(w, r); }
    if IsRejected(w, r) { RejectedApart(w, r); }
    if p.InFile? && q.InFile? {
      var a :| 0 <= a < |staged| && KeyFor(w, staged[a]) == p.key && Contains(w, staged[a], r);
      var b :| 0 <= b < |staged| && KeyFor(w, staged[b]) == q.key && Contains(w, staged[b], r);
      ContainsOnce(w, staged, r, a, b);
    }
  }

  lemma SaysSome(w: Work, staged: seq<(GroupKey, Staged)>, r: L.Rec) returns (at: L.Place)
    requires StagedBy(w, staged) && r in Everything(w)
    ensures Says(w, staged, r, at)
  {
    hide IsRejected, IsSkipped, WorkOk, KeyFor, Contains, FilesDeliver, FlushRows, PathsOnce, WellPlaced, Everything,
      Denotes;
    StagedWork(w, staged);
    HasVerdict(w, r);
    if IsSkipped(w, r) {
      at := L.AsSkipped;
    } else if IsRejected(w, r) {
      at := L.AsRejected;
    } else if a :| 0 <= a < |staged| && Contains(w, staged[a], r) {
      at := L.InFile(KeyFor(w, staged[a]));
    } else {
      at := L.AsDuplicate;
    }
  }

  /** A dropped record has the first arrival of its `(ts, id)` in a file. */
  lemma DroppedHasTwin(w: Work, staged: seq<(GroupKey, Staged)>, r: L.Rec)
    requires StagedBy(w, staged) && IsDropped(w, staged, r)
    ensures L.HasTwin(Files(w, staged), r)
  {
    hide WorkOk, Denotes, FlushRows, PathsOnce, WellPlaced, Files, KeyFor, Of, First, Concat, FilesOf, ByHour,
      Everything;
    StagedWork(w, staged);
    var x :| Denotes(w, x, r);
    var rows := FlushRows(w);
    DenotedIsRow(w, x, r);
    var a, f := SurvivorInFile(staged, rows, x);
    StagedRow(w, staged, a, f);
    var twin := FlushRowHasRec(w, (x.0, f));
    DenotedKey(w, x, r);
    DenotedKey(w, (x.0, f), twin);
    assert Contains(w, staged[a], twin);
    assert twin != r;
    FileAt(w, staged, a);
    assert twin in Files(w, staged)[KeyFor(w, staged[a])];
  }

  lemma StagedRow(w: Work, staged: seq<(GroupKey, Staged)>, a: nat, f: Entry)
    requires StagedBy(w, staged) && a < |staged| && f in staged[a].1.file.rows
    ensures (staged[a].0, f) in FlushRows(w)
  {
    hide WorkOk, FlushRows, PathsOnce, WellPlaced, FilesDeliver;
    var j :| 0 <= j < |staged[a].1.file.rows| && staged[a].1.file.rows[j] == f;
    StagedAreRows(staged, FlushRows(w), a, j);
  }

  // ---- the theorem ----------------------------------------------------------------------------------

  function IdSet(w: Work): set<nat> { set j | 0 <= j < |w.ids| :: w.ids[j] }

  lemma EverythingConsumed(w: Work, r: L.Rec)
    requires WorkOk(w)
    ensures r in Everything(w) <==> P.Consumed(w.log, IdSet(w), r)
  {
    hide FlushInput, Mirrors, L.Births, PartsApart;
    if P.Consumed(w.log, IdSet(w), r) {
      var id :| id in IdSet(w) && id in w.log.wal && r in L.Recs(w.log.wal[id]);
      var j :| 0 <= j < |w.ids| && w.ids[j] == id;
      var i :| 0 <= i < |RecsAt(w, j)| && RecsAt(w, j)[i] == r;
    }
  }

  lemma SkippedLeftBehind(w: Work, r: L.Rec)
    requires WorkOk(w)
    ensures r in Everything(w) && IsSkipped(w, r) <==>
            exists id :: id in IdSet(w) && id in w.log.wal && P.LeftBehind(w.log.wal[id], r)
  {
    hide WorkOk, P.LeftBehind, RecsAt, TakenAt;
    if r in Everything(w) && IsSkipped(w, r) {
      var j: nat, i: nat :| SkippedAt(w, r, j, i);
      TookAt(w, j, r, i);
      assert w.ids[j] in IdSet(w);
    }
    if id :| id in IdSet(w) && id in w.log.wal && P.LeftBehind(w.log.wal[id], r) {
      var j :| 0 <= j < |w.ids| && w.ids[j] == id;
      var i := LeftAt(w, j, r);
      assert SkippedAt(w, r, j, i);
    }
  }

  lemma TookAt(w: Work, j: nat, r: L.Rec, i: nat)
    requires WorkOk(w) && SkippedAt(w, r, j, i)
    ensures w.ids[j] in w.log.wal && P.LeftBehind(w.log.wal[w.ids[j]], r)
  {
    hide L.Births, PartsApart, ItemsOf, StandsFor, ParseSegmentHeader, ShortNames;
    assert Mirrors(w.env, w.m, w.num, w.bufs[j], w.log.wal[w.ids[j]]);
  }

  lemma LeftAt(w: Work, j: nat, r: L.Rec) returns (i: nat)
    requires j < |w.ids| && w.ids[j] in w.log.wal && P.LeftBehind(w.log.wal[w.ids[j]], r)
    ensures SkippedAt(w, r, j, i)
  {
    i :| w.log.wal[w.ids[j]].read.count <= i < |RecsAt(w, j)| && RecsAt(w, j)[i] == r;
  }

  lemma Ends(w: Work)
    requires WorkOk(w)
    ensures P.Least(IdSet(w), w.ids[0]) && P.Greatest(IdSet(w), w.ids[|w.ids| - 1])
  {
    hide Readable, ShortNames, Mirrors, L.Births, PartsApart;
  }

  /** What a flush of bytes stages, rejects, skips and drops is a plan of the protocol for the segments it read. */
  lemma FlushIsPlan(w: Work, staged: seq<(GroupKey, Staged)>)
    requires StagedBy(w, staged)
    ensures P.PlanOf(w.log, IdSet(w), w.ids[0], w.ids[|w.ids| - 1], PlanFrom(w, staged))
  {
    hide StagedBy, WorkOk, Everything, IsRejected, IsSkipped, IsDropped, Says, Files, L.PlanAt, L.HasTwin, P.Consumed,
      P.LeftBehind, P.Least, P.Greatest, IdSet;
    StagedWork(w, staged);
    Ends(w);
    var p := PlanFrom(w, staged);
    forall r, a, b | L.PlanAt(p, r, a) && L.PlanAt(p, r, b) ensures a == b {
      PlanSays(w, staged, r, a);
      PlanSays(w, staged, r, b);
      SaysOnce(w, staged, r, a, b);
    }
    forall r ensures P.Consumed(w.log, IdSet(w), r) <==> L.Resolved(p, r) { ResolvedIs(w, staged, r); }
    forall r
      ensures r in p.skipped <==> exists id :: id in IdSet(w) && id in w.log.wal && P.LeftBehind(w.log.wal[id], r)
    {
      SkippedLeftBehind(w, r);
    }
    forall r ensures r in p.rejected <==> P.Consumed(w.log, IdSet(w), r) && r !in p.skipped && !r.accepted {
      EverythingConsumed(w, r);
      if r in Everything(w) { RejectedIs(w, r); }
    }
    forall r | r in p.duplicates ensures L.HasTwin(p.files, r) { DroppedHasTwin(w, staged, r); }
    forall k | k in p.files ensures k.first == w.ids[0] && k.last == w.ids[|w.ids| - 1] { FilesAre(w, staged, k); }
  }

  lemma StagedWork(w: Work, staged: seq<(GroupKey, Staged)>)
    requires StagedBy(w, staged)
    ensures WorkOk(w) && w.ids != []
  {
  }

  lemma ResolvedIs(w: Work, staged: seq<(GroupKey, Staged)>, r: L.Rec)
    requires StagedBy(w, staged)
    ensures P.Consumed(w.log, IdSet(w), r) <==> L.Resolved(PlanFrom(w, staged), r)
  {
    hide StagedBy, WorkOk, Everything, Says, PlanFrom, L.PlanAt, P.Consumed, IdSet;
    StagedWork(w, staged);
    EverythingConsumed(w, r);
    if r in Everything(w) {
      var at := SaysSome(w, staged, r);
      PlanSays(w, staged, r, at);
    }
    if L.Resolved(PlanFrom(w, staged), r) {
      var at :| L.PlanAt(PlanFrom(w, staged), r, at);
      PlanSays(w, staged, r, at);
    }
  }

  /** A segment's bytes on disk, for the records the protocol has in it. */
  ghost predicate OnDisk(env: Env, m: Histories, num: Numbering, buf: seq<byte>, seg: L.Segment,
                         frames: seq<seq<byte>>) {
    && seg.read.Took? && seg.read.count <= |L.Recs(seg)| && RecordsOfFrames(env, m, num, frames, L.Recs(seg))
    && exists header, rest :: Image(env, buf, frames, seg.read.count, header, rest)
  }

  /** The bytes a flush is given are those of the segments a protocol state has read. */
  ghost predicate ReadBy(w: Work, s: P.State, frames: seq<seq<seq<byte>>>) {
    && FlushInput(w.m, w.ids, w.bufs) && w.ids != [] && w.log == s.log && L.Births(s.log) && PartsApart(w.num)
    && s.mem.Up? && s.mem.phase.Decoding? && s.mem.phase.remaining == {} && s.mem.phase.consumed == IdSet(w)
    && |frames| == |w.ids|
    && forall j :: 0 <= j < |w.ids| ==>
         w.ids[j] in w.log.wal && OnDisk(w.env, w.m, w.num, w.bufs[j], w.log.wal[w.ids[j]], frames[j])
  }

  lemma ReadByWork(w: Work, s: P.State, frames: seq<seq<seq<byte>>>)
    requires ReadBy(w, s, frames)
    ensures WorkOk(w) && FlushInput(w.m, w.ids, w.bufs) && w.ids != []
  {
    hide FlushInput, L.Births, PartsApart, OnDisk, Mirrors, Readable, IdSet;
    InputReadable(w.m, w.ids, w.bufs);
    forall j | 0 <= j < |w.ids| ensures Mirrors(w.env, w.m, w.num, w.bufs[j], w.log.wal[w.ids[j]]) {
      DiskMirrors(w.env, w.m, w.num, w.bufs[j], w.log.wal[w.ids[j]], frames[j]);
    }
  }

  /**
   * The flush of a protocol state that has read its segments: over any bytes that hold their records, it
   * stages files that are a `MakePlan` step of that state.
   */
  method FlushMakesPlan(env: Env, m: Histories, ids: seq<nat>, bufs: seq<seq<byte>>, budget: nat, fanIn: nat,
                        size: seq<byte> -> nat, ghost s: P.State, ghost num: Numbering,
                        ghost frames: seq<seq<seq<byte>>>)
    returns (staged: seq<(GroupKey, Staged)>)
    requires ReadBy(Work(env, m, ids, bufs, s.log, num), s, frames)
    ensures P.Enabled(s, P.MakePlan(ids[0], ids[|ids| - 1], PlanFrom(Work(env, m, ids, bufs, s.log, num), staged)))
  {
    hide FilesDeliver, PathsOnce, WellPlaced, ReadBy, FlushInput, WorkOk, PlanFrom, P.Enabled, AllRows, DecodedRows,
      Items, Skipped, RowsStaged;
    ReadByWork(Work(env, m, ids, bufs, s.log, num), s, frames);
    var written, deduplicated, rejected, skipped;
    staged, written, deduplicated, rejected, skipped := FlushSegments(env, m, ids, bufs, budget, fanIn, size);
    StagedMakesPlan(Work(env, m, ids, bufs, s.log, num), staged, s, frames);
  }

  lemma StagedMakesPlan(w: Work, staged: seq<(GroupKey, Staged)>, s: P.State, frames: seq<seq<seq<byte>>>)
    requires ReadBy(w, s, frames) && FilesDeliver(staged, AllRows(DecodedRows(w.env, w.m, w.ids, w.bufs)))
    requires PathsOnce(staged) && WellPlaced(staged, w.ids[0], w.ids[|w.ids| - 1])
    ensures P.Enabled(s, P.MakePlan(w.ids[0], w.ids[|w.ids| - 1], PlanFrom(w, staged)))
  {
    hide FilesDeliver, PathsOnce, WellPlaced, P.PlanOf, PlanFrom, WorkOk, IdSet, P.Enabled, FlushInput, L.Births,
      PartsApart, OnDisk;
    ReadByWork(w, s, frames);
    FlushIsPlan(w, staged);
    MayPlan(s, w, PlanFrom(w, staged));
  }

  lemma MayPlan(s: P.State, w: Work, plan: L.Plan)
    requires s.mem.Up? && s.mem.phase.Decoding? && s.mem.phase.remaining == {} && w.ids != [] && w.log == s.log
    requires s.mem.phase.consumed == IdSet(w) && P.PlanOf(w.log, IdSet(w), w.ids[0], w.ids[|w.ids| - 1], plan)
    ensures P.Enabled(s, P.MakePlan(w.ids[0], w.ids[|w.ids| - 1], plan))
  {
    hide P.PlanOf;
  }

  lemma DiskMirrors(env: Env, m: Histories, num: Numbering, buf: seq<byte>, seg: L.Segment, frames: seq<seq<byte>>)
    requires Readable(buf) && OnDisk(env, m, num, buf, seg, frames)
    ensures Mirrors(env, m, num, buf, seg)
  {
    hide Readable, RecordsOfFrames, Image, Mirrors;
    var header, rest :| Image(env, buf, frames, seg.read.count, header, rest);
    ImageMirrors(env, m, num, buf, seg, frames, header, rest);
  }
}
