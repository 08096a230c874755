/**
 * Cutting a group's merged stream into one staged file per hour
 * (src/flush/planner.rs, `merge_partition`). The loop opens a file whenever the
 * hour index changes; only the order of the stream makes that one file an hour.
 */
module Partition {
  import opened Bytes
  import opened Decimal
  import opened Arrivals
  import opened Groups
  import opened Batch
  import opened FlushSort
  import opened CivilTime
  import opened Names

  /** A staged file: its hour's index and directory, and the records written to it. */
  datatype HourFile = HourFile(index: nat, hour: string, rows: seq<Entry>)

  function Hour(e: Entry): nat { e.ts / US_PER_HOUR }

  function Concat(files: seq<HourFile>): seq<Entry> {
    if files == [] then [] else Concat(files[..|files| - 1]) + files[|files| - 1].rows
  }

  /** Every record of the file belongs to its hour, which its directory names. */
  ghost predicate OneHour(f: HourFile) {
    && f.rows != [] && f.hour == HourPartition(f.rows[0].ts)
    && (forall k :: 0 <= k < |f.rows| ==> Hour(f.rows[k]) == f.index)
  }

  ghost predicate ByHour(files: seq<HourFile>) {
    && (forall i :: 0 <= i < |files| ==> OneHour(files[i]))
    && (forall i, j :: 0 <= i < j < |files| ==> files[i].index < files[j].index)
  }

  lemma ConcatLast(files: seq<HourFile>, f: HourFile)
    ensures Concat(files + [f]) == Concat(files) + f.rows
  {
    var s := files + [f];
    assert s[..|s| - 1] == files;
  }

  lemma HoursAscend(stream: seq<Entry>, i: nat, j: nat)
    requires StrictKeys(stream) && i <= j < |stream|
    ensures Hour(stream[i]) <= Hour(stream[j])
  {
    if i < j {
      assert KeyLess(stream[i], stream[j]);
      DivideMonotone(stream[i].ts, stream[j].ts);
    }
  }

  lemma DivideMonotone(a: nat, b: nat)
    requires a <= b
    ensures a / US_PER_HOUR <= b / US_PER_HOUR
  {
  }

  /** What the loop has finished plus the file it has open. */
  function Pending(open: Option<HourFile>): seq<HourFile> {
    match open case None => [] case Some(f) => [f]
  }

  lemma Reopened(files: seq<HourFile>, e: Entry)
    requires ByHour(files) && (files != [] ==> files[|files| - 1].index < Hour(e))
    ensures ByHour(files + [HourFile(Hour(e), HourPartition(e.ts), [e])])
    ensures Concat(files + [HourFile(Hour(e), HourPartition(e.ts), [e])]) == Concat(files) + [e]
  {
    hide HourPartition, Hour, ByHour, Concat;
    var f := HourFile(Hour(e), HourPartition(e.ts), [e]);
    assert OneHour(f);
    ByHourLast(files, f);
    ConcatLast(files, f);
  }

  lemma ByHourLast(files: seq<HourFile>, f: HourFile)
    requires ByHour(files) && OneHour(f) && (files != [] ==> files[|files| - 1].index < f.index)
    ensures ByHour(files + [f])
  {
    hide OneHour;
  }

  lemma Continued(files: seq<HourFile>, f: HourFile, e: Entry)
    requires ByHour(files + [f]) && Hour(e) == f.index
    ensures ByHour(files + [f.(rows := f.rows + [e])])
    ensures Concat(files + [f.(rows := f.rows + [e])]) == Concat(files + [f]) + [e]
  {
    hide HourPartition, Hour;
    var was, now := files + [f], files + [f.(rows := f.rows + [e])];
    assert OneHour(was[|files|]);
    assert forall i :: 0 <= i < |was| ==> now[i].index == was[i].index;
    assert forall i :: 0 <= i < |files| ==> now[i] == was[i];
    ConcatLast(files, f);
    ConcatLast(files, f.(rows := f.rows + [e]));
  }

  /** Stream the records of one group into a file per hour. */
  method SplitByHour(stream: seq<Entry>) returns (files: seq<HourFile>)
    requires StrictKeys(stream)
    ensures ByHour(files) && Concat(files) == stream
  {
    hide OneHour, ByHour, Concat, HourPartition, Hour, StrictKeys;
    files := [];
    var open: Option<HourFile> := None;
    NothingOpen();
    assert stream[..0] == [];
    for i := 0 to |stream|
      invariant open.None? <==> i == 0
      invariant open.None? ==> files == []
      invariant open.Some? ==> open.value.index == Hour(stream[i - 1])
      invariant ByHour(files + Pending(open)) && Concat(files + Pending(open)) == stream[..i]
    {
      var e := stream[i];
      if i > 0 { HoursAscend(stream, i - 1, i); }
      assert stream[..i + 1] == stream[..i] + [e];
      if open.None? || open.value.index != Hour(e) {
        Reopened(files + Pending(open), e);
        files := files + Pending(open);
        open := Some(HourFile(Hour(e), HourPartition(e.ts), [e]));
      } else {
        Continued(files, open.value, e);
        open := Some(open.value.(rows := open.value.rows + [e]));
      }
    }
    files := files + Pending(open);
    assert stream[..|stream|] == stream;
  }

  lemma NoFilesYet()
    ensures ByHour([]) && Concat([]) == []
  {
  }

  lemma NothingOpen()
    ensures ByHour([] + Pending(None)) && Concat([] + Pending(None)) == []
  {
  }

  /** The hour directories of one group's files are different. */
  lemma HoursNamedApart(files: seq<HourFile>, i: nat, j: nat)
    requires ByHour(files) && i < j < |files|
    ensures files[i].hour != files[j].hour
  {
    hide HourPartition;
    assert OneHour(files[i]) && OneHour(files[j]);
    PartitionNamesHours(files[i].rows[0].ts, files[j].rows[0].ts);
  }

  // ---- one flush ----------------------------------------------------------------

  /** `tmp/<series>/<hour>/<name>`. */
  datatype Path = Path(series: Text, hour: string, name: string)

  datatype Staged = Staged(path: Path, file: HourFile)

  function PathsFor(key: GroupKey, first: nat, last: nat, files: seq<HourFile>): (r: seq<Staged>)
    ensures |r| == |files|
    ensures forall i :: 0 <= i < |files| ==>
              r[i] == Staged(Path(key.0, files[i].hour, OutputFileName(first, last, key.1)), files[i])
  {
    if files == [] then []
    else
      var n := |files| - 1;
      PathsFor(key, first, last, files[..n])
        + [Staged(Path(key.0, files[n].hour, OutputFileName(first, last, key.1)), files[n])]
  }

  /** The files staged for group `g`, in order. */
  function FilesOf(staged: seq<(GroupKey, Staged)>, g: GroupKey): seq<HourFile> {
    if staged == [] then []
    else
      FilesOf(staged[..|staged| - 1], g)
      + if staged[|staged| - 1].0 == g then [staged[|staged| - 1].1.file] else []
  }

  lemma {:induction false} FilesOfConcat(a: seq<(GroupKey, Staged)>, b: seq<(GroupKey, Staged)>, g: GroupKey)
    ensures FilesOf(a + b, g) == FilesOf(a, g) + FilesOf(b, g)
    decreases |b|
  {
    if b == [] {
      assert a + b == a;
    } else {
      assert (a + b)[..|a + b| - 1] == a + b[..|b| - 1];
      FilesOfConcat(a, b[..|b| - 1], g);
    }
  }

  function Tag(g: GroupKey, s: seq<Staged>): (r: seq<(GroupKey, Staged)>)
    ensures |r| == |s| && forall i :: 0 <= i < |s| ==> r[i] == (g, s[i])
  {
    if s == [] then [] else Tag(g, s[..|s| - 1]) + [(g, s[|s| - 1])]
  }

  lemma {:induction false} FilesOfTagged(k: GroupKey, g: GroupKey, first: nat, last: nat, files: seq<HourFile>)
    ensures FilesOf(Tag(k, PathsFor(k, first, last, files)), g) == if g == k then files else []
  {
    if files != [] {
      var n := |files| - 1;
      var t := Tag(k, PathsFor(k, first, last, files));
      assert t[..n] == Tag(k, PathsFor(k, first, last, files[..n]));
      FilesOfTagged(k, g, first, last, files[..n]);
    }
  }

  /** Every staged file lies where its group, range and hour put it. */
  ghost predicate WellPlaced(staged: seq<(GroupKey, Staged)>, first: nat, last: nat) {
    forall i :: 0 <= i < |staged| ==>
      && staged[i].1.path == Path(staged[i].0.0, staged[i].1.file.hour, OutputFileName(first, last, staged[i].0.1))
      && OneHour(staged[i].1.file)
  }

  ghost predicate PathsOnce(staged: seq<(GroupKey, Staged)>) {
    forall i, j :: 0 <= i < j < |staged| ==> staged[i].1.path != staged[j].1.path
  }

  /** Files of two groups, or of two hours of one group, never share a path. */
  lemma PathsApart(a: (GroupKey, Staged), b: (GroupKey, Staged), first: nat, last: nat)
    requires first <= U64_MAX && last <= U64_MAX
    requires WellPlaced([a], first, last) && WellPlaced([b], first, last)
    requires a.0 != b.0 || a.1.file.hour != b.1.file.hour
    ensures a.1.path != b.1.path
  {
    hide OutputFileName, HourPartition;
    assert [a][0] == a && [b][0] == b;
    OutputNamesDistinct((first, last, a.0.1), (first, last, b.0.1));
  }

  lemma StageGroup(staged: seq<(GroupKey, Staged)>, k: GroupKey, first: nat, last: nat, files: seq<HourFile>)
    requires first <= U64_MAX && last <= U64_MAX && ByHour(files)
    requires WellPlaced(staged, first, last) && PathsOnce(staged)
    requires forall i :: 0 <= i < |staged| ==> staged[i].0 != k
    ensures var r := staged + Tag(k, PathsFor(k, first, last, files)); WellPlaced(r, first, last) && PathsOnce(r)
  {
    hide OutputFileName, OneHour, ByHour, Tag, PathsFor;
    var more := Tag(k, PathsFor(k, first, last, files));
    TaggedPlaced(k, first, last, files);
    var r := staged + more;
    forall i, j | 0 <= i < j < |r| ensures r[i].1.path != r[j].1.path {
      if j >= |staged| {
        if i >= |staged| { HoursNamedApart(files, i - |staged|, j - |staged|); }
        PlacedAt(r, i, first, last);
        PlacedAt(r, j, first, last);
        PathsApart(r[i], r[j], first, last);
      }
    }
  }

  lemma PlacedAt(r: seq<(GroupKey, Staged)>, i: nat, first: nat, last: nat)
    requires WellPlaced(r, first, last) && i < |r|
    ensures WellPlaced([r[i]], first, last)
  {
    hide OutputFileName, OneHour;
  }

  lemma TaggedPlaced(k: GroupKey, first: nat, last: nat, files: seq<HourFile>)
    requires ByHour(files)
    ensures WellPlaced(Tag(k, PathsFor(k, first, last, files)), first, last)
  {
    hide OutputFileName, OneHour;
  }

  /** How many records the staged files hold. */
  function RowsStaged(staged: seq<(GroupKey, Staged)>): nat {
    if staged == [] then 0 else RowsStaged(staged[..|staged| - 1]) + |staged[|staged| - 1].1.file.rows|
  }

  lemma {:induction false} RowsStagedMore(staged: seq<(GroupKey, Staged)>, k: GroupKey, first: nat, last: nat,
                                          files: seq<HourFile>)
    ensures RowsStaged(staged + Tag(k, PathsFor(k, first, last, files))) == RowsStaged(staged) + |Concat(files)|
    decreases |files|
  {
    hide OutputFileName, RowsStaged, Tag, PathsFor;
    var more := Tag(k, PathsFor(k, first, last, files));
    if files == [] {
      assert staged + more == staged;
    } else {
      var n := |files| - 1;
      var fewer := Tag(k, PathsFor(k, first, last, files[..n]));
      RowsStagedMore(staged, k, first, last, files[..n]);
      assert staged + more == staged + fewer + [more[n]];
      OneMoreStaged(staged + fewer, more[n]);
    }
  }

  lemma OneMoreStaged(staged: seq<(GroupKey, Staged)>, x: (GroupKey, Staged))
    ensures RowsStaged(staged + [x]) == RowsStaged(staged) + |x.1.file.rows|
  {
    assert (staged + [x])[..|staged|] == staged;
  }

  /** Each merged group has its stream, read back in hour order. */
  ghost predicate Stages(staged: seq<(GroupKey, Staged)>, streams: Runs, n: nat) {
    && n <= |streams|
    && (forall k :: 0 <= k < n ==>
          ByHour(FilesOf(staged, streams[k].0)) && Concat(FilesOf(staged, streams[k].0)) == streams[k].1)
    && (forall i :: 0 <= i < |staged| ==> exists k :: 0 <= k < n && staged[i].0 == streams[k].0)
  }

  /** Stage every group of a flush over segments `first..last`. */
  method StageAll(streams: Runs, first: nat, last: nat, ghost rows: seq<Tagged>)
    returns (staged: seq<(GroupKey, Staged)>)
    requires first <= U64_MAX && last <= U64_MAX && Delivered(streams, rows)
    ensures PathsOnce(staged) && WellPlaced(staged, first, last)
    ensures Stages(staged, streams, |streams|) && RowsStaged(staged) == Size(streams)
  {
    hide WellPlaced, PathsOnce, FilesOf, ByHour, Concat, Elements, Of, First, StrictKeys, PathsFor, Size, RowsStaged;
    staged := [];
    NothingStaged(first, last);
    assert streams[..0] == [];
    for n := 0 to |streams|
      invariant PathsOnce(staged) && WellPlaced(staged, first, last) && Stages(staged, streams, n)
      invariant RowsStaged(staged) == Size(streams[..n])
    {
      var key := streams[n].0;
      var files := SplitByHour(streams[n].1);
      StageGroup(staged, key, first, last, files);
      StagesMore(staged, streams, n, first, last, files);
      RowsStagedMore(staged, key, first, last, files);
      assert streams[..n + 1] == streams[..n] + [streams[n]];
      RunsLast(streams[..n], streams[n], key);
      staged := staged + Tag(key, PathsFor(key, first, last, files));
    }
    assert streams[..|streams|] == streams;
  }

  lemma NothingStaged(first: nat, last: nat)
    ensures WellPlaced([], first, last) && PathsOnce([]) && RowsStaged([]) == 0 == Size([])
  {
  }

  lemma StagesMore(staged: seq<(GroupKey, Staged)>, streams: Runs, n: nat, first: nat, last: nat, files: seq<HourFile>)
    requires n < |streams| && Stages(staged, streams, n) && ByHour(files) && Concat(files) == streams[n].1
    requires forall i, j :: 0 <= i < j < |streams| ==> streams[i].0 != streams[j].0
    ensures Stages(staged + Tag(streams[n].0, PathsFor(streams[n].0, first, last, files)), streams, n + 1)
  {
    hide FilesOf, ByHour, Concat, OutputFileName;
    var key := streams[n].0;
    var more := Tag(key, PathsFor(key, first, last, files));
    forall k | 0 <= k <= n
      ensures FilesOf(staged + more, streams[k].0) == if k == n then files else FilesOf(staged, streams[k].0)
    {
      FilesOfConcat(staged, more, streams[k].0);
      FilesOfTagged(key, streams[k].0, first, last, files);
      if k == n { NoFiles(staged, key); }
      assert FilesOf(staged, streams[k].0) + [] == FilesOf(staged, streams[k].0);
    }
  }

  lemma {:induction false} NoFiles(staged: seq<(GroupKey, Staged)>, g: GroupKey)
    requires forall i :: 0 <= i < |staged| ==> staged[i].0 != g
    ensures FilesOf(staged, g) == []
  {
    if staged != [] { NoFiles(staged[..|staged| - 1], g); }
  }
}
