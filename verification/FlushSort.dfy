/**
 * Phases 1 and 2 of a flush: decode into the batch, spill whenever the budget
 * is reached, then merge each group's runs and in-memory rest. The result does
 * not depend on the budget, the fan-in or the order of pre-merges.
 */
module FlushSort {
  import opened Bytes
  import opened Decimal
  import opened Arrivals
  import opened Groups
  import opened Batch
  import opened Merge
  import opened RunFile

  /** A decoded record and where its id lies in its frame. */
  datatype Decoded = Decoded(key: GroupKey, entry: Entry, idOff: nat)

  /** The lengths fit the batch's fields, and the id is the one the batch takes from the frame. */
  predicate Storable(d: Decoded) {
    && |d.entry.id| < U16_END && |d.entry.frame| < U32_END && d.idOff + |d.entry.id| <= |d.entry.frame|
    && BatchedId(d.entry.frame, d.idOff, |d.entry.id|) == d.entry.id
  }

  function Rows(segment: seq<Decoded>): seq<Tagged> {
    if segment == [] then []
    else Rows(segment[..|segment| - 1]) + [(segment[|segment| - 1].key, segment[|segment| - 1].entry)]
  }

  function AllRows(segments: seq<seq<Decoded>>): seq<Tagged> {
    if segments == [] then [] else AllRows(segments[..|segments| - 1]) + Rows(segments[|segments| - 1])
  }

  /** Segments are read in id order and frames in offset order, so arrivals only grow. */
  ghost predicate InArrivalOrder(rows: seq<Tagged>) {
    forall i, j :: 0 <= i < j < |rows| ==> ArrivalLess(rows[i].1.arrival, rows[j].1.arrival)
  }

  lemma ArrivalsDistinct(rows: seq<Tagged>, g: GroupKey)
    requires InArrivalOrder(rows)
    ensures Distinct(Elements(Of(rows, g)))
  {
    OfMembers(rows, g);
    forall e, f | e in Of(rows, g) && f in Of(rows, g) && e.arrival == f.arrival ensures e == f {
      assert (g, e) in rows && (g, f) in rows;
      var i :| 0 <= i < |rows| && rows[i] == (g, e);
      var j :| 0 <= j < |rows| && rows[j] == (g, f);
      assert !(i < j) && !(j < i);
    }
  }

  // ---- what a group's runs and the batch stand for ----------------------------

  /** Runs and batch hold part of a group's records, all of its survivors included. */
  ghost predicate Carries(runs: seq<seq<Entry>>, mem: seq<Entry>, all: seq<Entry>) {
    && AllSorted(runs) && [] !in runs && All(runs) + Elements(mem) <= Elements(all)
    && First(All(runs) + Elements(mem)) == First(Elements(all))
  }

  ghost predicate CarriesAll(runs: Runs, mem: seq<Tagged>, all: seq<Tagged>) {
    forall g :: Carries(RunsOf(runs, g), Of(mem, g), Of(all, g))
  }

  lemma FirstGrows(a: set<Entry>, b: set<Entry>, e: Entry)
    requires First(a) == First(b)
    ensures First(a + {e}) == First(b + {e})
  {
    FirstOfFirst(a, {e});
    FirstOfFirst(b, {e});
  }

  lemma PushCarries(runs: Runs, mem: seq<Tagged>, all: seq<Tagged>, x: Tagged)
    requires CarriesAll(runs, mem, all)
    ensures CarriesAll(runs, mem + [x], all + [x])
  {
    hide First, All, AllSorted, Elements, Of, RunsOf;
    forall g ensures Carries(RunsOf(runs, g), Of(mem + [x], g), Of(all + [x], g)) {
      assert Carries(RunsOf(runs, g), Of(mem, g), Of(all, g));
      OfLast(mem, x, g);
      OfLast(all, x, g);
      assert Of(mem, g) + [] == Of(mem, g) && Of(all, g) + [] == Of(all, g);
      if x.0 == g {
        ElementsOfLast(Of(mem, g), x.1);
        ElementsOfLast(Of(all, g), x.1);
        var a := All(RunsOf(runs, g));
        FirstGrows(a + Elements(Of(mem, g)), Elements(Of(all, g)), x.1);
        assert a + Elements(Of(mem, g)) + {x.1} == a + (Elements(Of(mem, g)) + {x.1});
      }
    }
  }

  /** Sorting and deduplicating the batch into one more run loses no survivor. */
  lemma SortCarries(runs: seq<seq<Entry>>, mem: seq<Entry>, all: seq<Entry>, run: seq<Entry>)
    requires Carries(runs, mem, all) && IsStreamOf(run, Elements(mem))
    ensures Carries(runs + OneRun(run), [], all)
  {
    hide First, All, AllSorted, Elements, StrictKeys, Sorted;
    AllConcat(runs, OneRun(run));
    AllSortedConcat(runs, OneRun(run));
    RunAsSource(run);
    NoElements();
    FirstOfFirst(Elements(mem), All(runs));
    FirstIsSubset(Elements(mem));
    assert All(runs) + First(Elements(mem)) + {} == First(Elements(mem)) + All(runs);
    assert All(runs) + Elements(mem) == Elements(mem) + All(runs);
  }

  lemma NoElements()
    ensures Elements([]) == {}
  {
  }

  lemma RunAsSource(run: seq<Entry>)
    requires StrictKeys(run)
    ensures All(OneRun(run)) == Elements(run) && AllSorted(OneRun(run))
  {
    hide Sorted;
    StreamIsSorted(run);
    if run == [] { NoElements(); } else { AllOne(run); }
  }

  /** Appending the runs a sorted batch was cut into. */
  lemma SpillCarries(runs: Runs, mem: seq<Tagged>, all: seq<Tagged>, order: seq<Tagged>, cut: Runs)
    requires CarriesAll(runs, mem, all) && InArrivalOrder(all)
    requires SortedRows(order) && multiset(order) == multiset(mem) && Cut(cut, DropRows(order))
    ensures CarriesAll(runs + cut, [], all)
  {
    hide Of, RunsOf, Carries, InArrivalOrder, SortedRows, DropRows, Size;
    forall g ensures Carries(RunsOf(runs + cut, g), Of([], g), Of(all, g)) {
      assert Carries(RunsOf(runs, g), Of(mem, g), Of(all, g));
      MemDistinct(runs, mem, all, g);
      BatchStream(mem, order, g);
      SortCarries(RunsOf(runs, g), Of(mem, g), Of(all, g), Of(DropRows(order), g));
      RunsConcat(runs, cut, g);
      assert RunsOf(cut, g) == OneRun(Of(DropRows(order), g));
      OfNone([], g);
    }
  }

  lemma MemDistinct(runs: Runs, mem: seq<Tagged>, all: seq<Tagged>, g: GroupKey)
    requires Carries(RunsOf(runs, g), Of(mem, g), Of(all, g)) && InArrivalOrder(all)
    ensures Distinct(Elements(Of(mem, g))) && Distinct(All(RunsOf(runs, g)) + Elements(Of(mem, g)))
  {
    hide Of, RunsOf, InArrivalOrder, First, All, Elements, Distinct;
    ArrivalsDistinct(all, g);
    SubsetDistinct(All(RunsOf(runs, g)) + Elements(Of(mem, g)), Elements(Of(all, g)));
    SubsetDistinct(Elements(Of(mem, g)), Elements(Of(all, g)));
  }

  lemma {:induction false} RunsConcat(a: Runs, b: Runs, g: GroupKey)
    ensures RunsOf(a + b, g) == RunsOf(a, g) + RunsOf(b, g) && Size(a + b) == Size(a) + Size(b)
    decreases |b|
  {
    if b == [] {
      assert a + b == a;
    } else {
      var init, x := b[..|b| - 1], b[|b| - 1];
      assert a + b == (a + init) + [x] && b == init + [x];
      RunsConcat(a, init, g);
      RunsLast(a + init, x, g);
      RunsLast(init, x, g);
    }
  }

  // ---- phase 1 ----------------------------------------------------------------

  /** Copy one segment's records into the batch, which is empty or under the budget. */
  method PushSegment(batch: Batch, segment: seq<Decoded>, ghost budget: nat, ghost runs: Runs, ghost all: seq<Tagged>)
    requires batch.Held() == 0 || batch.Held() < budget
    requires batch.Valid() && forall i :: 0 <= i < |segment| ==> Storable(segment[i])
    requires CarriesAll(runs, batch.rows, all)
    modifies batch
    ensures batch.Valid() && batch.deduplicated == old(batch.deduplicated)
    ensures |batch.rows| == |old(batch.rows)| + |Rows(segment)|
    ensures CarriesAll(runs, batch.rows, all + Rows(segment))
  {
    hide CarriesAll;
    assert all + [] == all;
    for i := 0 to |segment|
      invariant batch.Valid() && batch.deduplicated == old(batch.deduplicated)
      invariant |batch.rows| == |old(batch.rows)| + |Rows(segment[..i])|
      invariant CarriesAll(runs, batch.rows, all + Rows(segment[..i]))
    {
      var d := segment[i];
      PushCarries(runs, batch.rows, all + Rows(segment[..i]), (d.key, d.entry));
      RowsStep(segment, i);
      assert all + Rows(segment[..i]) + [(d.key, d.entry)] == all + Rows(segment[..i + 1]);
      batch.Push(d.key, d.entry.ts, d.idOff, |d.entry.id|, d.entry.arrival, d.entry.frame);
    }
    assert segment[..|segment|] == segment;
  }

  lemma RowsStep(segment: seq<Decoded>, i: nat)
    requires i < |segment|
    ensures Rows(segment[..i + 1]) == Rows(segment[..i]) + [(segment[i].key, segment[i].entry)]
  {
    assert segment[..i + 1][..i] == segment[..i];
  }

  lemma AllRowsStep(segments: seq<seq<Decoded>>, i: nat)
    requires i < |segments|
    ensures AllRows(segments[..i + 1]) == AllRows(segments[..i]) + Rows(segments[i])
  {
    assert segments[..i + 1][..i] == segments[..i];
  }

  lemma {:induction false} AllRowsPrefix(segments: seq<seq<Decoded>>, i: nat)
    requires i <= |segments|
    ensures AllRows(segments[..i]) <= AllRows(segments)
    decreases |segments| - i
  {
    if i == |segments| {
      assert segments[..i] == segments;
    } else {
      AllRowsPrefix(segments, i + 1);
      AllRowsStep(segments, i);
    }
  }

  lemma PrefixInOrder(a: seq<Tagged>, b: seq<Tagged>)
    requires a <= b && InArrivalOrder(b)
    ensures InArrivalOrder(a)
  {
    forall i, j | 0 <= i < j < |a| ensures ArrivalLess(a[i].1.arrival, a[j].1.arrival) {
      assert a[i] == b[i] && a[j] == b[j];
    }
  }

  lemma NothingCarried()
    ensures CarriesAll([], [], [])
  {
    assert All([]) == {};
  }

  /** Write the batch out as runs: no survivor is lost, and every record is in a run or counted. */
  method SpillBatch(batch: Batch, ghost spilled: Runs, ghost all: seq<Tagged>)
    returns (files: RunFiles, ghost cut: Runs)
    requires batch.Valid() && CarriesAll(spilled, batch.rows, all) && InArrivalOrder(all)
    modifies batch
    ensures batch.Valid() && batch.rows == [] && batch.Held() == 0
    ensures Written(files, cut) && CarriesAll(spilled + cut, [], all)
    ensures Size(spilled + cut) + batch.deduplicated == Size(spilled) + |old(batch.rows)| + old(batch.deduplicated)
  {
    hide CarriesAll, RunsOf, Of, InArrivalOrder, SortedRows, DropRows, Written;
    ghost var mem, order := batch.rows, [];
    files, cut, order := batch.Spill();
    SpillCarries(spilled, mem, all, order, cut);
    RunsConcat(spilled, cut, ([], 0));
  }

  lemma NothingWritten()
    ensures Written([], [])
  {
  }

  lemma WrittenConcat(a: RunFiles, x: Runs, b: RunFiles, y: Runs)
    requires Written(a, x) && Written(b, y)
    ensures Written(a + b, x + y)
  {
    hide PutRun;
  }

  /** Decode every segment, spilling over budget but never after the last one. */
  method Collect(segments: seq<seq<Decoded>>, budget: nat)
    returns (files: RunFiles, memory: Runs, deduplicated: nat, ghost spilled: Runs)
    requires forall i, j :: 0 <= i < |segments| && 0 <= j < |segments[i]| ==> Storable(segments[i][j])
    requires InArrivalOrder(AllRows(segments))
    ensures Written(files, spilled) && CarriesAll(spilled + memory, [], AllRows(segments))
    ensures Size(spilled + memory) + deduplicated == |AllRows(segments)|
    ensures forall g :: |RunsOf(memory, g)| <= 1 && (RunsOf(memory, g) != [] ==> RunsOf(memory, g)[0] != [])
    ensures |segments| <= 1 ==> spilled == []
  {
    hide CarriesAll, RunsOf, Of, InArrivalOrder, SortedRows, DropRows, Storable, Written;
    var batch := new Batch();
    NothingWritten();
    files, spilled := [], [];
    NothingCarried();
    for i := 0 to |segments|
      invariant batch.Valid() && fresh(batch)
      invariant Written(files, spilled) && CarriesAll(spilled, batch.rows, AllRows(segments[..i]))
      invariant |segments| <= 1 ==> spilled == []
      invariant i < |segments| ==> batch.Held() == 0 || batch.Held() < budget
      invariant Size(spilled) + |batch.rows| + batch.deduplicated == |AllRows(segments[..i])|
    {
      PushSegment(batch, segments[i], budget, spilled, AllRows(segments[..i]));
      AllRowsStep(segments, i);
      if batch.Held() >= budget && i + 1 < |segments| {
        AllRowsPrefix(segments, i + 1);
        PrefixInOrder(AllRows(segments[..i + 1]), AllRows(segments));
        var more, cut := SpillBatch(batch, spilled, AllRows(segments[..i + 1]));
        WrittenConcat(files, spilled, more, cut);
        files, spilled := files + more, spilled + cut;
      }
    }
    assert segments[..|segments|] == segments;
    ghost var mem, order;
    mem := batch.rows;
    memory, order := batch.IntoSources();
    deduplicated := batch.deduplicated;
    SpillCarries(spilled, mem, AllRows(segments), order, memory);
    RunsConcat(spilled, memory, ([], 0));
  }

  // ---- phase 2 ----------------------------------------------------------------

  /** Take a group's runs out of the table. */
  function Without(runs: Runs, g: GroupKey): Runs {
    if runs == [] then []
    else
      var init, x := Without(runs[..|runs| - 1], g), runs[|runs| - 1];
      if x.0 == g then init else init + [x]
  }

  lemma {:induction false} WithoutKeeps(runs: Runs, g: GroupKey, h: GroupKey)
    ensures RunsOf(Without(runs, g), h) == if h == g then [] else RunsOf(runs, h)
    ensures Size(runs) == Size(Without(runs, g)) + Count(RunsOf(runs, g))
    ensures forall x :: x in Without(runs, g) ==> x in runs && x.0 != g
  {
    if runs != [] {
      var init, x := runs[..|runs| - 1], runs[|runs| - 1];
      WithoutKeeps(init, g, h);
      RunsLast(Without(init, g), x, h);
      CountConcat(RunsOf(init, g), if x.0 == g then [x.1] else []);
      AllOne(x.1);
    }
  }

  lemma {:induction false} RunsMembers(runs: Runs, x: (GroupKey, seq<Entry>))
    requires x in runs
    ensures RunsOf(runs, x.0) != []
  {
    var init, y := runs[..|runs| - 1], runs[|runs| - 1];
    if y != x {
      assert runs == init + [y];
      RunsMembers(init, x);
    }
  }

  /** The groups named, each once. */
  method GroupKeys(names: seq<GroupKey>) returns (keys: seq<GroupKey>)
    ensures DistinctGroups(keys)
    ensures forall g :: g in keys <==> g in names
  {
    keys := [];
    for i := 0 to |names|
      invariant DistinctGroups(keys)
      invariant forall g :: g in keys <==> g in names[..i]
    {
      if names[i] !in keys { keys := keys + [names[i]]; }
    }
    assert names[..|names|] == names;
  }

  /** The groups of the files and of the in-memory runs. */
  function GroupNames(files: RunFiles, memory: Runs): (r: seq<GroupKey>) {
    seq(|files|, i requires 0 <= i < |files| => files[i].0) + seq(|memory|, i requires 0 <= i < |memory| => memory[i].0)
  }

  lemma GroupsNamed(files: RunFiles, spilled: Runs, memory: Runs, g: GroupKey)
    requires Written(files, spilled)
    ensures g in GroupNames(files, memory) <==> RunsOf(spilled + memory, g) != []
  {
    hide RunsOf, PutRun;
    var runs, names := spilled + memory, GroupNames(files, memory);
    assert |names| == |runs| && forall i :: 0 <= i < |runs| ==> names[i] == runs[i].0;
    if i :| 0 <= i < |runs| && runs[i].0 == g { RunsMembers(runs, runs[i]); }
    else { NoRunsNamed(runs, g); }
  }

  lemma {:induction false} NoRunsNamed(runs: Runs, g: GroupKey)
    requires forall i :: 0 <= i < |runs| ==> runs[i].0 != g
    ensures RunsOf(runs, g) == []
  {
    if runs != [] { NoRunsNamed(runs[..|runs| - 1], g); }
  }

  /** A group's run files, oldest first. */
  function RunFilesOf(files: RunFiles, g: GroupKey): seq<seq<byte>> {
    if files == [] then []
    else
      RunFilesOf(files[..|files| - 1], g)
      + if files[|files| - 1].0 == g then [files[|files| - 1].1] else []
  }

  lemma {:induction false} RunFilesHold(files: RunFiles, runs: Runs, g: GroupKey)
    requires Written(files, runs) && forall x :: x in runs && x.0 == g ==> AllWritable(x.1)
    ensures Filed(RunFilesOf(files, g), RunsOf(runs, g))
    decreases |files|
  {
    hide AllWritable, PutRun;
    if files != [] {
      var n := |files| - 1;
      RunFilesHold(files[..n], runs[..n], g);
      assert files[n] == (runs[n].0, PutRun(runs[n].1)) && runs[n] in runs;
    }
  }

  ghost predicate RowsWritable(rows: seq<Tagged>) { forall i :: 0 <= i < |rows| ==> Writable(rows[i].1) }

  /** Every spilled record is one of the rows, so it can be written and read back. */
  lemma SpilledWritable(runs: Runs, g: GroupKey, rows: seq<Tagged>)
    requires All(RunsOf(runs, g)) <= Elements(Of(rows, g)) && RowsWritable(rows)
    ensures forall x :: x in runs && x.0 == g ==> AllWritable(x.1)
  {
    hide Writable, RunsOf, Of;
    forall x, i | x in runs && x.0 == g && 0 <= i < |x.1| ensures Writable(x.1[i]) {
      RunIsAmong(runs, x);
      var k :| 0 <= k < |RunsOf(runs, g)| && RunsOf(runs, g)[k] == x.1;
      assert x.1[i] in RunsOf(runs, g)[k] && x.1[i] in All(RunsOf(runs, g));
      OfMembers(rows, g);
      var j :| 0 <= j < |rows| && rows[j] == (g, x.1[i]);
    }
  }

  lemma {:induction false} RunIsAmong(runs: Runs, x: (GroupKey, seq<Entry>))
    requires x in runs
    ensures x.1 in RunsOf(runs, x.0)
  {
    var init, y := runs[..|runs| - 1], runs[|runs| - 1];
    if y != x {
      assert runs == init + [y];
      RunIsAmong(init, x);
    }
  }

  /** Merge one group: its spilled run files and its in-memory run, if it has one. */
  method MergeGroup(files: RunFiles, memory: Runs, g: GroupKey, fanIn: nat, size: seq<byte> -> nat,
                    ghost spilled: Runs, ghost all: seq<Tagged>)
    returns (out: seq<Entry>, stats: Stats)
    requires Written(files, spilled) && (RowsWritable(all) || spilled == [])
    requires Carries(RunsOf(spilled + memory, g), [], Of(all, g)) && InArrivalOrder(all)
    requires |RunsOf(memory, g)| <= 1 && (RunsOf(memory, g) != [] ==> RunsOf(memory, g)[0] != [])
    ensures IsStreamOf(out, Elements(Of(all, g)))
    ensures stats.emitted == |out| && stats.emitted + stats.deduplicated == Count(RunsOf(spilled + memory, g))
  {
    hide RunsOf, Of, InArrivalOrder, Elements, First, All, AllSorted, Count, Distinct, Written, RowsWritable, Filed;
    ghost var runs := RunsOf(spilled, g);
    var mem := RunsOf(memory, g);
    var inMemory := if mem == [] then None else Some(mem[0]);
    RunsConcat(spilled, memory, g);
    AllConcat(runs, mem);
    if spilled != [] { SpilledWritable(spilled, g, all); }
    RunFilesHold(files, spilled, g);
    assert mem == AsSources(inMemory);
    NoElements();
    ArrivalsDistinct(all, g);
    SubsetDistinct(All(runs + AsSources(inMemory)), Elements(Of(all, g)));
    ghost var widest, passes;
    out, stats, widest, passes := MergeBounded(RunFilesOf(files, g), inMemory, fanIn, size, runs);
    assert All(runs + mem) + {} == All(runs + mem);
    SameSurvivors(out, All(runs + mem), Elements(Of(all, g)));
  }

  /** What the sink receives: each group with records, once, with exactly its specified stream. */
  ghost predicate Delivered(streams: Runs, rows: seq<Tagged>) {
    && (forall i, j :: 0 <= i < j < |streams| ==> streams[i].0 != streams[j].0)
    && (forall i :: 0 <= i < |streams| ==> IsStreamOf(streams[i].1, Elements(Of(rows, streams[i].0))))
    && (forall i :: 0 <= i < |streams| ==> Of(rows, streams[i].0) != [])
    && (forall g :: Of(rows, g) != [] ==> exists i :: 0 <= i < |streams| && streams[i].0 == g)
  }

  /** Sort, spill and merge a whole flush. A single segment is never spilled. */
  method SortFlush(segments: seq<seq<Decoded>>, budget: nat, fanIn: nat, size: seq<byte> -> nat)
    returns (streams: Runs, written: nat, deduplicated: nat)
    requires forall i, j :: 0 <= i < |segments| && 0 <= j < |segments[i]| ==> Storable(segments[i][j])
    requires InArrivalOrder(AllRows(segments)) && (RowsWritable(AllRows(segments)) || |segments| <= 1)
    ensures Delivered(streams, AllRows(segments))
    ensures written == Size(streams) && written + deduplicated == |AllRows(segments)|
  {
    hide CarriesAll, Carries, RunsOf, Of, InArrivalOrder, Storable, IsStreamOf, Elements, Size, Count, Without, AllRows,
      Written, RowsWritable, GroupNames;
    var files, memory, dropped, spilled := Collect(segments, budget);
    ghost var rows, runs := AllRows(segments), spilled + memory;
    var keys := GroupKeys(GroupNames(files, memory));
    forall g ensures g in keys <==> RunsOf(runs, g) != [] { GroupsNamed(files, spilled, memory, g); }
    streams, written, deduplicated := [], 0, dropped;
    ghost var left := runs;
    SizeOfNothing();
    AllPresent(left, keys);
    for i := 0 to |keys|
      invariant |streams| == i && written == Size(streams)
      invariant forall k :: 0 <= k < i ==>
                  streams[k].0 == keys[k] && IsStreamOf(streams[k].1, Elements(Of(rows, keys[k])))
      invariant written + deduplicated + Size(left) == |rows|
      invariant forall k :: i <= k < |keys| ==> RunsOf(left, keys[k]) == RunsOf(runs, keys[k])
      invariant forall x :: x in left ==> x.0 in keys[i..]
    {
      var g := keys[i];
      GroupReady(runs, rows, g);
      var out, stats := MergeGroup(files, memory, g, fanIn, size, spilled, rows);
      RunsLast(streams, (g, out), g);
      Taken(left, keys, i);
      left := Without(left, g);
      streams := streams + [(g, out)];
      written, deduplicated := written + stats.emitted, deduplicated + stats.deduplicated;
    }
    NoneLeft(left, keys);
    KeysCover(runs, rows, keys);
    forall g | Of(rows, g) != [] ensures exists i :: 0 <= i < |streams| && streams[i].0 == g {
      var i :| 0 <= i < |keys| && keys[i] == g;
      assert streams[i].0 == g;
    }
  }

  lemma NoneLeft(left: Runs, keys: seq<GroupKey>)
    requires forall x :: x in left ==> x.0 in keys[|keys|..]
    ensures left == []
  {
    AnyRun(left);
  }

  lemma AnyRun(runs: Runs)
    ensures runs == [] || exists x :: x in runs
  {
    if runs != [] { assert runs[0] in runs; }
  }

  lemma SizeOfNothing()
    ensures Size([]) == 0
  {
  }

  lemma AllPresent(runs: Runs, keys: seq<GroupKey>)
    requires forall g :: g in keys <==> RunsOf(runs, g) != []
    ensures forall x :: x in runs ==> x.0 in keys[0..]
  {
    hide RunsOf;
    assert keys[0..] == keys;
    forall x | x in runs ensures x.0 in keys { RunsMembers(runs, x); }
  }

  lemma GroupReady(runs: Runs, rows: seq<Tagged>, g: GroupKey)
    requires CarriesAll(runs, [], rows)
    ensures Carries(RunsOf(runs, g), [], Of(rows, g))
  {
    hide RunsOf, Carries;
    assert Carries(RunsOf(runs, g), Of([], g), Of(rows, g));
  }

  /** Removing the group just merged. */
  lemma Taken(left: Runs, keys: seq<GroupKey>, i: nat)
    requires i < |keys| && DistinctGroups(keys) && forall x :: x in left ==> x.0 in keys[i..]
    ensures Size(left) == Size(Without(left, keys[i])) + Count(RunsOf(left, keys[i]))
    ensures forall k :: i < k < |keys| ==> RunsOf(Without(left, keys[i]), keys[k]) == RunsOf(left, keys[k])
    ensures forall x :: x in Without(left, keys[i]) ==> x.0 in keys[i + 1..]
  {
    hide RunsOf, Size, Count, Without;
    WithoutKeeps(left, keys[i], keys[i]);
    forall k | i < k < |keys| ensures RunsOf(Without(left, keys[i]), keys[k]) == RunsOf(left, keys[k]) {
      WithoutKeeps(left, keys[i], keys[k]);
    }
    assert keys[i..] == [keys[i]] + keys[i + 1..];
  }

  /** The groups with records are those with a run. */
  lemma KeysCover(runs: Runs, rows: seq<Tagged>, keys: seq<GroupKey>)
    requires CarriesAll(runs, [], rows)
    requires forall g :: g in keys <==> RunsOf(runs, g) != []
    ensures forall g :: Of(rows, g) != [] <==> g in keys
  {
    hide RunsOf, Of, First, AllSorted;
    forall g | g in keys ensures Of(rows, g) != [] {
      GroupReady(runs, rows, g);
      var run := RunsOf(runs, g)[0];
      assert run in RunsOf(runs, g) && run[0] in run;
      assert run[0] in All(RunsOf(runs, g));
    }
    forall g | Of(rows, g) != [] ensures g in keys {
      GroupReady(runs, rows, g);
      FirstMember(Of(rows, g));
      var f := SurvivorOf(Elements(Of(rows, g)), Of(rows, g)[0]);
      FirstIsSubset(All(RunsOf(runs, g)) + Elements([]));
      assert f in All(RunsOf(runs, g));
    }
  }
}
