/** The flush's in-memory batch: one arena of frames, fixed-size entries pointing into it, interned groups. */
module Batch {
  import opened Bytes
  import opened Arrivals
  import opened Groups
  import opened RunFile

  /** `id_off` and `id_len` are 16 bits wide, `frame_len` 32: see `Batch.Push`. */
  datatype MemEntry = MemEntry(ts: u64, arrival: (nat, nat), frame: nat, frameLen: u32, group: nat, idOff: nat,
                               idLen: nat)

  const MEM_ENTRY_BYTES: nat := 48

  predicate Placed(arena: seq<byte>, groups: seq<GroupKey>, e: MemEntry) {
    e.group < |groups| && e.frame + e.frameLen <= |arena| && e.frame + e.idOff + e.idLen <= |arena|
  }

  /** The record an entry stands for. */
  function RowOf(arena: seq<byte>, groups: seq<GroupKey>, e: MemEntry): Tagged
    requires Placed(arena, groups, e)
  {
    var start := e.frame + e.idOff;
    (groups[e.group], Entry(e.ts, arena[start..start + e.idLen], e.arrival, arena[e.frame..e.frame + e.frameLen]))
  }

  ghost predicate Holds(arena: seq<byte>, groups: seq<GroupKey>, entries: seq<MemEntry>, rows: seq<Tagged>) {
    && |entries| == |rows|
    && forall i :: 0 <= i < |entries| ==>
         Placed(arena, groups, entries[i]) && RowOf(arena, groups, entries[i]) == rows[i]
  }

  /** The bytes an entry takes for the id: its offset is kept in 16 bits. */
  function BatchedId(frame: seq<byte>, idOff: nat, idLen: nat): seq<byte>
    requires idOff + idLen <= |frame|
  {
    frame[idOff % U16_END..idOff % U16_END + idLen]
  }

  lemma RowOfGrows(arena: seq<byte>, more: seq<byte>, groups: seq<GroupKey>, extra: seq<GroupKey>, e: MemEntry)
    requires Placed(arena, groups, e)
    ensures Placed(arena + more, groups + extra, e)
    ensures RowOf(arena + more, groups + extra, e) == RowOf(arena, groups, e)
  {
    var start := e.frame + e.idOff;
    assert (arena + more)[start..start + e.idLen] == arena[start..start + e.idLen];
    assert (arena + more)[e.frame..e.frame + e.frameLen] == arena[e.frame..e.frame + e.frameLen];
  }

  lemma HoldsGrows(arena: seq<byte>, more: seq<byte>, groups: seq<GroupKey>, extra: seq<GroupKey>,
                   entries: seq<MemEntry>, rows: seq<Tagged>)
    requires Holds(arena, groups, entries, rows)
    ensures Holds(arena + more, groups + extra, entries, rows)
  {
    hide RowOf, Placed;
    forall i | 0 <= i < |entries|
      ensures Placed(arena + more, groups + extra, entries[i])
      ensures RowOf(arena + more, groups + extra, entries[i]) == rows[i]
    {
      RowOfGrows(arena, more, groups, extra, entries[i]);
    }
  }

  lemma HoldsConcat(arena: seq<byte>, groups: seq<GroupKey>, a: seq<MemEntry>, b: seq<MemEntry>, ra: seq<Tagged>,
                    rb: seq<Tagged>)
    requires Holds(arena, groups, a, ra) && Holds(arena, groups, b, rb)
    ensures Holds(arena, groups, a + b, ra + rb)
  {
    hide RowOf, Placed;
  }

  /** The slot where `e` goes: after every entry that is not greater. */
  method Slot(arena: seq<byte>, groups: seq<GroupKey>, sorted: seq<MemEntry>, e: MemEntry, ghost rows: seq<Tagged>,
              ghost row: Tagged)
    returns (j: nat)
    requires Holds(arena, groups, sorted, rows) && SortedRows(rows)
    requires Placed(arena, groups, e) && RowOf(arena, groups, e) == row
    ensures j <= |rows| && SortedRows(rows[..j] + [row] + rows[j..])
  {
    hide RowOf, Placed, TaggedLess;
    TaggedOrder();
    j := |sorted|;
    while j > 0 && TaggedLess(RowOf(arena, groups, e), RowOf(arena, groups, sorted[j - 1]))
      invariant j <= |sorted| == |rows|
      invariant forall k :: j <= k < |rows| ==> TaggedLess(row, rows[k])
    {
      j := j - 1;
    }
    InsertedSorted(rows, row, j);
  }

  lemma InsertedSorted(rows: seq<Tagged>, row: Tagged, j: nat)
    requires j <= |rows| && SortedRows(rows)
    requires forall k :: j <= k < |rows| ==> TaggedLess(row, rows[k])
    requires j > 0 ==> !TaggedLess(row, rows[j - 1])
    ensures SortedRows(rows[..j] + [row] + rows[j..])
  {
    TaggedOrder();
    hide TaggedLess;
    forall k | 0 <= k < j ensures !TaggedLess(row, rows[k]) {
      if k < j - 1 { assert !TaggedLess(rows[j - 1], rows[k]); }
    }
  }

  /** `sort_unstable_by (group, ts, id, arrival)`. */
  method SortEntries(arena: seq<byte>, groups: seq<GroupKey>, entries: seq<MemEntry>, ghost rows: seq<Tagged>)
    returns (sorted: seq<MemEntry>, ghost sortedRows: seq<Tagged>)
    requires Holds(arena, groups, entries, rows)
    ensures Holds(arena, groups, sorted, sortedRows)
    ensures SortedRows(sortedRows) && multiset(sortedRows) == multiset(rows)
  {
    hide RowOf, Placed, TaggedLess, SortedRows;
    sorted, sortedRows := [], [];
    NoRows();
    for i := 0 to |entries|
      invariant Holds(arena, groups, sorted, sortedRows)
      invariant SortedRows(sortedRows) && multiset(sortedRows) == multiset(rows[..i])
    {
      var e, row := entries[i], rows[i];
      var j := Slot(arena, groups, sorted, e, sortedRows, row);
      PutAt(arena, groups, sorted, sortedRows, e, row, j);
      sorted := sorted[..j] + [e] + sorted[j..];
      sortedRows := sortedRows[..j] + [row] + sortedRows[j..];
      assert rows[..i + 1] == rows[..i] + [row];
    }
    assert rows[..|entries|] == rows;
  }

  lemma NoRows()
    ensures SortedRows([])
  {
  }

  lemma PutAt(arena: seq<byte>, groups: seq<GroupKey>, sorted: seq<MemEntry>, rows: seq<Tagged>, e: MemEntry,
              row: Tagged, j: nat)
    requires Holds(arena, groups, sorted, rows) && j <= |rows|
    requires Placed(arena, groups, e) && RowOf(arena, groups, e) == row
    ensures Holds(arena, groups, sorted[..j] + [e] + sorted[j..], rows[..j] + [row] + rows[j..])
    ensures multiset(rows[..j] + [row] + rows[j..]) == multiset(rows) + multiset{row}
  {
    hide RowOf, Placed;
    assert rows == rows[..j] + rows[j..];
  }

  predicate DistinctGroups(groups: seq<GroupKey>) {
    forall i, j :: 0 <= i < j < |groups| ==> groups[i] != groups[j]
  }

  /** The comparison `dedup_by` makes on entries is the one on the records they stand for. */
  predicate SameEntry(arena: seq<byte>, groups: seq<GroupKey>, a: MemEntry, b: MemEntry)
    requires Placed(arena, groups, a) && Placed(arena, groups, b)
  {
    a.group == b.group && a.ts == b.ts && RowOf(arena, groups, a).1.id == RowOf(arena, groups, b).1.id
  }

  lemma SameEntryIsSameRow(arena: seq<byte>, groups: seq<GroupKey>, a: MemEntry, b: MemEntry)
    requires DistinctGroups(groups) && Placed(arena, groups, a) && Placed(arena, groups, b)
    ensures SameEntry(arena, groups, a, b) <==> SameRow(RowOf(arena, groups, a), RowOf(arena, groups, b))
    ensures a.group == b.group <==> RowOf(arena, groups, a).0 == RowOf(arena, groups, b).0
  {
  }

  /** `dedup_by` against the last entry kept. */
  method DedupEntries(arena: seq<byte>, groups: seq<GroupKey>, entries: seq<MemEntry>, ghost rows: seq<Tagged>)
    returns (kept: seq<MemEntry>)
    requires Holds(arena, groups, entries, rows) && DistinctGroups(groups)
    ensures Holds(arena, groups, kept, DropRows(rows))
  {
    hide RowOf, Placed, DropRows, SameEntry;
    kept := [];
    NoRowsDropped();
    ghost var last: nat := 0;
    for i := 0 to |entries|
      invariant Holds(arena, groups, kept, DropRows(rows[..i]))
      invariant i > 0 ==> last < i && kept != [] && kept[|kept| - 1] == entries[last]
      invariant i > 0 ==> SameRow(rows[last], rows[i - 1])
      invariant i == 0 ==> kept == []
    {
      DropRowsStep(rows[..i], rows[i]);
      assert rows[..i + 1] == rows[..i] + [rows[i]];
      if kept != [] { SameEntryIsSameRow(arena, groups, entries[i], kept[|kept| - 1]); }
      if kept == [] || !SameEntry(arena, groups, entries[i], kept[|kept| - 1]) {
        kept := kept + [entries[i]];
        last := i;
      }
    }
    assert rows[..|entries|] == rows;
  }

  lemma NoRowsDropped()
    ensures DropRows([]) == []
  {
  }

  /** One sorted run per group, in group order. */
  type Runs = seq<(GroupKey, seq<Entry>)>

  /** Spilled files, each with its group. */
  type RunFiles = seq<(GroupKey, seq<byte>)>

  /** Each file is a run of its group, written out. */
  ghost predicate Written(files: RunFiles, runs: Runs) {
    |files| == |runs| && forall i :: 0 <= i < |files| ==> files[i] == (runs[i].0, PutRun(runs[i].1))
  }

  method WriteRuns(runs: Runs) returns (files: RunFiles)
    ensures Written(files, runs)
  {
    hide PutRun;
    files := [];
    for i := 0 to |runs|
      invariant Written(files, runs[..i])
    {
      var file := WriteRun(runs[i].1);
      files := files + [(runs[i].0, file)];
    }
    assert runs[..|runs|] == runs;
  }

  function RunsOf(runs: Runs, g: GroupKey): seq<seq<Entry>> {
    if runs == [] then []
    else RunsOf(runs[..|runs| - 1], g) + if runs[|runs| - 1].0 == g then [runs[|runs| - 1].1] else []
  }

  function Size(runs: Runs): nat {
    if runs == [] then 0 else Size(runs[..|runs| - 1]) + |runs[|runs| - 1].1|
  }

  /** `runs` cuts `rows` by group: one run for each group present, none for the others. */
  ghost predicate Cut(runs: Runs, rows: seq<Tagged>) {
    && Size(runs) == |rows|
    && (forall g :: RunsOf(runs, g) == OneRun(Of(rows, g)))
  }

  function OneRun(s: seq<Entry>): seq<seq<Entry>> { if s == [] then [] else [s] }

  lemma RunsLast(runs: Runs, x: (GroupKey, seq<Entry>), g: GroupKey)
    ensures RunsOf(runs + [x], g) == RunsOf(runs, g) + if x.0 == g then [x.1] else []
    ensures Size(runs + [x]) == Size(runs) + |x.1|
  {
    var s := runs + [x];
    assert s[..|s| - 1] == runs;
  }

  lemma {:induction false} OfBlock(block: seq<Tagged>, k: GroupKey, g: GroupKey)
    requires forall i :: 0 <= i < |block| ==> block[i].0 == k
    ensures Of(block, g) == if g == k then Of(block, k) else []
    ensures |Of(block, k)| == |block|
    ensures forall i :: 0 <= i < |block| ==> Of(block, k)[i] == block[i].1
  {
    if block != [] { OfBlock(block[..|block| - 1], k, g); }
  }

  /** Cutting one more block off a sorted batch. */
  lemma CutBlock(runs: Runs, rows: seq<Tagged>, start: nat, end: nat, run: seq<Entry>)
    requires SortedRows(rows) && start < end <= |rows| && Cut(runs, rows[..start])
    requires start > 0 ==> rows[start].0 != rows[start - 1].0
    requires forall i :: start <= i < end ==> rows[i].0 == rows[start].0
    requires |run| == end - start && forall i :: 0 <= i < |run| ==> run[i] == rows[start + i].1
    ensures Cut(runs + [(rows[start].0, run)], rows[..end])
  {
    hide Of, RunsOf, Size, TaggedLess;
    var k, block := rows[start].0, rows[start..end];
    OfBlock(block, k, k);
    assert run == Of(block, k);
    assert rows[..end] == rows[..start] + block;
    assert Of(rows[..start], k) == [] by {
      if start > 0 {
        assert rows[..start] + [rows[start]] == rows[..start + 1];
        LastOpensGroup(rows[..start], rows[start]);
      } else {
        OfNone(rows[..start], k);
      }
    }
    RunsLast(runs, (k, run), k);
    forall g ensures RunsOf(runs + [(k, run)], g) == OneRun(Of(rows[..end], g)) {
      CutGroup(runs, rows[..start], block, k, run, g);
    }
  }

  lemma CutGroup(runs: Runs, prefix: seq<Tagged>, block: seq<Tagged>, k: GroupKey, run: seq<Entry>, g: GroupKey)
    requires forall i :: 0 <= i < |block| ==> block[i].0 == k
    requires run == Of(block, k) && run != [] && Of(prefix, k) == [] && RunsOf(runs, g) == OneRun(Of(prefix, g))
    ensures RunsOf(runs + [(k, run)], g) == OneRun(Of(prefix + block, g))
  {
    hide Of, RunsOf;
    RunsLast(runs, (k, run), g);
    OfConcat(prefix, block, g);
    OfBlock(block, k, g);
    assert RunsOf(runs, g) + [] == RunsOf(runs, g);
    assert Of(prefix, g) + [] == Of(prefix, g) && [] + run == run;
  }

  lemma NothingCut()
    ensures Cut([], [])
  {
  }

  class Batch {
    var arena: seq<byte>
    var entries: seq<MemEntry>
    var groups: seq<GroupKey>
    var deduplicated: nat
    /** The records the entries stand for, in entry order. */
    ghost var rows: seq<Tagged>

    ghost predicate Valid()
      reads this
    {
      Holds(arena, groups, entries, rows) && DistinctGroups(groups)
    }

    /** Bytes held; measured against the budget. */
    function Held(): nat
      reads this
    {
      |arena| + |entries| * MEM_ENTRY_BYTES
    }

    constructor ()
      ensures Valid() && rows == [] && deduplicated == 0 && Held() == 0
    {
      arena, entries, groups, deduplicated, rows := [], [], [], 0, [];
    }

    /** A group's index, interning it first if it is new; the last entry's group is tried first. */
    method Intern(key: GroupKey) returns (g: nat)
      requires Valid()
      modifies this`groups
      ensures Valid() && g < |groups| && groups[g] == key
      ensures groups == old(groups) + if key in old(groups) then [] else [key]
    {
      hide RowOf, Holds;
      if entries != [] {
        LastGroup();
        g := entries[|entries| - 1].group;
        if groups[g] == key { assert groups == groups + []; return; }
      }
      g := 0;
      while g < |groups| && groups[g] != key
        invariant g <= |groups| && key !in groups[..g]
      {
        g := g + 1;
      }
      if g == |groups| {
        HoldsGrows(arena, [], groups, [key], entries, rows);
        assert arena + [] == arena && groups[..g] == groups;
        groups := groups + [key];
      }
      assert old(groups) == old(groups) + [];
    }

    lemma LastGroup()
      requires Valid() && entries != []
      ensures entries[|entries| - 1].group < |groups|
    {
    }

    /**
     * Copy one verified frame in; the id is the `idLen` bytes at `idOff` of it. The entry keeps the
     * offset in 16 bits, so a larger one wraps: the id of a frame lies behind 24 bytes and its series name.
     */
    method Push(key: GroupKey, ts: u64, idOff: nat, idLen: nat, arrival: (nat, nat), frame: seq<byte>)
      requires Valid() && idOff + idLen <= |frame|
      requires idLen < U16_END && |frame| < U32_END
      modifies this
      ensures Valid() && deduplicated == old(deduplicated)
      ensures rows == old(rows) + [(key, Entry(ts, BatchedId(frame, idOff, idLen), arrival, frame))]
    {
      hide Holds;
      var g := Intern(key);
      var e := MemEntry(ts, arrival, |arena|, |frame| % U32_END, g, idOff % U16_END, idLen % U16_END);
      HoldsGrows(arena, frame, groups, [], entries, rows);
      assert groups + [] == groups;
      arena := arena + frame;
      PushedRow(arena, groups, e, frame);
      HoldsOne(arena, groups, e);
      ghost var row := RowOf(arena, groups, e);
      HoldsConcat(arena, groups, entries, [e], rows, [row]);
      entries, rows := entries + [e], rows + [row];
    }

    static lemma PushedRow(arena: seq<byte>, groups: seq<GroupKey>, e: MemEntry, frame: seq<byte>)
      requires |frame| <= |arena| && arena[|arena| - |frame|..] == frame && e.group < |groups|
      requires e.frame == |arena| - |frame| && e.frameLen == |frame| && e.idOff + e.idLen <= |frame|
      ensures Placed(arena, groups, e)
      ensures RowOf(arena, groups, e)
                == (groups[e.group], Entry(e.ts, frame[e.idOff..e.idOff + e.idLen], e.arrival, frame))
    {
      var tail := arena[e.frame..];
      assert arena[e.frame..e.frame + e.frameLen] == tail;
      assert arena[e.frame + e.idOff..e.frame + e.idOff + e.idLen] == tail[e.idOff..e.idOff + e.idLen];
    }

    static lemma HoldsOne(arena: seq<byte>, groups: seq<GroupKey>, e: MemEntry)
      requires Placed(arena, groups, e)
      ensures Holds(arena, groups, [e], [RowOf(arena, groups, e)])
    {
    }

    /** Sort by `(group, ts, id, arrival)` and keep the first arrival of each `(ts, id)` of a group. */
    method Sort()
      returns (ghost order: seq<Tagged>)
      requires Valid()
      modifies `entries, `rows, `deduplicated
      ensures Valid() && SortedRows(order) && multiset(order) == multiset(old(rows))
      ensures rows == DropRows(order) && |rows| + deduplicated == |old(rows)| + old(deduplicated)
    {
      hide RowOf, Placed, Holds, DropRows, SortedRows;
      var before := |entries|;
      SameLength();
      entries, order := SortEntries(arena, groups, entries, rows);
      entries := DedupEntries(arena, groups, entries, order);
      rows := DropRows(order);
      SameLength();
      assert |order| == |multiset(order)| == |multiset(old(rows))| == |old(rows)|;
      deduplicated := deduplicated + before - |entries|;
    }

    /** Each group's contiguous entries, as a run of records. */
    method GroupRuns() returns (runs: Runs)
      requires Valid() && SortedRows(rows)
      ensures Cut(runs, rows)
    {
      hide RowOf, Placed, Cut, SortedRows;
      runs := [];
      NothingCut();
      var start: nat := 0;
      assert rows[..0] == [];
      while start < |entries|
        invariant start <= |entries| && Cut(runs, rows[..start])
        invariant 0 < start < |entries| ==> rows[start].0 != rows[start - 1].0
      {
        var end, run := RunFrom(start);
        CutBlock(runs, rows, start, end, run);
        runs, start := runs + [(groups[entries[start].group], run)], end;
      }
      assert rows[..start] == rows;
    }

    /** The longest block of entries from `start` that share its group. */
    method RunFrom(start: nat) returns (end: nat, run: seq<Entry>)
      requires Valid() && start < |entries|
      ensures start < end <= |entries| && entries[start].group < |groups|
      ensures rows[start].0 == groups[entries[start].group]
      ensures forall i :: start <= i < end ==> rows[i].0 == rows[start].0
      ensures end < |rows| ==> rows[end].0 != rows[end - 1].0
      ensures |run| == end - start && forall i :: 0 <= i < |run| ==> run[i] == rows[start + i].1
    {
      hide RowOf, DistinctGroups;
      end, run := start, [];
      while end < |entries| && entries[end].group == entries[start].group
        invariant start <= end <= |entries| && |run| == end - start
        invariant forall i :: start <= i < end ==> rows[i].0 == rows[start].0
        invariant forall i :: 0 <= i < |run| ==> run[i] == rows[start + i].1
      {
        SameEntryIsSameRow(arena, groups, entries[start], entries[end]);
        run, end := run + [RowOf(arena, groups, entries[end]).1], end + 1;
      }
      if end < |entries| { SameEntryIsSameRow(arena, groups, entries[start], entries[end]); }
      StartGroup(start);
    }

    lemma StartGroup(i: nat)
      requires Valid() && i < |entries|
      ensures entries[i].group < |groups| && rows[i].0 == groups[entries[i].group]
    {
    }

    /** Sort and hand out one run per group; the batch keeps its records. */
    method IntoSources() returns (runs: Runs, ghost order: seq<Tagged>)
      requires Valid()
      modifies `entries, `rows, `deduplicated
      ensures Valid() && SortedRows(order) && multiset(order) == multiset(old(rows))
      ensures Cut(runs, DropRows(order))
      ensures Size(runs) + deduplicated == |old(rows)| + old(deduplicated)
    {
      hide RowOf, Placed, Holds, DropRows, SortedRows, RunsOf;
      order := Sort();
      DropRowsSorted(order);
      runs := GroupRuns();
    }

    /** Sort, write one run file per group, and clear the batch. */
    method Spill() returns (files: RunFiles, ghost runs: Runs, ghost order: seq<Tagged>)
      requires Valid()
      modifies this
      ensures Valid() && rows == [] && Held() == 0
      ensures SortedRows(order) && multiset(order) == multiset(old(rows)) && Cut(runs, DropRows(order))
      ensures Written(files, runs)
      ensures Size(runs) + deduplicated == |old(rows)| + old(deduplicated)
    {
      var sources;
      sources, order := IntoSources();
      runs := sources;
      files := WriteRuns(sources);
      arena, entries, groups, rows := [], [], [], [];
    }

    lemma SameLength()
      requires Valid()
      ensures |entries| == |rows|
    {
    }
  }
}
