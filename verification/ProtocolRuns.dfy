/** What holds in every state of every run of the protocol. */
module ProtocolRuns {
  import opened Ledger
  import opened Commit
  import opened Protocol
  import opened ProtocolSafety

  /** A run from the empty directory: every step was possible where it was taken. */
  ghost predicate Run(states: seq<State>, steps: seq<Step>) {
    Path(states, steps) && states[0] == INIT
  }

  ghost predicate AllCareful(states: seq<State>, steps: seq<Step>)
    requires |states| == |steps| + 1
  {
    forall i :: 0 <= i < |steps| ==> Careful(states[i], steps[i])
  }

  lemma {:induction false} RunKeeps(states: seq<State>, steps: seq<Step>, n: nat)
    requires Run(states, steps) && AllCareful(states, steps) && n <= |steps|
    ensures Inv(states[n])
  {
    hide Inv, Enabled, Apply, Careful;
    if n == 0 {
      InitOk();
    } else {
      RunKeeps(states, steps, n - 1);
      assert Careful(states[n - 1], steps[n - 1]);
      StepKeeps(states[n - 1], steps[n - 1]);
    }
  }

  // ---- exactly once -------------------------------------------------------------------

  /** Where on disk a record can lie, or which count it went to. */
  datatype Spot = Live(id: nat) | Aside(id: nat) | File(key: Key, home: Home) | Rejected | Skipped | Duplicate
      | Replaced

  function Content(st: Store, k: Key, h: Home): set<Rec>
    requires HomeAt(st, k, h)
  {
    match h
    case InTmp => st.tmp[k]
    case InSeries => st.published[k]
    case Exported(i) => st.exported[i].1
  }

  /** A file counts once the manifest on disk covers it, or once it has been taken away. */
  predicate Lies(s: State, r: Rec, spot: Spot) {
    match spot
    case Live(id) => id in s.log.wal && id > s.log.watermark && r in Recs(s.log.wal[id])
    case Aside(id) => id in s.log.quarantined && r in Recs(s.log.quarantined[id])
    case File(k, h) => HomeAt(s.store, k, h) && (h.Exported? || k.last <= s.log.watermark)
      && r in Content(s.store, k, h)
    case Rejected => r in s.log.done.rejected
    case Skipped => r in s.log.done.skipped
    case Duplicate => r in s.log.done.duplicates
    case Replaced => r in s.log.overwritten
  }

  function PlaceOf(spot: Spot): Place {
    match spot
    case Live(id) => InWal(id)
    case Aside(id) => InQuarantine(id)
    case File(k, _) => InFile(k)
    case Rejected => AsRejected
    case Skipped => AsSkipped
    case Duplicate => AsDuplicate
    case Replaced => AsOverwritten
  }

  lemma SpotIsPlace(s: State, r: Rec, spot: Spot)
    requires FilesOk(s.log, s.store) && Lies(s, r, spot)
    ensures At(s.log, r, PlaceOf(spot))
    ensures spot.File? ==> spot.key in s.log.done.files
  {
  }

  lemma PlaceHasSpot(s: State, r: Rec, p: Place) returns (spot: Spot)
    requires FilesOk(s.log, s.store) && Covered(s.log) && At(s.log, r, p)
    ensures Lies(s, r, spot) && PlaceOf(spot) == p
  {
    match p
    case InWal(id) => spot := Live(id);
    case InQuarantine(id) => spot := Aside(id);
    case InFile(k) => { var h :| HomeAt(s.store, k, h); spot := File(k, h); }
    case AsRejected => spot := Rejected;
    case AsSkipped => spot := Skipped;
    case AsDuplicate => spot := Duplicate;
    case AsOverwritten => spot := Replaced;
  }

  lemma AtMostOneSpot(s: State, r: Rec, a: Spot, b: Spot)
    requires Inv(s) && Lies(s, r, a) && Lies(s, r, b)
    ensures a == b
  {
    hide MemOk, Lies, At;
    SpotIsPlace(s, r, a);
    SpotIsPlace(s, r, b);
    SpotHome(s, r, a);
    SpotHome(s, r, b);
  }

  lemma SpotHome(s: State, r: Rec, a: Spot)
    requires Lies(s, r, a)
    ensures a.File? ==> HomeAt(s.store, a.key, a.home)
  {
  }

  /** The central claim: every record that was ever durable is in exactly one spot, in every state of every run. */
  lemma ExactlyOnce(states: seq<State>, steps: seq<Step>, n: nat, r: Rec) returns (spot: Spot)
    requires Run(states, steps) && AllCareful(states, steps) && n <= |steps| && r in states[n].log.durable
    ensures Lies(states[n], r, spot)
    ensures forall other :: Lies(states[n], r, other) ==> other == spot
  {
    hide MemOk, Lies, At, Enabled, Apply;
    RunKeeps(states, steps, n);
    var s := states[n];
    var p :| At(s.log, r, p);
    spot := PlaceHasSpot(s, r, p);
    forall other | Lies(s, r, other) ensures other == spot { AtMostOneSpot(s, r, other, spot); }
  }

  /** No record, durable or not, is ever in two spots. */
  lemma NeverTwice(states: seq<State>, steps: seq<Step>, n: nat, r: Rec, a: Spot, b: Spot)
    requires Run(states, steps) && AllCareful(states, steps) && n <= |steps|
    requires Lies(states[n], r, a) && Lies(states[n], r, b)
    ensures a == b
  {
    hide Inv, Lies, Enabled, Apply;
    RunKeeps(states, steps, n);
    AtMostOneSpot(states[n], r, a, b);
  }

  /**
   * What is counted instead of kept has its reason: a schema mismatch, a damaged record at or before it
   * in its own segment, or a committed record of the same key.
   */
  lemma CountedForAReason(states: seq<State>, steps: seq<Step>, n: nat, r: Rec)
    requires Run(states, steps) && AllCareful(states, steps) && n <= |steps|
    ensures Lies(states[n], r, Rejected) ==> !r.accepted
    ensures Lies(states[n], r, Skipped) ==>
              exists w: Rec :: w in states[n].log.damaged && w.born == r.born && w.serial <= r.serial
    ensures Lies(states[n], r, Duplicate) ==>
              exists w: Rec, k, h :: w.key == r.key && w != r && Lies(states[n], w, File(k, h))
  {
    hide MemOk, Enabled, Apply;
    RunKeeps(states, steps, n);
    var s := states[n];
    if Lies(s, r, Duplicate) {
      var k, w :| k in s.log.done.files && w in s.log.done.files[k] && w.key == r.key && w != r;
      var spot := PlaceHasSpot(s, w, InFile(k));
      assert Lies(s, w, File(spot.key, spot.home));
    }
  }

  /** A segment none of whose records was damaged has none skipped. */
  lemma CleanSegmentSkipsNothing(states: seq<State>, steps: seq<Step>, n: nat, born: nat, r: Rec)
    requires Run(states, steps) && AllCareful(states, steps) && n <= |steps|
    requires forall w :: w in states[n].log.damaged ==> w.born != born
    requires Lies(states[n], r, Skipped)
    ensures r.born != born
  {
    hide Enabled, Apply, Lies;
    CountedForAReason(states, steps, n, r);
  }

  /** Records of one birth number were written to one segment, and lie in it in the order of their serials. */
  lemma BornTogether(states: seq<State>, steps: seq<Step>, n: nat, i: nat, j: nat, r: Rec, w: Rec)
    requires Run(states, steps) && AllCareful(states, steps) && n <= |steps|
    requires i in states[n].log.wal && r in Recs(states[n].log.wal[i])
    requires j in states[n].log.wal && w in Recs(states[n].log.wal[j])
    ensures r.born == w.born <==> i == j
    ensures i == j && r.serial == w.serial ==> r == w
  {
    hide MemOk, FilesOk, Once, Kept, Settled, Fresh, SegmentsOk, Justified, Enabled, Apply;
    RunKeeps(states, steps, n);
    var g := states[n].log;
    assert InOrder(g.wal[i]) && InOrder(g.wal[j]);
    if i == j {
      var a :| 0 <= a < |Recs(g.wal[i])| && Recs(g.wal[i])[a] == r;
      var b :| 0 <= b < |Recs(g.wal[i])| && Recs(g.wal[i])[b] == w;
    }
  }

  // ---- commits, names and deletions ---------------------------------------------------------

  /** No manifest write is ever reported failed while the process goes on without it. */
  predicate NoLostCommit(steps: seq<Step>) { forall i :: 0 <= i < |steps| ==> steps[i] != CommitError(false) }

  /** The process's watermark is the one on disk, and `series/` holds only what it covers. */
  predicate Calm(s: State) {
    && (s.mem.Up? ==> s.mem.watermark == s.log.watermark)
    && forall k :: k in s.store.published ==> k.last <= s.log.watermark
  }

  lemma CalmStep(s: State, step: Step)
    requires Inv(s) && Calm(s) && Enabled(s, step) && step != CommitError(false)
    ensures Calm(Apply(s, step))
  {
    hide Inv, Enabled, Apply;
    CalmMark(s, step);
    CalmFiles(s, step);
  }

  lemma CalmMark(s: State, step: Step)
    requires Inv(s) && Calm(s) && Enabled(s, step) && step != CommitError(false)
    ensures Apply(s, step).mem.Up? ==> Apply(s, step).mem.watermark == Apply(s, step).log.watermark
  {
    hide Inv, PlanFor, PlanOf, CleanTail, Recs, Least, Greatest, IsNext, Swept, Join, FirstBad, Set;
  }

  lemma CalmFiles(s: State, step: Step)
    requires Inv(s) && Calm(s) && Enabled(s, step) && step != CommitError(false)
    ensures forall k :: k in Apply(s, step).store.published ==> k.last <= Apply(s, step).log.watermark
  {
    hide Inv, Enabled, Apply;
    MarkRises(s, step);
    if !step.SweepFile? && !step.PromoteFile? {
      NothingPublished(s, step);
    } else {
      OnePublished(s, step);
    }
  }

  lemma MarkRises(s: State, step: Step)
    requires Inv(s) && Enabled(s, step)
    ensures s.log.watermark <= Apply(s, step).log.watermark
  {
    hide Good, FilesOk, PlanFor, LimboOk, ListOk, PlanOf, CleanTail, Recs, Least, Greatest, IsNext, Join, FirstBad, Set;
  }

  lemma NothingPublished(s: State, step: Step)
    requires Enabled(s, step) && !step.SweepFile? && !step.PromoteFile?
    ensures forall k :: k in Apply(s, step).store.published ==> k in s.store.published
  {
    hide PlanFor, PlanOf, CleanTail, Recs, Least, Greatest, IsNext, Swept, Join, FirstBad, Set;
  }

  /** A file is published only when the watermark covers it. */
  lemma OnePublished(s: State, step: Step)
    requires Inv(s) && Calm(s) && Enabled(s, step) && (step.SweepFile? || step.PromoteFile?)
    ensures Apply(s, step).log == s.log
    ensures forall k :: k in Apply(s, step).store.published ==> k in s.store.published || k.last <= s.log.watermark
  {
    hide Good, FilesOk, PlanFor, LimboOk, ListOk, PlanOf, CleanTail, Recs, Least, Greatest, IsNext, Join, FirstBad, Set;
  }

  lemma {:induction false} CalmRun(states: seq<State>, steps: seq<Step>, n: nat)
    requires Run(states, steps) && NoLostCommit(steps) && n <= |steps|
    ensures Inv(states[n]) && Calm(states[n])
  {
    hide Inv, Enabled, Apply;
    if n == 0 {
      InitOk();
    } else {
      CalmRun(states, steps, n - 1);
      assert Enabled(states[n - 1], steps[n - 1]) && steps[n - 1] != CommitError(false);
      CalmStep(states[n - 1], steps[n - 1]);
      CalmExport(states[n - 1], steps[n - 1]);
      StepKeeps(states[n - 1], steps[n - 1]);
    }
  }

  lemma CalmExport(s: State, step: Step)
    requires Calm(s) && Enabled(s, step)
    ensures Careful(s, step)
  {
  }

  /**
   * With a failed manifest write treated as a crash, the outside agent may take any published file at
   * any time: each one is covered by the manifest on disk and is exactly what was committed under its name.
   */
  lemma PublishedIsCommitted(states: seq<State>, steps: seq<Step>, n: nat, k: Key)
    requires Run(states, steps) && NoLostCommit(steps) && n <= |steps| && k in states[n].store.published
    ensures AllCareful(states, steps)
    ensures k.last <= states[n].log.watermark
    ensures k in states[n].log.done.files && states[n].store.published[k] == states[n].log.done.files[k]
  {
    hide Good, MemOk, Enabled, Apply, OneHome;
    CalmRun(states, steps, n);
    forall i | 0 <= i < |steps| ensures Careful(states[i], steps[i]) {
      CalmRun(states, steps, i);
      CalmExport(states[i], steps[i]);
    }
  }

  /**
   * What a sweep or a promotion publishes is what a commit named, never the leftovers of an attempt that did
   * not commit.
   */
  lemma PromotesOnlyCommitted(states: seq<State>, steps: seq<Step>, n: nat, k: Key)
    requires Run(states, steps) && NoLostCommit(steps) && n < |steps|
    requires k in states[n + 1].store.published && k !in states[n].store.published
    ensures k in states[n].store.tmp && k in states[n].log.done.files
    ensures states[n + 1].store.published[k] == states[n].log.done.files[k] == states[n].store.tmp[k]
  {
    hide Good, MemOk, OneHome, PlanFor, CrashOf, PlanOf;
    CalmRun(states, steps, n);
    CalmRun(states, steps, n + 1);
    PublishedFromTmp(states[n], steps[n], k);
  }

  lemma PublishedFromTmp(s: State, step: Step, k: Key)
    requires Enabled(s, step) && k in Apply(s, step).store.published && k !in s.store.published
    ensures k in s.store.tmp && Apply(s, step).store.published[k] == s.store.tmp[k]
    ensures Apply(s, step).log == s.log
  {
    hide PlanFor, CrashOf, PlanOf, Recs, Moved, Swept, IsNext;
    if !step.SweepFile? && !step.PromoteFile? { OthersPublishNothing(s, step); }
  }

  lemma OthersPublishNothing(s: State, step: Step)
    requires Enabled(s, step) && !step.SweepFile? && !step.PromoteFile?
    ensures Apply(s, step).store.published.Keys <= s.store.published.Keys
  {
    hide PlanFor, CrashOf, PlanOf, Recs, Moved, Swept, IsNext;
  }

  /** No commit reuses an output name, whatever was flushed, lost or retried before it. */
  lemma NamesAreNew(states: seq<State>, steps: seq<Step>, n: nat, k: Key)
    requires Run(states, steps) && AllCareful(states, steps) && n < |steps|
    requires (steps[n].CommitOk? || steps[n] == CommitError(true)) && k in states[n].mem.phase.plan.files
    ensures k !in states[n].log.done.files && k in states[n + 1].log.done.files
    ensures forall i :: 0 <= i < |states[n].store.exported| ==> states[n].store.exported[i].0 != k
    ensures k !in states[n].store.published
  {
    hide Good, OneHome, Justified, PlanOnce, Resolved, Between;
    RunKeeps(states, steps, n);
    FloorAbove(states[n]);
    assert Enabled(states[n], steps[n]) && states[n + 1] == Apply(states[n], steps[n]);
    NamesStaged(states[n]);
  }

  /**
   * A segment leaves `wal/` by deletion only when a flush read it and commits resolved each of its records, or
   * it held none.
   */
  lemma DeletesOnlySettled(states: seq<State>, steps: seq<Step>, n: nat, id: nat)
    requires Run(states, steps) && AllCareful(states, steps) && n < |steps| && id in states[n].log.wal
    requires id !in states[n + 1].log.wal && !steps[n].SetAside? && !steps[n].AmendQuarantine?
    ensures var seg := states[n].log.wal[id];
            Recs(seg) == [] || (seg.read.Took? && forall r :: r in Recs(seg) ==> Resolved(states[n].log.done, r))
  {
    hide FilesOk, PlanFor, CrashOf, PlanOf, Once, Kept, Fresh, Justified, Covered, Resolved;
    RunKeeps(states, steps, n);
    assert Enabled(states[n], steps[n]) && states[n + 1] == Apply(states[n], steps[n]);
    DeletedSegment(states[n], steps[n], id);
  }

  lemma DeletedSegment(s: State, step: Step, id: nat)
    requires MemOk(s) && Enabled(s, step) && id in s.log.wal && id !in Apply(s, step).log.wal
    requires !step.SetAside? && !step.AmendQuarantine?
    ensures id <= s.log.watermark || s.log.wal[id].header.Short?
  {
    hide MemOk, Enabled, Apply;
    DeletingStep(s, step, id);
    DeletedWhenCovered(s, step, id);
  }

  lemma DeletingStep(s: State, step: Step, id: nat)
    requires Enabled(s, step) && id in s.log.wal && id !in Apply(s, step).log.wal
    ensures step in {Unlink(id), Prune(id), AmendDrop(id), SetAside(id), AmendQuarantine(id)}
  {
    hide PlanFor, PlanOf, Recs, CleanTail, Swept, Least, IsNext, Join, FirstBad, Set;
  }

  lemma DeletedWhenCovered(s: State, step: Step, id: nat)
    requires MemOk(s) && Enabled(s, step) && id in s.log.wal && step in {Unlink(id), Prune(id), AmendDrop(id)}
    ensures id <= s.log.watermark || s.log.wal[id].header.Short?
  {
    hide PlanFor, PlanOf, Recs, CleanTail, Swept, Least, IsNext, Join, FirstBad, Set;
  }

  /** The watermark never passes a segment still in `wal/` that no flush has read. */
  lemma WatermarkPassesOnlyRead(states: seq<State>, steps: seq<Step>, n: nat, id: nat)
    requires Run(states, steps) && AllCareful(states, steps) && n <= |steps|
    requires id in states[n].log.wal && id <= states[n].log.watermark
    ensures states[n].log.wal[id].read.Took?
  {
    hide MemOk, FilesOk, Once, Kept, Fresh, Enabled, Apply;
    RunKeeps(states, steps, n);
  }

  /** A new segment's id is above the watermark and everything in `wal/`, so `create_new` never meets an old file. */
  lemma IdsAreNew(states: seq<State>, steps: seq<Step>, n: nat)
    requires Run(states, steps) && AllCareful(states, steps) && n <= |steps|
    ensures var g, m := states[n].log, states[n].mem;
            && (m.Up? ==> m.active + 1 > g.watermark && forall id :: id in g.wal ==> id < m.active + 1)
            && (m.Opening? ==> m.next > g.watermark && forall id :: id in g.wal ==> id < m.next)
  {
    hide Good, FilesOk, LimboOk, PhaseOk, Enabled, Apply;
    RunKeeps(states, steps, n);
  }
}
