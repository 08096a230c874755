/** Every step of the protocol keeps the invariant. */
module ProtocolSafety {
  import opened Ledger
  import opened Commit
  import opened Protocol

  lemma FilesFrame(g: Log, h: Log, st: Store)
    requires FilesOk(g, st) && h.watermark == g.watermark && h.done.files == g.done.files
    ensures FilesOk(h, st)
  {
  }

  /** Nothing the plans speak of changed: segments up to `b` are as they were. */
  ghost predicate SameUpTo(g: Log, h: Log, b: int) {
    && h.watermark == g.watermark && h.done == g.done && g.damaged <= h.damaged
    && (forall id :: id <= b ==> (id in h.wal <==> id in g.wal))
    && (forall id :: id <= b && id in g.wal ==> Recs(h.wal[id]) == Recs(g.wal[id]) && h.wal[id].read == g.wal[id].read)
  }

  lemma PlanStable(g: Log, h: Log, p: Plan, lo: nat, hi: nat)
    requires PlanFor(g, p, lo, hi) && SameUpTo(g, h, hi)
    ensures PlanFor(h, p, lo, hi)
  {
    hide PlanAt, Recs, HasTwin, Resolved, PlanOnce, Behind;
    forall r | r in p.skipped ensures Behind(h.damaged, r) { BehindMore(g.damaged, h.damaged, r); }
    forall r ensures Between(h, r, lo, hi) <==> Between(g, r, lo, hi) {
      if Between(g, r, lo, hi) {
        var id :| id in g.wal && lo < id <= hi && r in Recs(g.wal[id]);
        assert id in h.wal && r in Recs(h.wal[id]);
      }
      if Between(h, r, lo, hi) {
        var id :| id in h.wal && lo < id <= hi && r in Recs(h.wal[id]);
        assert id in g.wal && r in Recs(g.wal[id]);
      }
    }
  }

  lemma LimboStable(g: Log, h: Log, st: Store, m: Mem)
    requires m.Up? && LimboOk(g, st, m) && SameUpTo(g, h, m.watermark)
    ensures LimboOk(h, st, m)
  {
    hide PlanFor;
    PlanStable(g, h, m.limbo, g.watermark, m.watermark);
  }

  /** `wal/` still has what the flush may be working on, and anything new is the active segment or later. */
  ghost predicate OnlyGrew(g: Log, h: Log, m: Mem)
    requires m.Up?
  {
    && SameUpTo(g, h, m.active - 1) && m.active in g.wal && m.active in h.wal
    && forall id :: id in h.wal ==> id in g.wal || id > m.active
  }

  lemma PhaseStable(g: Log, h: Log, st: Store, m: Mem, n: Mem)
    requires m.Up? && n.Up? && n == m.(active := n.active) && n.active >= m.active
    requires HeadOk(g, m) && PhaseOk(g, st, m) && OnlyGrew(g, h, m)
    ensures PhaseOk(h, st, n)
  {
    hide PlanFor, Recs;
    match m.phase
    case Staging(ids, last, plan, staged) => PlanStable(g, h, plan, m.watermark, last);
    case _ =>
  }

  lemma SameUpToLess(g: Log, h: Log, a: int, b: int)
    requires SameUpTo(g, h, a) && b <= a
    ensures SameUpTo(g, h, b)
  {
  }

  /** The writer and storage damage, at any moment: only the log changes, and only where no plan looks. */
  lemma LogStep(s: State, h: Log, n: Mem)
    requires Inv(s) && s.mem.Up? && n.Up? && n == s.mem.(active := n.active) && n.active >= s.mem.active
    requires Good(h) && OnlyGrew(s.log, h, s.mem) && HeadOk(h, n)
    ensures Inv(s.(log := h, mem := n))
  {
    hide Good, FilesOk, HeadOk, LimboOk, PhaseOk, OnlyGrew;
    assert SameUpTo(s.log, h, s.mem.active - 1) && s.mem.watermark < s.mem.active by { HeadAbove(s.log, h, s.mem); }
    SameUpToLess(s.log, h, s.mem.active - 1, s.mem.watermark);
    FilesFrame(s.log, h, s.store);
    LimboStable(s.log, h, s.store, s.mem);
    LimboIgnoresActive(h, s.store, s.mem, n);
    PhaseStable(s.log, h, s.store, s.mem, n);
  }

  lemma HeadAbove(g: Log, h: Log, m: Mem)
    requires m.Up? && HeadOk(g, m) && OnlyGrew(g, h, m)
    ensures m.watermark < m.active && SameUpTo(g, h, m.active - 1)
  {
  }

  lemma LimboIgnoresActive(g: Log, st: Store, m: Mem, n: Mem)
    requires m.Up? && n.Up? && n == m.(active := n.active) && LimboOk(g, st, m)
    ensures LimboOk(g, st, n)
  {
  }

  lemma AppendStep(s: State, r: Rec)
    requires Inv(s) && Enabled(s, Append(r))
    ensures Inv(Apply(s, Append(r)))
  {
    hide Good, FilesOk, LimboOk, PhaseOk;
    AppendKeeps(s.log, s.mem.active, r);
    LogStep(s, AppendRec(s.log, s.mem.active, r), s.mem);
  }

  lemma SyncStep(s: State, upto: nat)
    requires Inv(s) && Enabled(s, Sync(upto))
    ensures Inv(Apply(s, Sync(upto)))
  {
    hide Good, FilesOk, LimboOk, PhaseOk;
    SyncUpToKeeps(s.log, s.mem.active, upto);
    LogStep(s, SyncUpTo(s.log, s.mem.active, upto), s.mem);
  }

  lemma RollStep(s: State)
    requires Inv(s) && Enabled(s, Roll)
    ensures Inv(Apply(s, Roll))
  {
    hide Good, FilesOk, LimboOk, PhaseOk;
    var m := s.mem;
    var g := SyncSegment(s.log, m.active);
    SyncKeeps(s.log, m.active);
    CreateKeeps(g, m.active + 1, Sound);
    LogStep(s, CreateSegment(g, m.active + 1, Sound), m.(active := m.active + 1));
  }

  lemma HarmStep(s: State, step: Step)
    requires Inv(s) && (step.HarmHeader? || step.HarmRec?) && Enabled(s, step)
    ensures Inv(Apply(s, step))
  {
    hide Good, FilesOk, LimboOk, PhaseOk;
    if step.HarmHeader? {
      DamageHeaderKeeps(s.log, step.id, step.header);
    } else {
      DamageRecKeeps(s.log, step.rec);
    }
    var h := Apply(s, step).log;
    if s.mem.Up? { LogStep(s, h, s.mem); } else { FilesFrame(s.log, h, s.store); }
  }

  // ---- files move -----------------------------------------------------------------

  lemma PromoteFiles(g: Log, st: Store, k: Key)
    requires FilesOk(g, st) && k in st.tmp && k !in st.published
    ensures FilesOk(g, Promote(st, k))
  {
    var t := Promote(st, k);
    forall x | x in g.done.files ensures exists h :: HomeAt(t, x, h) {
      var h :| HomeAt(st, x, h);
      assert HomeAt(t, x, if x == k then InSeries else h);
    }
    assert forall x, h :: HomeAt(t, x, h) ==>
      (x == k && h == InSeries) || (x == k && h.Exported? && HomeAt(st, x, h)) || (x != k && HomeAt(st, x, h));
    assert HomeAt(st, k, InTmp);
  }

  /** Dropping or rewriting a file no commit covers touches no committed one. */
  lemma UncoveredFiles(g: Log, st: Store, t: Store, k: Key)
    requires FilesOk(g, st) && Covered(g) && k.last > g.watermark
    requires t.exported == st.exported
    requires forall x :: x != k ==> (x in t.tmp <==> x in st.tmp) && (x in t.published <==> x in st.published)
    requires forall x :: x != k && x in t.tmp ==> t.tmp[x] == st.tmp[x]
    requires forall x :: x != k && x in t.published ==> t.published[x] == st.published[x]
    ensures FilesOk(g, t)
  {
    assert k !in g.done.files;
    forall x | x in g.done.files ensures exists h :: HomeAt(t, x, h) {
      var h :| HomeAt(st, x, h);
      assert HomeAt(t, x, h);
    }
    assert forall x, h :: x != k && HomeAt(t, x, h) ==> HomeAt(st, x, h);
  }

  lemma ExportFiles(g: Log, st: Store, k: Key)
    requires FilesOk(g, st) && k in st.published && k.last <= g.watermark
    ensures FilesOk(g, st.(published := st.published - {k}, exported := st.exported + [(k, st.published[k])]))
  {
    hide OneHome;
    ExportHomes(g.done.files.Keys, st, k);
  }

  lemma ExportHomes(names: set<Key>, st: Store, k: Key)
    requires OneHome(names, st) && k in st.published && k in names
    ensures OneHome(names, st.(published := st.published - {k}, exported := st.exported + [(k, st.published[k])]))
  {
    var t := st.(published := st.published - {k}, exported := st.exported + [(k, st.published[k])]);
    forall x | x in names ensures exists h :: HomeAt(t, x, h) {
      var h :| HomeAt(st, x, h);
      assert HomeAt(t, x, if x == k && h == InSeries then Exported(|st.exported|) else h);
    }
    assert HomeAt(st, k, InSeries);
    assert forall x, h :: HomeAt(t, x, h) ==>
      (x == k && h == Exported(|st.exported|)) || (HomeAt(st, x, h) && !(x == k && h == InSeries));
  }

  /** A covered staged file is not in `series/` as well. */
  lemma StagedOnce(s: State, k: Key)
    requires Inv(s) && k in s.store.tmp && k.last <= Floor(s)
    ensures k !in s.store.published
  {
    hide Good, PlanFor;
    assert HomeAt(s.store, k, InTmp);
    assert k in s.store.published ==> HomeAt(s.store, k, InSeries);
  }

  lemma PromoteLimbo(g: Log, st: Store, m: Mem, k: Key)
    requires m.Up? && LimboOk(g, st, m) && k in st.tmp && k.last <= m.watermark
    ensures LimboOk(g, Promote(st, k), m)
  {
    hide PlanFor;
  }

  lemma DropLimbo(g: Log, st: Store, m: Mem, k: Key)
    requires m.Up? && LimboOk(g, st, m) && k.last > m.watermark
    ensures LimboOk(g, st.(tmp := st.tmp - {k}), m)
  {
    hide Justified, Between, PlanOnce, Resolved;
  }

  lemma WriteLimbo(g: Log, st: Store, m: Mem, k: Key, content: set<Rec>)
    requires m.Up? && LimboOk(g, st, m) && k.last > m.watermark
    ensures LimboOk(g, st.(tmp := st.tmp[k := content]), m)
  {
    hide Justified, Between, PlanOnce, Resolved;
  }

  lemma ExportLimbo(g: Log, st: Store, t: Store, m: Mem, k: Key)
    requires m.Up? && LimboOk(g, st, m) && k.last <= g.watermark
    requires t.tmp == st.tmp && t.published == st.published - {k}
    ensures LimboOk(g, t, m)
  {
    hide Justified, Between, PlanOnce, Resolved;
  }

  lemma SweepFileStep(s: State, k: Key)
    requires Inv(s) && Enabled(s, SweepFile(k))
    ensures Inv(Apply(s, SweepFile(k)))
  {
    hide Good, FilesOk, LimboOk;
    var st := s.store;
    if k.last <= Floor(s) {
      StagedOnce(s, k);
      PromoteFiles(s.log, st, k);
      if s.mem.Up? { PromoteLimbo(s.log, st, s.mem, k); }
    } else {
      FloorAbove(s);
      UncoveredFiles(s.log, st, st.(tmp := st.tmp - {k}), k);
      if s.mem.Up? { DropLimbo(s.log, st, s.mem, k); }
    }
  }

  lemma FloorAbove(s: State)
    requires Inv(s)
    ensures Floor(s) >= s.log.watermark && Covered(s.log)
  {
  }

  lemma SweepOrphanStep(s: State, k: Key)
    requires Inv(s) && Enabled(s, SweepOrphan(k))
    ensures Inv(Apply(s, SweepOrphan(k)))
  {
    hide Good, FilesOk;
    FloorAbove(s);
    UncoveredFiles(s.log, s.store, s.store.(published := s.store.published - {k}), k);
  }

  lemma ExportStep(s: State, k: Key)
    requires Inv(s) && Enabled(s, Export(k)) && k.last <= s.log.watermark
    ensures Inv(Apply(s, Export(k)))
  {
    hide Good, FilesOk, LimboOk;
    ExportFiles(s.log, s.store, k);
    if s.mem.Up? { ExportLimbo(s.log, s.store, Apply(s, Export(k)).store, s.mem, k); }
  }

  // ---- the flush, up to its plan -----------------------------------------------------

  /** Steps that only move the flush along. */
  lemma PhaseStep(s: State, n: Mem)
    requires Inv(s) && s.mem.Up? && n.Up? && n == s.mem.(phase := n.phase, failed := n.failed)
    requires PhaseOk(s.log, s.store, n)
    ensures Inv(s.(mem := n))
  {
    hide Good, FilesOk, PlanFor, PhaseOk;
  }

  lemma ListStep(s: State)
    requires Inv(s) && Enabled(s, List)
    ensures Inv(Apply(s, List))
  {
    hide Good, FilesOk, LimboOk;
    PhaseStep(s, Apply(s, List).mem);
  }

  lemma SelectStep(s: State)
    requires Inv(s) && Enabled(s, Select)
    ensures Inv(Apply(s, Select))
  {
    hide Good, FilesOk, LimboOk;
    PhaseStep(s, Apply(s, Select).mem);
  }

  lemma SweepDoneStep(s: State)
    requires Inv(s) && Enabled(s, SweepDone)
    ensures Inv(Apply(s, SweepDone))
  {
    hide Good, FilesOk, LimboOk;
    PhaseStep(s, Apply(s, SweepDone).mem);
  }

  lemma DecodeStep(s: State, id: nat)
    requires Inv(s) && Enabled(s, Decode(id))
    ensures Inv(Apply(s, Decode(id)))
  {
    hide Good, FilesOk, LimboOk, HeadOk, PhaseOk, PlanFor, FirstBad;
    var h := MarkRead(s.log, id);
    MarkReadKeeps(s.log, id);
    DecodePhase(s, id);
    FilesFrame(s.log, h, s.store);
    LimboStable(s.log, h, s.store, s.mem);
    LimboIgnoresPhase(h, s.store, s.mem, Apply(s, Decode(id)).mem);
  }

  lemma DecodePhase(s: State, id: nat)
    requires MemOk(s) && Enabled(s, Decode(id))
    ensures SameUpTo(s.log, MarkRead(s.log, id), s.mem.watermark)
    ensures var t := Apply(s, Decode(id)); HeadOk(t.log, t.mem) && PhaseOk(t.log, t.store, t.mem)
  {
    hide LimboOk, PlanFor, FirstBad;
    FirstBadIs(Recs(s.log.wal[id]), s.log.damaged);
    assert Recs(MarkRead(s.log, id).wal[id]) == Recs(s.log.wal[id]);
  }

  lemma LimboIgnoresPhase(g: Log, st: Store, m: Mem, n: Mem)
    requires m.Up? && n.Up? && n == m.(phase := n.phase, failed := n.failed) && LimboOk(g, st, m)
    ensures LimboOk(g, st, n)
  {
  }

  lemma SetAsideStep(s: State, id: nat)
    requires Inv(s) && Enabled(s, SetAside(id))
    ensures Inv(Apply(s, SetAside(id)))
  {
    hide Good, FilesOk, LimboOk, Recs;
    var h := QuarantineSegment(s.log, id);
    QuarantineKeeps(s.log, id);
    FilesFrame(s.log, h, s.store);
    LimboStable(s.log, h, s.store, s.mem);
    LimboIgnoresPhase(h, s.store, s.mem, Apply(s, SetAside(id)).mem);
  }

  lemma StopStep(s: State, id: nat)
    requires Inv(s) && Enabled(s, StopAt(id))
    ensures Inv(Apply(s, StopAt(id)))
  {
    hide Good, FilesOk, LimboOk;
    PhaseStep(s, Apply(s, StopAt(id)).mem);
  }

  lemma EndStep(s: State, step: Step)
    requires Inv(s) && (step.NothingToDo? || step.FlushDone? || step.Fail? || step.PromoteDone?) && Enabled(s, step)
    ensures Inv(Apply(s, step))
  {
    hide Good, FilesOk, LimboOk;
    PhaseStep(s, Apply(s, step).mem);
  }

  /** The consumed segments are all of `wal/` from the watermark to the last of them, so nothing is passed over. */
  lemma NothingPassedOver(g: Log, m: Mem, st: Store, last: nat)
    requires m.Up? && m.phase.Decoding? && m.phase.remaining == {}
    requires PhaseOk(g, st, m) && Greatest(m.phase.consumed, last)
    ensures forall id :: id in g.wal && m.watermark < id <= last <==> id in m.phase.consumed
  {
  }

  lemma PlanCovers(g: Log, m: Mem, st: Store, first: nat, last: nat, p: Plan)
    requires m.Up? && m.phase.Decoding? && m.phase.remaining == {} && PhaseOk(g, st, m) && Births(g)
    requires PlanOf(g, m.phase.consumed, first, last, p)
    ensures PlanFor(g, p, m.watermark, last)
  {
    hide Recs, Resolved, PlanOnce, Behind, LeftBehind, Births, HasTwin;
    NothingPassedOver(g, m, st, last);
    forall r ensures Between(g, r, m.watermark, last) <==> Resolved(p, r) {
      assert Consumed(g, m.phase.consumed, r) <==> Resolved(p, r);
    }
    forall r | r in p.skipped ensures Behind(g.damaged, r) {
      var id :| id in m.phase.consumed && id in g.wal && LeftBehind(g.wal[id], r);
      LeftIsBehind(g, id, r);
    }
  }

  /** What a flush leaves of a segment it read lies at or behind a damaged record. */
  lemma LeftIsBehind(g: Log, id: nat, r: Rec)
    requires Births(g) && id in g.wal && WellTaken(g, id) && LeftBehind(g.wal[id], r)
    ensures Behind(g.damaged, r)
  {
    var recs, n := Recs(g.wal[id]), g.wal[id].read.count;
    var i :| n <= i < |recs| && recs[i] == r;
    assert recs[n..][i - n] == r;
    CutIsBehind(g, id, n, r);
  }

  lemma PlanRange(g: Log, ids: set<nat>, first: nat, last: nat, p: Plan)
    requires PlanOf(g, ids, first, last, p)
    ensures Greatest(ids, last) && forall k :: k in p.files ==> k.last == last
  {
  }

  lemma MakePlanStep(s: State, first: nat, last: nat, p: Plan)
    requires Inv(s) && Enabled(s, MakePlan(first, last, p))
    ensures Inv(Apply(s, MakePlan(first, last, p)))
  {
    hide FilesOk, LimboOk, PlanFor, PlanOf, Once, Kept, Settled, Fresh, SegmentsOk, Births, Justified, Covered;
    PlanRange(s.log, s.mem.phase.consumed, first, last, p);
    PlanCovers(s.log, s.mem, s.store, first, last, p);
    PhaseStep(s, Apply(s, MakePlan(first, last, p)).mem);
  }

  lemma WriteStep(s: State, step: Step)
    requires Inv(s) && (step.WriteTorn? || step.Stage?) && Enabled(s, step)
    ensures Inv(Apply(s, step))
  {
    hide Good, FilesOk, LimboOk, PlanFor;
    var k, t := step.key, Apply(s, step);
    FloorAbove(s);
    UncoveredFiles(s.log, s.store, t.store, k);
    WriteLimbo(s.log, s.store, s.mem, k, t.store.tmp[k]);
    LimboIgnoresPhase(s.log, t.store, s.mem, t.mem);
  }

  // ---- the commit ---------------------------------------------------------------------

  /** Everything planned since the manifest last moved accounts for everything it now passes. */
  lemma MovedPlan(s: State)
    requires Inv(s) && s.mem.Up? && s.mem.phase.Staging?
    ensures var p := Join(s.mem.limbo, s.mem.phase.plan);
            PlanFor(s.log, p, s.log.watermark, s.mem.phase.last) && NamesApart(s.mem.limbo, s.mem.phase.plan)
    ensures Good(Moved(s))
  {
    hide PlanFor, FilesOk, Join;
    JoinPlans(s.log, s.mem.limbo, s.mem.phase.plan, s.log.watermark, s.mem.watermark, s.mem.phase.last);
    CommitKeeps(s.log, s.mem.phase.last, Join(s.mem.limbo, s.mem.phase.plan));
  }

  /** What is known about file names when a plan is staged. */
  ghost predicate NamesBefore(s: State)
    requires s.mem.Up? && s.mem.phase.Staging?
  {
    var g, st, m := s.log, s.store, s.mem;
    && g.watermark <= m.watermark < m.phase.last
    && (forall k :: k in g.done.files ==> k.last <= g.watermark)
    && (forall k :: k in m.limbo.files ==> g.watermark < k.last <= m.watermark && k in st.published)
    && (forall k :: k in m.phase.plan.files ==>
         k.last == m.phase.last && k in st.tmp && st.tmp[k] == m.phase.plan.files[k])
    && (forall k :: k in st.tmp ==> k in m.phase.plan.files)
    && (forall k :: k in st.published && k.last > g.watermark ==>
         k in m.limbo.files && st.published[k] == m.limbo.files[k])
  }

  lemma NamesStaged(s: State)
    requires Inv(s) && s.mem.Up? && s.mem.phase.Staging? && s.mem.phase.staged == s.mem.phase.plan.files.Keys
    ensures NamesBefore(s)
  {
    hide Justified, Between, PlanOnce, Resolved, OneHome;
  }

  lemma MovedFiles(s: State)
    requires s.mem.Up? && s.mem.phase.Staging? && NamesBefore(s) && FilesOk(s.log, s.store)
    ensures FilesOk(Moved(s), s.store)
  {
    hide OneHome;
    MovedHomes(s);
  }

  lemma MovedHomes(s: State)
    requires s.mem.Up? && s.mem.phase.Staging? && NamesBefore(s) && FilesOk(s.log, s.store)
    ensures OneHome(Moved(s).done.files.Keys, s.store)
  {
    var st, files := s.store, Moved(s).done.files;
    assert forall k :: k in files <==> k in s.log.done.files || k in s.mem.limbo.files || k in s.mem.phase.plan.files;
    forall k | k in files ensures exists h :: HomeAt(st, k, h) {
      if k in s.mem.limbo.files {
        assert HomeAt(st, k, InSeries);
      } else if k in s.mem.phase.plan.files {
        assert HomeAt(st, k, InTmp);
      }
    }
  }

  lemma NothingPlanned(g: Log, w: nat)
    ensures PlanFor(g, NOTHING, w, w)
  {
  }

  lemma MovedLimbo(s: State, n: Mem)
    requires s.mem.Up? && s.mem.phase.Staging? && NamesBefore(s) && n.Up?
    requires n.watermark == s.mem.phase.last && n.limbo == NOTHING
    ensures LimboOk(Moved(s), s.store, n)
  {
    hide Join, PlanFor;
    NothingPlanned(Moved(s), s.mem.phase.last);
  }

  lemma CommitStep(s: State, step: Step)
    requires Inv(s) && (step.CommitOk? || (step.CommitError? && step.moved)) && Enabled(s, step)
    ensures Inv(Apply(s, step))
  {
    hide Good, FilesOk, LimboOk, PlanFor, Join;
    var t := Apply(s, step);
    NamesStaged(s);
    MovedPlan(s);
    MovedFiles(s);
    MovedLimbo(s, t.mem);
  }

  /** The manifest did not move, the process believes it did: its plan joins the limbo. */
  lemma CommitLostStep(s: State)
    requires Inv(s) && Enabled(s, CommitError(false))
    ensures Inv(Apply(s, CommitError(false)))
  {
    hide Good, FilesOk, LimboOk, PlanFor, Join;
    var t := Apply(s, CommitError(false));
    NamesStaged(s);
    MovedPlan(s);
    LostLimbo(s, t.mem);
  }

  lemma LostLimbo(s: State, n: Mem)
    requires s.mem.Up? && s.mem.phase.Staging? && NamesBefore(s) && n.Up?
    requires n.watermark == s.mem.phase.last && n.limbo == Join(s.mem.limbo, s.mem.phase.plan)
    requires PlanFor(s.log, n.limbo, s.log.watermark, n.watermark)
    ensures LimboOk(s.log, s.store, n)
  {
    hide PlanFor;
  }

  lemma PromoteStep(s: State, k: Key)
    requires Inv(s) && Enabled(s, PromoteFile(k))
    ensures Inv(Apply(s, PromoteFile(k)))
  {
    hide Good, FilesOk, LimboOk;
    assert k.last <= Floor(s);
    StagedOnce(s, k);
    PromoteFiles(s.log, s.store, k);
    PromoteLimbo(s.log, s.store, s.mem, k);
  }

  lemma UnlinkStep(s: State, id: nat)
    requires Inv(s) && Enabled(s, Unlink(id))
    ensures Inv(Apply(s, Unlink(id)))
  {
    hide Good, FilesOk, LimboOk;
    var t := Apply(s, Unlink(id));
    RemoveKeeps(s.log, id);
    FilesFrame(s.log, t.log, s.store);
    SettledLimbo(s.log, t.log, s.store, s.mem, t.mem);
  }

  /** With the two watermarks equal there is nothing in limbo for a removal to disturb. */
  lemma SettledLimbo(g: Log, h: Log, st: Store, m: Mem, n: Mem)
    requires m.Up? && n.Up? && n == m.(phase := n.phase) && LimboOk(g, st, m) && m.watermark == g.watermark
    requires h.watermark == g.watermark && h.damaged == g.damaged
    ensures LimboOk(h, st, n)
  {
    forall r ensures !Between(g, r, g.watermark, m.watermark) && !Between(h, r, g.watermark, m.watermark) {}
  }

  // ---- crashes and restarts --------------------------------------------------------------

  lemma CrashStep(s: State, h: Log)
    requires Inv(s) && Enabled(s, Crash(h))
    ensures Inv(Apply(s, Crash(h)))
  {
    hide Good, FilesOk, LimboOk, PhaseOk;
    CrashKeeps(s.log, h);
    FilesFrame(s.log, h, s.store);
  }

  lemma CrashInCreateStep(s: State, id: nat, header: Header)
    requires Inv(s) && Enabled(s, CrashInCreate(id, header))
    ensures Inv(Apply(s, CrashInCreate(id, header)))
  {
    hide Good, FilesOk, LimboOk, PhaseOk;
    CreateKeeps(s.log, id, header);
    FilesFrame(s.log, CreateSegment(s.log, id, header), s.store);
  }

  lemma RestartStep(s: State, step: Step)
    requires Inv(s) && (step.Start? || step.Recover? || step.PruneDone? || step.AmendKeep? || step.AmendRefuse?)
    requires Enabled(s, step)
    ensures Inv(Apply(s, step))
  {
    hide Good, FilesOk;
  }

  lemma PruneStep(s: State, id: nat)
    requires Inv(s) && Enabled(s, Prune(id))
    ensures Inv(Apply(s, Prune(id)))
  {
    hide Good, FilesOk;
    RemoveKeeps(s.log, id);
    FilesFrame(s.log, RemoveSegment(s.log, id), s.store);
  }

  lemma AmendStep(s: State, step: Step)
    requires Inv(s) && (step.AmendSync? || step.AmendCut? || step.AmendDrop? || step.AmendQuarantine?)
    requires Enabled(s, step)
    ensures Inv(Apply(s, step))
  {
    hide Good, FilesOk;
    var g := s.log;
    match step {
      case AmendSync(id) => SyncKeeps(g, id);
      case AmendCut(id, at) => CutKeeps(g, id, at);
      case AmendDrop(id) => RemoveKeeps(g, id);
      case AmendQuarantine(id) => QuarantineKeeps(g, id);
    }
    FilesFrame(g, Apply(s, step).log, s.store);
  }

  lemma OpenStep(s: State)
    requires Inv(s) && Enabled(s, Open)
    ensures Inv(Apply(s, Open))
  {
    hide Good, FilesOk, PlanFor;
    var t := Apply(s, Open);
    CreateKeeps(s.log, s.mem.next, Sound);
    FilesFrame(s.log, t.log, s.store);
    NothingPlanned(t.log, s.log.watermark);
  }

  // ---- all steps -------------------------------------------------------------------------

  /** The outside agent takes only files the manifest on disk covers. */
  predicate Careful(s: State, step: Step) { step.Export? ==> step.key.last <= s.log.watermark }

  lemma StepKeeps(s: State, step: Step)
    requires Inv(s) && Enabled(s, step) && Careful(s, step)
    ensures Inv(Apply(s, step))
  {
    hide *;
    match step {
      case Append(r) => AppendStep(s, r);
      case Sync(upto) => SyncStep(s, upto);
      case Roll => RollStep(s);
      case HarmHeader(_, _) => HarmStep(s, step);
      case HarmRec(_, _) => HarmStep(s, step);
      case List => ListStep(s);
      case Select => SelectStep(s);
      case SweepFile(k) => SweepFileStep(s, k);
      case SweepOrphan(k) => SweepOrphanStep(s, k);
      case SweepDone => SweepDoneStep(s);
      case Decode(id) => DecodeStep(s, id);
      case SetAside(id) => SetAsideStep(s, id);
      case StopAt(id) => StopStep(s, id);
      case NothingToDo => EndStep(s, step);
      case MakePlan(first, last, p) => MakePlanStep(s, first, last, p);
      case WriteTorn(_, _) => WriteStep(s, step);
      case Stage(_) => WriteStep(s, step);
      case CommitOk => CommitStep(s, step);
      case CommitError(moved) => if moved { CommitStep(s, step); } else { CommitLostStep(s); }
      case PromoteFile(k) => PromoteStep(s, k);
      case PromoteDone => EndStep(s, step);
      case Unlink(id) => UnlinkStep(s, id);
      case FlushDone => EndStep(s, step);
      case Fail => EndStep(s, step);
      case Crash(h) => CrashStep(s, h);
      case CrashInCreate(id, header) => CrashInCreateStep(s, id, header);
      case Start => RestartStep(s, step);
      case Recover(_) => RestartStep(s, step);
      case Prune(id) => PruneStep(s, id);
      case PruneDone => RestartStep(s, step);
      case AmendKeep => RestartStep(s, step);
      case AmendSync(_) => AmendStep(s, step);
      case AmendCut(_, _) => AmendStep(s, step);
      case AmendDrop(_) => AmendStep(s, step);
      case AmendQuarantine(_) => AmendStep(s, step);
      case AmendRefuse(_) => RestartStep(s, step);
      case Open => OpenStep(s);
      case Export(k) => CarefulExport(s, k); ExportStep(s, k);
    }
  }

  lemma CarefulExport(s: State, k: Key)
    requires Careful(s, Export(k))
    ensures k.last <= s.log.watermark
  {
  }
}
