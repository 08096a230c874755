/**
 * The flush, commit and recovery protocol as a state machine: the engine's
 * steps (src/engine.rs, src/flush/planner.rs, src/wal/recovery.rs), crashes at
 * any point, storage damage, and an outside agent that moves published files
 * away. Appends, syncs, rolls and damage may fall between any two flush steps.
 */
module Protocol {
  import opened Ledger
  import opened Commit

  /** `tmp/`, `series/`, and what the outside agent took. */
  datatype Store = Store(tmp: map<Key, set<Rec>>, published: map<Key, set<Rec>>, exported: seq<(Key, set<Rec>)>)

  datatype Phase =
    | Idle
    | Listed(pending: set<nat>)
    | Sweeping(consumable: set<nat>)
    | Decoding(remaining: set<nat>, consumed: set<nat>)
    | Staging(ids: set<nat>, last: nat, plan: Plan, staged: set<Key>)
    | Promoting(ids: set<nat>)
    | Deleting(ids: set<nat>)

  /**
   * The process. `limbo` is history: what commits that returned an error without moving the manifest
   * on disk had planned, while the process carried on with the watermark it holds in memory.
   */
  datatype Mem =
    | Down
    | Starting
    | Pruning(next: nat)
    | Amending(next: nat)
    | Opening(next: nat)
    | Up(watermark: nat, active: nat, failed: bool, limbo: Plan, phase: Phase)

  datatype State = State(log: Log, store: Store, mem: Mem)

  const INIT: State :=
    State(Log(map[], map[], 0, NOTHING, 0, {}, {}, {}), Store(map[], map[], []), Down)

  datatype Step =
    | Append(rec: Rec) | Sync(upto: nat) | Roll
    | HarmHeader(id: nat, header: Header) | HarmRec(id: nat, rec: Rec)
    | List | Select
    | SweepFile(key: Key) | SweepOrphan(key: Key) | SweepDone
    | Decode(id: nat) | SetAside(id: nat) | StopAt(id: nat) | NothingToDo
    | MakePlan(first: nat, last: nat, plan: Plan)
    | WriteTorn(key: Key, content: set<Rec>) | Stage(key: Key)
    | CommitOk | CommitError(moved: bool)
    | PromoteFile(key: Key) | PromoteDone | Unlink(id: nat) | FlushDone
    | Fail
    | Crash(log: Log) | CrashInCreate(id: nat, header: Header)
    | Start | Recover(next: nat) | Prune(id: nat) | PruneDone
    | AmendKeep | AmendSync(id: nat) | AmendCut(id: nat, at: nat) | AmendDrop(id: nat) | AmendQuarantine(id: nat)
    | AmendRefuse(id: nat)
    | Open
    | Export(key: Key)

  // ---- the steps ------------------------------------------------------------------

  /** The watermark a sweep decides by: the process's own, or the one just loaded. */
  function Floor(s: State): nat { if s.mem.Up? then s.mem.watermark else s.log.watermark }

  predicate InSweep(s: State) { s.mem.Starting? || (s.mem.Up? && s.mem.phase.Sweeping?) }

  /** Nothing left to settle: the sweep has been through `tmp/` and `series/`. */
  predicate Swept(s: State) { s.store.tmp == map[] && forall k :: k in s.store.published ==> k.last <= Floor(s) }

  predicate Least(ids: set<nat>, id: nat) { id in ids && forall x :: x in ids ==> id <= x }

  predicate Greatest(ids: set<nat>, id: nat) { id in ids && forall x :: x in ids ==> x <= id }

  predicate IsTail(s: State, id: nat) { Greatest(s.log.wal.Keys, id) }

  /** Every frame of the tail passes recovery's scan. */
  ghost predicate CleanTail(s: State, id: nat) {
    IsTail(s, id) && s.log.wal[id].header.Sound? && forall r :: r in Recs(s.log.wal[id]) ==> r !in s.log.damaged
  }

  /** One more than every id listed and the watermark: what recovery hands the writer. */
  predicate IsNext(g: Log, next: nat) {
    && next > g.watermark && (forall id :: id in g.wal ==> id < next)
    && (next == g.watermark + 1 || next - 1 in g.wal)
  }

  ghost predicate Consumed(g: Log, ids: set<nat>, r: Rec) {
    exists id :: id in ids && id in g.wal && r in Recs(g.wal[id])
  }

  /** The flush read the segment and left the record behind: it lies past what it took. */
  ghost predicate LeftBehind(seg: Segment, r: Rec) {
    seg.read.Took? && exists i :: seg.read.count <= i < |Recs(seg)| && Recs(seg)[i] == r
  }

  /**
   * What a flush makes of the segments it read: each of their records has one verdict and no other
   * record has any. Skipped are exactly the records past what was taken of a segment, rejected exactly
   * the unaccepted ones among the rest, a duplicate has its twin in a file, and the files carry names
   * of the range.
   */
  ghost predicate PlanOf(g: Log, ids: set<nat>, first: nat, last: nat, p: Plan) {
    && Least(ids, first) && Greatest(ids, last) && PlanOnce(p)
    && (forall r :: Consumed(g, ids, r) <==> Resolved(p, r))
    && (forall r :: r in p.skipped <==> exists id :: id in ids && id in g.wal && LeftBehind(g.wal[id], r))
    && (forall r :: r in p.rejected <==> Consumed(g, ids, r) && r !in p.skipped && !r.accepted)
    && (forall r :: r in p.duplicates ==> HasTwin(p.files, r))
    && (forall k :: k in p.files ==> k.first == first && k.last == last)
  }

  ghost predicate Enabled(s: State, step: Step) {
    var g, m := s.log, s.mem;
    match step
    // the WAL writer
    case Append(r) => m.Up? && m.active in g.wal && r.serial == g.next && r.born == g.wal[m.active].born
    case Sync(upto) => m.Up? && m.active in g.wal && |g.wal[m.active].synced| <= upto <= |Recs(g.wal[m.active])|
    case Roll => m.Up? && m.active in g.wal && m.active + 1 !in g.wal
    // storage damage
    case HarmHeader(id, header) => id in g.wal && (header.Damaged? || header.Foreign?)
    case HarmRec(id, r) => id in g.wal && r in Recs(g.wal[id])
    // a flush
    case List => m.Up? && m.phase.Idle?
    case Select => m.Up? && m.phase.Listed?
    case SweepFile(k) => InSweep(s) && k in s.store.tmp
    case SweepOrphan(k) => InSweep(s) && k in s.store.published && k.last > Floor(s)
    case SweepDone => m.Up? && m.phase.Sweeping? && Swept(s)
    case Decode(id) => m.Up? && m.phase.Decoding? && Least(m.phase.remaining, id) && id in g.wal
      && g.wal[id].header.Sound?
    case SetAside(id) => m.Up? && m.phase.Decoding? && Least(m.phase.remaining, id) && id in g.wal
      && !g.wal[id].header.Sound?
    case StopAt(id) => m.Up? && m.phase.Decoding? && Least(m.phase.remaining, id) && id in g.wal
      && !g.wal[id].header.Sound?
    case NothingToDo =>
      && m.Up? && m.phase.Decoding? && m.phase.remaining == {}
      && forall id :: id in m.phase.consumed && id in g.wal ==> Recs(g.wal[id]) == []
    case MakePlan(first, last, p) =>
      m.Up? && m.phase.Decoding? && m.phase.remaining == {} && PlanOf(g, m.phase.consumed, first, last, p)
    case WriteTorn(k, content) => m.Up? && m.phase.Staging? && k in m.phase.plan.files && k !in m.phase.staged
    case Stage(k) => m.Up? && m.phase.Staging? && k in m.phase.plan.files
    case CommitOk => m.Up? && m.phase.Staging? && m.phase.staged == m.phase.plan.files.Keys
    case CommitError(moved) => m.Up? && m.phase.Staging? && m.phase.staged == m.phase.plan.files.Keys
    case PromoteFile(k) => m.Up? && m.phase.Promoting? && k in s.store.tmp
    case PromoteDone => m.Up? && m.phase.Promoting? && s.store.tmp == map[]
    case Unlink(id) => m.Up? && m.phase.Deleting? && id in m.phase.ids
    case FlushDone => m.Up? && m.phase.Deleting? && m.phase.ids == {}
    case Fail => m.Up? && !m.phase.Idle? && !m.phase.Listed?
    // crashes and restarts
    case Crash(h) => CrashOf(g, h)
    case CrashInCreate(id, header) =>
      && id !in g.wal && (header.Sound? || header.Short?)
      && ((m.Up? && id == m.active + 1) || (m.Opening? && id == m.next))
    case Start => m.Down?
    case Recover(next) => m.Starting? && Swept(s) && IsNext(g, next)
    case Prune(id) => m.Pruning? && id in g.wal && id <= g.watermark
    case PruneDone => m.Pruning? && forall id :: id in g.wal ==> id > g.watermark
    case AmendKeep =>
      && m.Amending?
      && (g.wal == map[] || exists id :: CleanTail(s, id))
    case AmendSync(id) => m.Amending? && CleanTail(s, id)
    case AmendCut(id, at) =>
      && m.Amending? && IsTail(s, id) && g.wal[id].header.Sound?
      && at < |Recs(g.wal[id])| && Recs(g.wal[id])[at] in g.damaged
      && forall r :: r in Recs(g.wal[id])[..at] ==> r !in g.damaged
    case AmendDrop(id) => m.Amending? && IsTail(s, id) && g.wal[id].header.Short?
    case AmendQuarantine(id) => m.Amending? && IsTail(s, id) && g.wal[id].header.Damaged?
    case AmendRefuse(id) => m.Amending? && IsTail(s, id) && g.wal[id].header.Foreign?
    case Open => m.Opening? && m.next !in g.wal
    // the outside agent
    case Export(k) => k in s.store.published
  }

  function Promote(st: Store, k: Key): Store
    requires k in st.tmp
  {
    st.(tmp := st.tmp - {k}, published := st.published[k := st.tmp[k]])
  }

  function Goto(s: State, phase: Phase): State
    requires s.mem.Up?
  {
    s.(mem := s.mem.(phase := phase))
  }

  /** Neither committed already nor still being written. */
  function Consumable(pending: set<nat>, floor: nat, active: nat): set<nat> {
    set id | id in pending && floor < id < active
  }

  function Decoded(s: State, log: Log, consumed: set<nat>, id: nat): State
    requires s.mem.Up? && s.mem.phase.Decoding?
  {
    s.(log := log, mem := s.mem.(phase := Decoding(s.mem.phase.remaining - {id}, consumed)))
  }

  /** The manifest moves on disk, with it everything planned since it last did. */
  function Moved(s: State): Log
    requires s.mem.Up? && s.mem.phase.Staging?
  {
    CommitPlan(s.log, s.mem.phase.last, Join(s.mem.limbo, s.mem.phase.plan))
  }

  ghost function Apply(s: State, step: Step): State
    requires Enabled(s, step)
  {
    var g, st, m := s.log, s.store, s.mem;
    match step
    case Append(r) => s.(log := AppendRec(g, m.active, r))
    case Sync(upto) => s.(log := SyncUpTo(g, m.active, upto))
    case Roll => s.(log := CreateSegment(SyncSegment(g, m.active), m.active + 1, Sound),
      mem := m.(active := m.active + 1))
    case HarmHeader(id, header) => s.(log := DamageHeader(g, id, header))
    case HarmRec(_, r) => s.(log := DamageRec(g, r))
    case List => Goto(s, Listed(g.wal.Keys))
    case Select =>
      var consumable := Consumable(m.phase.pending, m.watermark, m.active);
      Goto(s, if m.failed then Sweeping(consumable) else Decoding(consumable, {}))
    case SweepFile(k) => s.(store := if k.last <= Floor(s) then Promote(st, k) else st.(tmp := st.tmp - {k}))
    case SweepOrphan(k) => s.(store := st.(published := st.published - {k}))
    case SweepDone => Goto(s, Decoding(m.phase.consumable, {}))
    case Decode(id) => Decoded(s, MarkRead(g, id), m.phase.consumed + {id}, id)
    case SetAside(id) => Decoded(s, QuarantineSegment(g, id), m.phase.consumed, id)
    case StopAt(id) => Goto(s, Decoding({}, m.phase.consumed))
    case NothingToDo => s.(mem := m.(failed := false, phase := Idle))
    case MakePlan(first, last, p) => Goto(s, Staging(m.phase.consumed, last, p, {}))
    case WriteTorn(k, content) => s.(store := st.(tmp := st.tmp[k := content]))
    case Stage(k) =>
      s.(store := st.(tmp := st.tmp[k := m.phase.plan.files[k]]),
         mem := m.(phase := m.phase.(staged := m.phase.staged + {k})))
    case CommitOk =>
      s.(log := Moved(s), mem := m.(watermark := m.phase.last, limbo := NOTHING, phase := Promoting(m.phase.ids)))
    case CommitError(moved) =>
      s.(log := if moved then Moved(s) else g,
         mem := Up(m.phase.last, m.active, true, if moved then NOTHING else Join(m.limbo, m.phase.plan), Idle))
    case PromoteFile(k) => s.(store := Promote(st, k))
    case PromoteDone => Goto(s, Deleting(m.phase.ids))
    case Unlink(id) => s.(log := RemoveSegment(g, id), mem := m.(phase := Deleting(m.phase.ids - {id})))
    case FlushDone => s.(mem := m.(failed := false, phase := Idle))
    case Fail => s.(mem := m.(failed := true, phase := Idle))
    case Crash(h) => s.(log := h, mem := Down)
    case CrashInCreate(id, header) => s.(log := CreateSegment(g, id, header), mem := Down)
    case Start => s.(mem := Starting)
    case Recover(next) => s.(mem := Pruning(next))
    case Prune(id) => s.(log := RemoveSegment(g, id))
    case PruneDone => s.(mem := Amending(m.next))
    case AmendKeep => s.(mem := Opening(m.next))
    case AmendSync(id) => s.(log := SyncSegment(g, id), mem := Opening(m.next))
    case AmendCut(id, at) => s.(log := CutTail(g, id, at), mem := Opening(m.next))
    case AmendDrop(id) => s.(log := RemoveSegment(g, id), mem := Opening(m.next))
    case AmendQuarantine(id) => s.(log := QuarantineSegment(g, id), mem := Opening(m.next))
    case AmendRefuse(id) => s.(mem := Down)
    case Open => s.(log := CreateSegment(g, m.next, Sound), mem := Up(g.watermark, m.next, false, NOTHING, Idle))
    case Export(k) => s.(store := st.(published := st.published - {k},
      exported := st.exported + [(k, st.published[k])]))
  }

  /** States one step apart, each step possible where it was taken. */
  ghost predicate Path(states: seq<State>, steps: seq<Step>) {
    && |states| == |steps| + 1
    && forall i :: 0 <= i < |steps| ==> Enabled(states[i], steps[i]) && states[i + 1] == Apply(states[i], steps[i])
  }

  lemma PathOn(states: seq<State>, steps: seq<Step>, step: Step)
    requires Path(states, steps) && Enabled(states[|steps|], step)
    ensures Path(states + [Apply(states[|steps|], step)], steps + [step])
  {
    hide Enabled, Apply;
    var a, b := states + [Apply(states[|steps|], step)], steps + [step];
    assert forall i :: 0 <= i < |states| ==> a[i] == states[i];
    assert forall i :: 0 <= i < |steps| ==> b[i] == steps[i];
  }

  // ---- the invariant ----------------------------------------------------------------

  datatype Home = InTmp | InSeries | Exported(i: nat)

  predicate HomeAt(st: Store, k: Key, h: Home) {
    match h
    case InTmp => k in st.tmp
    case InSeries => k in st.published
    case Exported(i) => i < |st.exported| && st.exported[i].0 == k
  }

  /** A committed name has one file, and the file is the one committed under it. */
  ghost predicate FilesOk(g: Log, st: Store) {
    && (forall k :: k in st.tmp && k.last <= g.watermark ==> k in g.done.files && st.tmp[k] == g.done.files[k])
    && (forall k :: k in st.published && k.last <= g.watermark ==>
         k in g.done.files && st.published[k] == g.done.files[k])
    && (forall i :: 0 <= i < |st.exported| ==>
          st.exported[i].0 in g.done.files && st.exported[i].1 == g.done.files[st.exported[i].0])
    && OneHome(g.done.files.Keys, st)
  }

  ghost predicate OneHome(names: set<Key>, st: Store) {
    && (forall k, a, b :: k in names && HomeAt(st, k, a) && HomeAt(st, k, b) ==> a == b)
    && (forall k :: k in names ==> exists h :: HomeAt(st, k, h))
  }

  /** Ids: everything in `wal/` is at most the active segment, which lies above every watermark. */
  predicate HeadOk(g: Log, m: Mem)
    requires m.Up?
  {
    && g.watermark <= m.watermark < m.active && m.active in g.wal && !g.wal[m.active].header.Short?
    && (forall id :: id in g.wal ==> id <= m.active)
  }

  /** What failed commits planned is still on disk, file by file, under names no other file has. */
  ghost predicate LimboOk(g: Log, st: Store, m: Mem)
    requires m.Up?
  {
    && PlanFor(g, m.limbo, g.watermark, m.watermark)
    && (forall k :: k in st.published && k.last > g.watermark ==>
         k in m.limbo.files && st.published[k] == m.limbo.files[k])
    && (forall k :: k in st.tmp && g.watermark < k.last <= m.watermark ==>
         k in m.limbo.files && st.tmp[k] == m.limbo.files[k])
    && (forall k :: k in m.limbo.files ==> k in st.tmp || k in st.published)
    && (forall k :: k in st.tmp && k.last <= m.watermark ==> k !in st.published)
  }

  /** A segment of `wal/` missing from the list is later than everything on it. */
  predicate ListOk(g: Log, list: set<nat>, from: nat) {
    forall id :: id in g.wal && id > from ==> id in list || forall x :: x in list ==> x < id
  }

  ghost predicate PhaseOk(g: Log, st: Store, m: Mem)
    requires m.Up?
  {
    match m.phase
    case Idle => !m.failed ==> st.tmp == map[]
    case Listed(pending) => (!m.failed ==> st.tmp == map[]) && pending <= g.wal.Keys && ListOk(g, pending, 0)
    case Sweeping(ids) => ids <= g.wal.Keys && InRange(m, ids) && ListOk(g, ids, m.watermark)
    case Decoding(remaining, consumed) =>
      && st.tmp == map[] && remaining + consumed <= g.wal.Keys && InRange(m, remaining + consumed)
      && ListOk(g, remaining + consumed, m.watermark)
      && (forall c, x :: c in consumed && x in remaining ==> c < x)
      && (forall c :: c in consumed ==> WellTaken(g, c))
    case Staging(ids, last, plan, staged) =>
      && m.watermark < last < m.active && PlanFor(g, plan, m.watermark, last)
      && (forall k :: k in plan.files ==> k.last == last)
      && st.tmp.Keys <= plan.files.Keys && staged <= st.tmp.Keys
      && (forall k :: k in staged ==> st.tmp[k] == plan.files[k])
      && (forall id :: id in ids ==> id <= last)
    case Promoting(ids) =>
      && m.watermark == g.watermark && (forall k :: k in st.tmp ==> k.last <= g.watermark)
           && (forall id :: id in ids ==> id <= g.watermark)
    case Deleting(ids) =>
      m.watermark == g.watermark && st.tmp == map[] && (forall id :: id in ids ==> id <= g.watermark)
  }

  /** What a flush left of a segment starts with a damaged record. */
  ghost predicate WellTaken(g: Log, id: nat)
    requires id in g.wal
  {
    var seg := g.wal[id];
    seg.read.Took? && seg.read.count <= |Recs(seg)|
      && (seg.read.count < |Recs(seg)| ==> Recs(seg)[seg.read.count] in g.damaged)
  }

  predicate InRange(m: Mem, ids: set<nat>)
    requires m.Up?
  {
    forall id :: id in ids ==> m.watermark < id < m.active
  }

  ghost predicate MemOk(s: State) {
    match s.mem
    case Down => true
    case Starting => true
    case Pruning(next) => Ready(s, next)
    case Amending(next) => Ready(s, next) && forall id :: id in s.log.wal ==> id > s.log.watermark
    case Opening(next) => Ready(s, next)
    case Up(_, _, _, _, _) => HeadOk(s.log, s.mem) && LimboOk(s.log, s.store, s.mem) && PhaseOk(s.log, s.store, s.mem)
  }

  /** Swept, and `next` is above every id listed and the watermark. */
  predicate Ready(s: State, next: nat) {
    && s.store.tmp == map[] && (forall k :: k in s.store.published ==> k.last <= s.log.watermark)
    && next > s.log.watermark && forall id :: id in s.log.wal ==> id < next
  }

  ghost predicate Inv(s: State) { Good(s.log) && FilesOk(s.log, s.store) && MemOk(s) }

  lemma InitOk()
    ensures Inv(INIT)
  {
  }
}
