/**
 * The loops of the engine, the planner and of recovery, on a data directory they
 * change in place. Each iteration is one protocol step, recorded in `steps`, so a
 * crash between any two leaves a state the run theorems speak of.
 */
module DataDir {
  import opened Ledger
  import opened Commit
  import opened Protocol
  import opened ProtocolSafety

  /** What a sweep under `floor` publishes. */
  function Settle(st: Store, floor: nat): map<Key, set<Rec>> {
    map k | k in st.tmp.Keys + st.published.Keys && k.last <= floor :: if k in st.tmp then st.tmp[k]
      else st.published[k]
  }

  predicate Unreadable(g: Log, id: nat) { id in g.wal && !g.wal[id].header.Sound? }

  method Lesser(ids: set<nat>) returns (low: nat)
    requires ids != {}
    ensures Least(ids, low)
  {
    low :| low in ids;
    var left := ids - {low};
    while left != {}
      invariant low in ids && left <= ids && forall x :: x in ids ==> x in left || low <= x
      decreases left
    {
      var x :| x in left;
      if x < low { low := x; }
      left := left - {x};
    }
  }

  method Greater(ids: set<nat>) returns (high: nat)
    requires ids != {}
    ensures Greatest(ids, high)
  {
    high :| high in ids;
    var left := ids - {high};
    while left != {}
      invariant high in ids && left <= ids && forall x :: x in ids ==> x in left || x <= high
      decreases left
    {
      var x :| x in left;
      if x > high { high := x; }
      left := left - {x};
    }
  }

  function Pruned(g: Log): Log { g.(wal := map id | id in g.wal && id > g.watermark :: g.wal[id]) }

  lemma AllPruned(g: Log)
    requires forall id :: id in g.wal ==> id > g.watermark
    ensures Pruned(g) == g
  {
    assert Pruned(g).wal == g.wal;
  }

  /** What recovery makes of the tail: kept whole, cut at the first bad frame, dropped, or moved aside. */
  function Amended(g: Log, id: nat, torn: bool): Log
    requires id in g.wal
  {
    var recs := Recs(g.wal[id]);
    var n := FirstBad(recs, g.damaged);
    match g.wal[id].header
    case Short => RemoveSegment(g, id)
    case Damaged => QuarantineSegment(g, id)
    case Foreign => g
    case Sound => if n < |recs| then CutTail(g, id, n) else if torn then SyncSegment(g, id) else g
  }

  /** `kept` are the leading undamaged records. */
  ghost predicate Leading(recs: seq<Rec>, damaged: set<Rec>, kept: seq<Rec>) {
    && kept <= recs && (forall r :: r in kept ==> r !in damaged)
    && (|kept| < |recs| ==> recs[|kept|] in damaged)
  }

  lemma FirstBadLeading(recs: seq<Rec>, damaged: set<Rec>)
    ensures FirstBad(recs, damaged) <= |recs| && Leading(recs, damaged, recs[..FirstBad(recs, damaged)])
  {
    FirstBadIs(recs, damaged);
  }

  /** Everything but `wal/`, quarantine, what is durable and what was skipped is as it was. */
  ghost predicate OnlyTail(g: Log, h: Log) {
    && h.watermark == g.watermark && h.next == g.next && h.damaged == g.damaged
    && h.done == g.done.(skipped := h.done.skipped)
  }

  /**
   * What becomes of the tail `id`. A sound one stays with its records before the first damaged one, all
   * of them synced if bytes were cut off; those behind go to the skipped count. One without a header is
   * unlinked, one with a damaged header moved aside, one of another version left. Nothing else changes.
   */
  ghost predicate TailSettled(g: Log, id: nat, torn: bool, h: Log)
    requires id in g.wal
  {
    var seg, recs := g.wal[id], Recs(g.wal[id]);
    && OnlyTail(g, h)
    && (forall i :: i != id ==> (i in h.wal <==> i in g.wal) && (i in g.wal ==> h.wal[i] == g.wal[i]))
    && (id in h.wal <==> seg.header.Sound? || seg.header.Foreign?)
    && (!seg.header.Damaged? ==> h.quarantined == g.quarantined && h.overwritten == g.overwritten)
    && (seg.header.Damaged? ==>
          && h.quarantined == g.quarantined[id := seg]
          && (forall r :: r in h.overwritten <==>
                r in g.overwritten || (id in g.quarantined && r in Recs(g.quarantined[id]))))
    && (!seg.header.Sound? ==> h.done == g.done && h.durable == g.durable)
    && (seg.header.Foreign? ==> h.wal[id] == seg)
    && (seg.header.Sound? ==>
          && var kept := Recs(h.wal[id]);
          && h.wal[id] == seg.(synced := h.wal[id].synced, volatile := h.wal[id].volatile)
          && Leading(recs, g.damaged, kept)
          && (forall r :: r in h.done.skipped <==> r in g.done.skipped || r in recs[|kept|..])
          && if torn || |kept| < |recs| then h.wal[id].volatile == [] && h.durable == g.durable + Set(kept)
             else h.wal[id] == seg && h.durable == g.durable)
  }

  lemma AmendedSettles(g: Log, id: nat, torn: bool)
    requires id in g.wal && id > g.watermark && InOrder(g.wal[id])
    ensures TailSettled(g, id, torn, Amended(g, id, torn))
  {
    if g.wal[id].header.Sound? {
      hide InOrder;
      AmendedSound(g, id, torn);
    }
  }

  lemma AmendedSound(g: Log, id: nat, torn: bool)
    requires id in g.wal && id > g.watermark && InOrder(g.wal[id]) && g.wal[id].header.Sound?
    ensures TailSettled(g, id, torn, Amended(g, id, torn))
  {
    hide FirstBad, InOrder;
    var recs, h := Recs(g.wal[id]), Amended(g, id, torn);
    var n := FirstBad(recs, g.damaged);
    FirstBadLeading(recs, g.damaged);
    assert recs[..|recs|] == recs && recs[|recs|..] == [];
    assert Recs(h.wal[id]) == recs[..n];
    forall r | r in recs[..n] ensures r !in recs[n..] { OneSide(g.wal[id], r, n); }
  }

  lemma ForeignIsKept(g: Log, id: nat, torn: bool)
    requires id in g.wal && g.wal[id].header.Foreign?
    ensures Amended(g, id, torn) == g
  {
  }

  /** The newest segment above the watermark is of another format version. */
  ghost predicate Refused(g: Log) {
    exists id :: IsLast(g, id) && g.wal[id].header.Foreign?
  }

  /** The newest segment above the watermark. */
  ghost predicate IsLast(g: Log, id: nat) {
    id in g.wal && id > g.watermark && forall i :: i in g.wal ==> i <= id
  }

  /** Recovery of a whole directory: what is flushed goes, and the newest of the rest is settled. */
  ghost predicate RecoveryOf(g: Log, torn: bool, h: Log) {
    && ((forall id :: id in g.wal ==> id <= g.watermark) ==> h == g.(wal := map[]))
    && (forall id :: IsLast(g, id) ==> id in Pruned(g).wal && TailSettled(Pruned(g), id, torn, h))
  }

  // ---- reading segments ------------------------------------------------------------------

  /** A segment at or before this one is unreadable and could not be moved. */
  ghost predicate Blocked(g: Log, ids: set<nat>, movable: nat -> bool, id: nat) {
    exists stop :: stop in ids && Unreadable(g, stop) && !movable(stop) && stop <= id
  }

  ghost predicate MovedAside(g: Log, ids: set<nat>, movable: nat -> bool, id: nat) {
    id in ids && Unreadable(g, id) && !Blocked(g, ids, movable, id)
  }

  /** Read: the leading undamaged records were taken, and nothing else of the segment changed. */
  ghost predicate ReadOf(seg: Segment, damaged: set<Rec>, h: Segment) {
    && h == seg.(read := h.read) && h.read.Took? && h.read.count <= |Recs(seg)|
    && Leading(Recs(seg), damaged, Recs(seg)[..h.read.count])
  }

  /**
   * What reading `ids` in order does: every sound segment before the first unreadable one that cannot be
   * moved is consumed and marked read, every unreadable one before it is moved aside, and nothing else
   * changes.
   */
  ghost predicate DecodedTo(g: Log, ids: set<nat>, movable: nat -> bool, h: Log, consumed: set<nat>) {
    && (forall id :: id in consumed <==>
         id in ids && id in g.wal && g.wal[id].header.Sound? && !Blocked(g, ids, movable, id))
    && h == g.(wal := h.wal, quarantined := h.quarantined, overwritten := h.overwritten)
    && (forall id :: id in h.wal <==> id in g.wal && !MovedAside(g, ids, movable, id))
    && (forall id :: id in h.wal ==>
         if id in consumed then ReadOf(g.wal[id], g.damaged, h.wal[id]) else h.wal[id] == g.wal[id])
    && (forall id :: id in h.quarantined <==> id in g.quarantined || MovedAside(g, ids, movable, id))
    && (forall id :: id in h.quarantined ==>
          h.quarantined[id] == if MovedAside(g, ids, movable, id) then g.wal[id] else g.quarantined[id])
    && (forall r :: r in h.overwritten <==>
          || r in g.overwritten
          || (exists id :: MovedAside(g, ids, movable, id) && id in g.quarantined && r in Recs(g.quarantined[id])))
  }

  /** None of them stops the flush. */
  ghost predicate AllPass(g: Log, ids: set<nat>, movable: nat -> bool) {
    forall id :: id in ids && Unreadable(g, id) ==> movable(id)
  }

  lemma NothingDecoded(g: Log, movable: nat -> bool)
    ensures DecodedTo(g, {}, movable, g, {}) && AllPass(g, {}, movable)
  {
  }

  lemma ReadMore(g: Log, ids: set<nat>, movable: nat -> bool, h: Log, consumed: set<nat>, id: nat)
    requires DecodedTo(g, ids, movable, h, consumed) && AllPass(g, ids, movable) && id !in ids
    requires id in g.wal && g.wal[id].header.Sound?
    ensures id in h.wal && h.wal[id] == g.wal[id]
    ensures DecodedTo(g, ids + {id}, movable, MarkRead(h, id), consumed + {id}) && AllPass(g, ids + {id}, movable)
  {
    hide FirstBad, Recs, Leading;
    FirstBadLeading(Recs(g.wal[id]), g.damaged);
    var more := ids + {id};
    assert forall i :: !Blocked(g, ids, movable, i) && !Blocked(g, more, movable, i);
    assert forall i :: MovedAside(g, more, movable, i) <==> MovedAside(g, ids, movable, i);
    assert ReadOf(g.wal[id], g.damaged, MarkRead(h, id).wal[id]) by { MarkedIsRead(g, h, id); }
  }

  lemma MarkedIsRead(g: Log, h: Log, id: nat)
    requires id in g.wal && id in h.wal && h.wal[id] == g.wal[id] && h.damaged == g.damaged
    ensures ReadOf(g.wal[id], g.damaged, MarkRead(h, id).wal[id])
  {
    FirstBadLeading(Recs(g.wal[id]), g.damaged);
  }

  lemma MoveMore(g: Log, ids: set<nat>, movable: nat -> bool, h: Log, consumed: set<nat>, id: nat)
    requires DecodedTo(g, ids, movable, h, consumed) && AllPass(g, ids, movable) && id !in ids
    requires Unreadable(g, id) && movable(id)
    ensures id in h.wal && h.wal[id] == g.wal[id]
    ensures DecodedTo(g, ids + {id}, movable, QuarantineSegment(h, id), consumed) && AllPass(g, ids + {id}, movable)
  {
    hide ReadOf;
    var more, k := ids + {id}, QuarantineSegment(h, id);
    assert forall i :: !Blocked(g, ids, movable, i) && !Blocked(g, more, movable, i);
    assert forall i :: MovedAside(g, more, movable, i) <==> MovedAside(g, ids, movable, i) || i == id;
    forall r ensures r in k.overwritten <==>
        || r in g.overwritten
        || (exists i :: MovedAside(g, more, movable, i) && i in g.quarantined && r in Recs(g.quarantined[i]))
    {
      if r in h.overwritten && r !in g.overwritten {
        var i :| MovedAside(g, ids, movable, i) && i in g.quarantined && r in Recs(g.quarantined[i]);
        assert MovedAside(g, more, movable, i);
      }
      if i :| MovedAside(g, more, movable, i) && i in g.quarantined && r in Recs(g.quarantined[i]) {
        if i != id { assert MovedAside(g, ids, movable, i); }
      }
    }
  }

  /** Stopping in front of `stop`, with everything before it read. */
  lemma StoppedAt(g: Log, ids: set<nat>, done: set<nat>, movable: nat -> bool, h: Log, consumed: set<nat>, stop: nat)
    requires DecodedTo(g, done, movable, h, consumed) && AllPass(g, done, movable) && done <= ids
    requires forall id :: id in ids ==> (id in done <==> id < stop)
    requires stop in ids && Unreadable(g, stop) && !movable(stop)
    ensures DecodedTo(g, ids, movable, h, consumed)
  {
    hide ReadOf;
    assert forall i :: !Blocked(g, done, movable, i);
    forall i: nat ensures Blocked(g, ids, movable, i) <==> i >= stop {
      if i >= stop { assert stop in ids && Unreadable(g, stop) && !movable(stop) && stop <= i; }
    }
    assert forall i :: MovedAside(g, ids, movable, i) <==> MovedAside(g, done, movable, i);
  }

  /** The committed verdicts after a commit: those before, those of commits that were lost, and the plan's. */
  ghost predicate Adds(done: Plan, limbo: Plan, plan: Plan, after: Plan) {
    && after.files == done.files + limbo.files + plan.files
    && after.rejected == done.rejected + limbo.rejected + plan.rejected
    && after.skipped == done.skipped + limbo.skipped + plan.skipped
    && after.duplicates == done.duplicates + limbo.duplicates + plan.duplicates
  }

  /** A record of a segment lies at one place of one segment. */
  lemma OnePlace(g: Log, a: nat, i: nat, b: nat, j: nat)
    requires Births(g) && a in g.wal && b in g.wal && i < |Recs(g.wal[a])| && j < |Recs(g.wal[b])|
    requires Recs(g.wal[a])[i] == Recs(g.wal[b])[j]
    ensures a == b && i == j
  {
    var r := Recs(g.wal[a])[i];
    assert InOrder(g.wal[a]) && InOrder(g.wal[b]) && r in Recs(g.wal[a]) && r in Recs(g.wal[b]);
  }

  /** Some record of the segment up to this one is damaged. */
  ghost predicate DamagedUpTo(recs: seq<Rec>, damaged: set<Rec>, i: nat) {
    exists j :: 0 <= j <= i && j < |recs| && recs[j] in damaged
  }

  lemma LeftFrom(recs: seq<Rec>, damaged: set<Rec>, n: nat, i: nat)
    requires n <= |recs| && Leading(recs, damaged, recs[..n]) && i < |recs|
    ensures n <= i <==> DamagedUpTo(recs, damaged, i)
  {
    forall j | 0 <= j < n ensures recs[j] !in damaged { assert recs[..n][j] == recs[j]; }
  }

  /**
   * What a flush that meets no failure achieves: every record of every sealed segment it can read gets its
   * verdict. It is skipped exactly if a record up to it in its segment is damaged, rejected exactly if it
   * is not skipped and does not match its schema, and otherwise it or an equal one is in a file.
   */
  lemma FlushResolves(g: Log, ids: set<nat>, movable: nat -> bool, h: Log, consumed: set<nat>, first: nat, last: nat,
                      plan: Plan, id: nat, i: nat)
    requires Births(g) && DecodedTo(g, ids, movable, h, consumed) && PlanOf(h, consumed, first, last, plan)
    requires id in ids && id in g.wal && g.wal[id].header.Sound?
    requires !Blocked(g, ids, movable, id) && i < |Recs(g.wal[id])|
    ensures var recs := Recs(g.wal[id]);
            && (recs[i] in plan.skipped <==> DamagedUpTo(recs, g.damaged, i))
            && (recs[i] in plan.rejected <==> !DamagedUpTo(recs, g.damaged, i) && !recs[i].accepted)
            && (!DamagedUpTo(recs, g.damaged, i) && recs[i].accepted ==>
                  exists k, w :: k in plan.files && w in plan.files[k] && (w == recs[i] || w.key == recs[i].key))
  {
    hide PlanOnce, Least, Greatest, Births, Leading, DamagedUpTo;
    var recs, r := Recs(g.wal[id]), Recs(g.wal[id])[i];
    var n := h.wal[id].read.count;
    assert ReadOf(g.wal[id], g.damaged, h.wal[id]) && Recs(h.wal[id]) == recs;
    LeftFrom(recs, g.damaged, n, i);
    assert Consumed(h, consumed, r) && Resolved(plan, r);
    forall x | x in consumed && x in h.wal && LeftBehind(h.wal[x], r) ensures n <= i {
      var k :| h.wal[x].read.count <= k < |Recs(h.wal[x])| && Recs(h.wal[x])[k] == r;
      OnePlace(g, id, i, x, k);
    }
    if n <= i { assert LeftBehind(h.wal[id], r); }
    if i < n && r.accepted {
      var at :| PlanAt(plan, r, at);
      if at.InFile? {
        assert at.key in plan.files && r in plan.files[at.key];
      } else {
        assert HasTwin(plan.files, r);
        var k, w :| k in plan.files && w in plan.files[k] && w.key == r.key && w != r;
        assert k in plan.files && w in plan.files[k];
      }
    }
  }

  // ---- the directory -----------------------------------------------------------------------

  class DataDir {
    var log: Log
    var store: Store
    var mem: Mem
    /** What happened to the directory. */
    ghost var states: seq<State>
    ghost var steps: seq<Step>

    function Now(): State
      reads this
    {
      State(log, store, mem)
    }

    ghost predicate Valid()
      reads this
    {
      Inv(Now()) && Path(states, steps) && states[|steps|] == Now()
    }

    /** The directory takes a step. */
    method Become(t: State, ghost step: Step)
      requires Valid() && !step.Export? && Enabled(Now(), step) && t == Apply(Now(), step)
      modifies this
      ensures Valid() && Now() == t && steps == old(steps) + [step]
    {
      hide Inv, Enabled, Apply;
      PathOn(states, steps, step);
      StepKeeps(Now(), step);
      log, store, mem := t.log, t.store, t.mem;
      states, steps := states + [t], steps + [step];
    }

    lemma Holds()
      requires Valid()
      ensures Inv(Now())
    {
    }

    /** Promote staged files the watermark covers, delete the others, and delete uncovered files in `series/`. */
    method SweepUncommitted()
      requires Valid() && InSweep(Now())
      modifies this
      ensures Valid() && log == old(log) && mem == old(mem) && Swept(Now()) && old(steps) <= steps
      ensures forall i :: |old(steps)| <= i < |steps| ==> steps[i].SweepFile? || steps[i].SweepOrphan?
      ensures store.tmp == map[] && store.exported == old(store.exported)
      ensures forall k :: k in store.published <==>
                k.last <= Floor(Now()) && (k in old(store.tmp) || k in old(store.published))
      ensures forall k :: k in store.published ==>
                store.published[k] == if k in old(store.tmp) then old(store.tmp)[k] else old(store.published)[k]
    {
      hide Valid, Enabled, Apply;
      var floor := Floor(Now());
      while store.tmp.Keys != {}
        invariant Valid() && log == old(log) && mem == old(mem)
        invariant Settle(store, floor) == Settle(old(store), floor) && old(steps) <= steps
        invariant forall i :: |old(steps)| <= i < |steps| ==> steps[i].SweepFile? || steps[i].SweepOrphan?
        invariant store.exported == old(store.exported)
        decreases store.tmp.Keys
      {
        var k :| k in store.tmp;
        SweepOne(Now(), k);
        var st := if k.last <= floor then Promote(store, k) else store.(tmp := store.tmp - {k});
        Become(Now().(store := st), SweepFile(k));
      }
      assert store.tmp == map[];
      while exists k :: k in store.published && k.last > floor
        invariant Valid() && log == old(log) && mem == old(mem) && old(steps) <= steps
        invariant store.tmp == map[] && store.exported == old(store.exported)
        invariant forall i :: |old(steps)| <= i < |steps| ==> steps[i].SweepFile? || steps[i].SweepOrphan?
        invariant Settle(store, floor) == Settle(old(store), floor)
        decreases store.published.Keys
      {
        var k :| k in store.published && k.last > floor;
        OrphanOne(Now(), k);
        Become(Now().(store := store.(published := store.published - {k})), SweepOrphan(k));
      }
      assert store.published == Settle(store, floor);
    }

    static lemma SweepOne(s: State, k: Key)
      requires InSweep(s) && k in s.store.tmp
      ensures var st := if k.last <= Floor(s) then Promote(s.store, k) else s.store.(tmp := s.store.tmp - {k});
              && Enabled(s, SweepFile(k)) && Apply(s, SweepFile(k)) == s.(store := st)
              && Settle(st, Floor(s)) == Settle(s.store, Floor(s)) && st.tmp.Keys < s.store.tmp.Keys
    {
    }

    static lemma OrphanOne(s: State, k: Key)
      requires InSweep(s) && k in s.store.published && k.last > Floor(s) && s.store.tmp == map[]
      ensures var st := s.store.(published := s.store.published - {k});
              && Enabled(s, SweepOrphan(k)) && Apply(s, SweepOrphan(k)) == s.(store := st)
              && Settle(st, Floor(s)) == Settle(s.store, Floor(s)) && st.published.Keys < s.store.published.Keys
    {
    }

    // ---- recovery ------------------------------------------------------------------------

    /**
     * Delete what is flushed, settle the tail, and say which id the writer opens; `torn` if a partial
     * frame ends the tail. A tail of another format version stops the start and is left as it is.
     */
    method Recover(torn: bool) returns (started: bool, next: nat)
      requires Valid() && mem.Starting? && Swept(Now())
      modifies this
      ensures Valid() && mem == (if started then Opening(next) else Down) && store == old(store) && old(steps) <= steps
      ensures started <==> !Refused(old(log))
      ensures next > old(log.watermark) && forall id :: id in old(log.wal) ==> id < next
      ensures next == old(log.watermark) + 1 || next - 1 in old(log.wal)
      ensures RecoveryOf(old(log), torn, log)
    {
      hide Valid, Enabled, Apply, Amended, TailSettled;
      var highest := log.watermark;
      if log.wal.Keys != {} {
        var top := Greater(log.wal.Keys);
        if top > highest { highest := top; }
      }
      next := highest + 1;
      RecoverBegins(Now(), next);
      Become(Now().(mem := Pruning(next)), Step.Recover(next));
      PruneFlushed();
      started := SettleTail(torn, old(log));
    }

    /** Unlink what the watermark covers. */
    method PruneFlushed()
      requires Valid() && mem.Pruning?
      modifies this
      ensures Valid() && mem == Amending(old(mem.next)) && store == old(store) && old(steps) <= steps
      ensures log == Pruned(old(log))
    {
      hide Valid, Enabled, Apply;
      ghost var was := log;
      PrunedSame(log);
      while exists id :: id in log.wal && id <= log.watermark
        invariant Valid() && mem == old(mem) && store == old(store) && old(steps) <= steps
        invariant log == was.(wal := log.wal) && Pruned(log) == Pruned(was)
        decreases log.wal.Keys
      {
        var id :| id in log.wal && id <= log.watermark;
        PruneOne(Now(), id);
        Become(Now().(log := RemoveSegment(log, id)), Prune(id));
      }
      AllPruned(log);
      PruneEnds(Now());
      Become(Now().(mem := Amending(mem.next)), PruneDone);
    }

    /** Settle the newest segment, if there is one. */
    method SettleTail(torn: bool, ghost was: Log) returns (started: bool)
      requires Valid() && mem.Amending? && log == Pruned(was)
      modifies this
      ensures Valid() && mem == (if started then Opening(old(mem.next)) else Down) && store == old(store)
      ensures old(steps) <= steps && (started <==> !Refused(was)) && RecoveryOf(was, torn, log)
    {
      hide Valid, Enabled, Apply, Amended, TailSettled, Inv;
      if log.wal.Keys == {} {
        NoTail(Now());
        NothingAbove(was, log);
        Become(Now().(mem := Opening(mem.next)), AmendKeep);
        return true;
      }
      var tail := Greater(log.wal.Keys);
      TailIsLast(was, tail);
      OneLast(was, tail);
      Holds();
      InvOrder(Now(), tail);
      AmendedSettles(log, tail, torn);
      ghost var step := AmendOne(Now(), tail, torn);
      started := !log.wal[tail].header.Foreign?;
      if started {
        Become(Now().(log := Amended(log, tail, torn), mem := Opening(mem.next)), step);
      } else {
        ForeignIsKept(log, tail, torn);
        Become(Now().(mem := Down), step);
      }
    }

    static lemma RecoverBegins(s: State, next: nat)
      requires s.mem.Starting? && Swept(s) && IsNext(s.log, next)
      ensures Enabled(s, Step.Recover(next)) && Apply(s, Step.Recover(next)) == s.(mem := Pruning(next))
    {
    }

    static lemma PruneEnds(s: State)
      requires s.mem.Pruning? && forall id :: id in s.log.wal ==> id > s.log.watermark
      ensures Enabled(s, PruneDone) && Apply(s, PruneDone) == s.(mem := Amending(s.mem.next))
    {
    }

    static lemma NoTail(s: State)
      requires s.mem.Amending? && s.log.wal.Keys == {}
      ensures Enabled(s, AmendKeep) && Apply(s, AmendKeep) == s.(mem := Opening(s.mem.next))
    {
      assert s.log.wal == map[];
    }

    static lemma PrunedSame(g: Log)
      ensures Pruned(g).watermark == g.watermark && g == g.(wal := g.wal)
    {
    }

    static lemma PruneOne(s: State, id: nat)
      requires s.mem.Pruning? && id in s.log.wal && id <= s.log.watermark
      ensures var g := RemoveSegment(s.log, id);
              && Enabled(s, Prune(id)) && Apply(s, Prune(id)) == s.(log := g)
              && Pruned(g) == Pruned(s.log) && g.wal.Keys < s.log.wal.Keys
    {
      assert Pruned(RemoveSegment(s.log, id)).wal == Pruned(s.log).wal;
    }

    static lemma NothingAbove(g: Log, h: Log)
      requires h == Pruned(g) && h.wal.Keys == {}
      ensures !Refused(g) && forall torn :: RecoveryOf(g, torn, h)
    {
      assert h.wal == map[];
      assert forall id :: id in g.wal && id > g.watermark ==> id in h.wal.Keys;
    }

    static lemma TailIsLast(g: Log, id: nat)
      requires Greatest(Pruned(g).wal.Keys, id)
      ensures IsLast(g, id)
    {
      forall i | i in g.wal ensures i <= id {
        if i > g.watermark { assert i in Pruned(g).wal.Keys; }
      }
    }

    static lemma OneLast(g: Log, id: nat)
      requires IsLast(g, id)
      ensures forall i :: IsLast(g, i) ==> i == id
    {
    }

    static lemma InvOrder(s: State, id: nat)
      requires Inv(s) && id in s.log.wal
      ensures InOrder(s.log.wal[id])
    {
      hide MemOk, FilesOk, Once, Kept, Settled, Fresh, SegmentsOk, Justified;
    }

    /** Settling the tail is one step. */
    static lemma AmendOne(s: State, id: nat, torn: bool) returns (step: Step)
      requires s.mem.Amending? && IsTail(s, id)
      ensures !step.Export? && Enabled(s, step)
      ensures Apply(s, step) ==
                if s.log.wal[id].header.Foreign? then s.(mem := Down)
                else s.(log := Amended(s.log, id, torn), mem := Opening(s.mem.next))
    {
      match s.log.wal[id].header {
        case Foreign => step := AmendRefuse(id);
        case Short => step := AmendDrop(id);
        case Damaged => step := AmendQuarantine(id);
        case Sound => step := AmendSound(s, id, torn);
      }
    }

    static lemma AmendSound(s: State, id: nat, torn: bool) returns (step: Step)
      requires s.mem.Amending? && IsTail(s, id) && s.log.wal[id].header.Sound?
      ensures !step.Export? && Enabled(s, step)
      ensures Apply(s, step) == s.(log := Amended(s.log, id, torn), mem := Opening(s.mem.next))
    {
      var recs := Recs(s.log.wal[id]);
      FirstBadIs(recs, s.log.damaged);
      var n := FirstBad(recs, s.log.damaged);
      if n < |recs| {
        step := AmendCut(id, n);
      } else {
        assert recs[..n] == recs;
        assert CleanTail(s, id);
        step := if torn then AmendSync(id) else AmendKeep;
      }
    }

    // ---- the flush --------------------------------------------------------------------------

    /**
     * List `wal/`, choose what lies between the watermark and the active segment, sweep after a failure, and
     * read it.
     */
    method BeginFlush(movable: nat -> bool) returns (consumed: set<nat>)
      requires Valid() && mem.Up? && mem.phase.Idle?
      modifies this
      ensures Valid() && mem == old(mem).(phase := Decoding({}, consumed)) && old(steps) <= steps
      ensures store.tmp == map[] && store.exported == old(store.exported)
      ensures forall k :: k in store.published ==> k in old(store.tmp) || k in old(store.published)
      ensures var ids := (set id | id in old(log.wal) && old(mem.watermark) < id < old(mem.active));
              DecodedTo(old(log), ids, movable, log, consumed)
    {
      hide Valid, Inv, Enabled, Apply, DecodedTo;
      Holds();
      IdleStore(Now());
      Lists(Now());
      Become(Now().(mem := mem.(phase := Listed(log.wal.Keys))), List);
      var ids := set id | id in log.wal && mem.watermark < id < mem.active;
      assert ids == Consumable(log.wal.Keys, mem.watermark, mem.active);
      Selects(Now());
      Become(Now().(mem := mem.(phase := if mem.failed then Sweeping(ids) else Decoding(ids, {}))), Select);
      if mem.failed {
        SweepUncommitted();
        SweepEnds(Now());
        Become(Now().(mem := mem.(phase := Decoding(ids, {}))), SweepDone);
      }
      consumed := DecodeAll(movable);
    }

    static lemma IdleStore(s: State)
      requires Inv(s) && s.mem.Up? && s.mem.phase.Idle?
      ensures !s.mem.failed ==> s.store.tmp == map[]
    {
      hide Good, FilesOk;
    }

    static lemma Lists(s: State)
      requires s.mem.Up? && s.mem.phase.Idle?
      ensures Enabled(s, List) && Apply(s, List) == s.(mem := s.mem.(phase := Listed(s.log.wal.Keys)))
    {
    }

    static lemma Selects(s: State)
      requires s.mem.Up? && s.mem.phase.Listed?
      ensures var ids := Consumable(s.mem.phase.pending, s.mem.watermark, s.mem.active);
              && Enabled(s, Select)
              && Apply(s, Select) == s.(mem := s.mem.(phase := if s.mem.failed then Sweeping(ids)
                   else Decoding(ids, {})))
    {
    }

    static lemma SweepEnds(s: State)
      requires s.mem.Up? && s.mem.phase.Sweeping? && Swept(s)
      ensures Enabled(s, SweepDone)
      ensures Apply(s, SweepDone) == s.(mem := s.mem.(phase := Decoding(s.mem.phase.consumable, {})))
    {
    }

    /**
     * Read the consumable segments in order. An unreadable one is moved aside; if that fails the flush
     * stops in front of it. `movable` answers whether a rename succeeds.
     */
    method DecodeAll(movable: nat -> bool) returns (consumed: set<nat>)
      requires Valid() && mem.Up? && mem.phase.Decoding? && mem.phase.consumed == {}
      modifies this
      ensures Valid() && mem == old(mem).(phase := Decoding({}, consumed)) && store == old(store) && old(steps) <= steps
      ensures DecodedTo(old(log), old(mem.phase.remaining), movable, log, consumed)
    {
      hide Valid, Inv, Enabled, Apply, DecodedTo, AllPass;
      consumed := {};
      ghost var all, done := mem.phase.remaining, {};
      Holds();
      RemainingThere(Now());
      NothingDecoded(log, movable);
      while mem.phase.remaining != {}
        invariant Valid() && mem.Up? && mem.phase.Decoding? && mem.phase.consumed == consumed && store == old(store)
        invariant mem == old(mem).(phase := mem.phase) && old(steps) <= steps
        invariant done == all - mem.phase.remaining && mem.phase.remaining <= all
        invariant forall i, j :: i in done && j in mem.phase.remaining ==> i < j
        invariant DecodedTo(old(log), done, movable, log, consumed) && AllPass(old(log), done, movable)
        decreases mem.phase.remaining
      {
        var id := Lesser(mem.phase.remaining);
        Unread(old(log), done, movable, log, consumed, id);
        var rest := mem.phase.remaining - {id};
        if log.wal[id].header.Sound? {
          ReadMore(old(log), done, movable, log, consumed, id);
          consumed := consumed + {id};
          Decodes(Now(), id);
          Become(Now().(log := MarkRead(log, id), mem := mem.(phase := Decoding(rest, consumed))), Decode(id));
        } else if movable(id) {
          MoveMore(old(log), done, movable, log, consumed, id);
          SetsAside(Now(), id);
          Become(Now().(log := QuarantineSegment(log, id), mem := mem.(phase := Decoding(rest, consumed))),
            SetAside(id));
        } else {
          StoppedAt(old(log), all, done, movable, log, consumed, id);
          Stops(Now(), id);
          Become(Now().(mem := mem.(phase := Decoding({}, consumed))), StopAt(id));
          return;
        }
        done := done + {id};
      }
      assert done == all;
    }

    static lemma Unread(g: Log, done: set<nat>, movable: nat -> bool, h: Log, consumed: set<nat>, id: nat)
      requires DecodedTo(g, done, movable, h, consumed) && id !in done && id in g.wal
      ensures id in h.wal && h.wal[id] == g.wal[id]
    {
    }

    static lemma RemainingThere(s: State)
      requires Inv(s) && s.mem.Up? && s.mem.phase.Decoding?
      ensures s.mem.phase.remaining <= s.log.wal.Keys
    {
    }

    static lemma Decodes(s: State, id: nat)
      requires s.mem.Up? && s.mem.phase.Decoding? && Least(s.mem.phase.remaining, id)
      requires id in s.log.wal && s.log.wal[id].header.Sound?
      ensures Enabled(s, Decode(id))
      ensures Apply(s, Decode(id)) ==
                s.(log := MarkRead(s.log, id),
                   mem := s.mem.(phase := Decoding(s.mem.phase.remaining - {id}, s.mem.phase.consumed + {id})))
    {
    }

    static lemma SetsAside(s: State, id: nat)
      requires s.mem.Up? && s.mem.phase.Decoding? && Least(s.mem.phase.remaining, id) && Unreadable(s.log, id)
      ensures Enabled(s, SetAside(id))
      ensures Apply(s, SetAside(id)) ==
                s.(log := QuarantineSegment(s.log, id),
                   mem := s.mem.(phase := Decoding(s.mem.phase.remaining - {id}, s.mem.phase.consumed)))
    {
    }

    static lemma Stops(s: State, id: nat)
      requires s.mem.Up? && s.mem.phase.Decoding? && Least(s.mem.phase.remaining, id) && Unreadable(s.log, id)
      ensures Enabled(s, StopAt(id))
      ensures Apply(s, StopAt(id)) == s.(mem := s.mem.(phase := Decoding({}, s.mem.phase.consumed)))
    {
    }

    /** Carry out a plan for what was read: stage its files, commit, publish them and delete the segments. */
    method CompleteFlush(first: nat, last: nat, plan: Plan)
      requires Valid() && mem.Up? && mem.phase.Decoding? && mem.phase.remaining == {}
      requires PlanOf(log, mem.phase.consumed, first, last, plan)
      modifies this
      ensures Valid() && mem == Up(last, old(mem.active), false, NOTHING, Idle) && old(steps) <= steps
      ensures log == old(log).(watermark := last, done := log.done, wal := old(log.wal) - old(mem.phase.consumed))
      ensures Adds(old(log.done), old(mem.limbo), plan, log.done)
      ensures store.tmp == map[] && store.exported == old(store.exported)
      ensures store.published == old(store.published) + plan.files
    {
      hide Valid, Inv, Enabled, Apply, PlanOf;
      Holds();
      NothingStaged(Now());
      Plans(Now(), first, last, plan);
      var ids := mem.phase.consumed;
      Become(Now().(mem := mem.(phase := Staging(ids, last, plan, {}))), MakePlan(first, last, plan));
      var staged := {};
      while plan.files.Keys - staged != {}
        invariant Valid() && mem == old(mem).(phase := Staging(ids, last, plan, staged))
        invariant staged <= plan.files.Keys && old(steps) <= steps
        invariant log == old(log) && store == old(store).(tmp := store.tmp) && store.tmp.Keys == staged
        invariant forall k :: k in store.tmp ==> store.tmp[k] == plan.files[k]
        decreases plan.files.Keys - staged
      {
        var k :| k in plan.files.Keys - staged;
        staged := staged + {k};
        StagesOne(Now(), k);
        Become(Now().(store := store.(tmp := store.tmp[k := plan.files[k]]),
          mem := mem.(phase := Staging(ids, last, plan, staged))),
               Stage(k));
      }
      assert staged == plan.files.Keys && store.tmp == plan.files;
      Commits(Now());
      FinishFlush();
    }

    static lemma NothingStaged(s: State)
      requires Inv(s) && s.mem.Up? && s.mem.phase.Decoding?
      ensures s.store.tmp == map[]
    {
      hide Good, FilesOk;
    }

    static lemma Plans(s: State, first: nat, last: nat, plan: Plan)
      requires s.mem.Up? && s.mem.phase.Decoding? && s.mem.phase.remaining == {}
      requires PlanOf(s.log, s.mem.phase.consumed, first, last, plan)
      ensures Enabled(s, MakePlan(first, last, plan))
      ensures Apply(s, MakePlan(first, last, plan))
                == s.(mem := s.mem.(phase := Staging(s.mem.phase.consumed, last, plan, {})))
    {
      hide PlanOf;
    }

    static lemma StagesOne(s: State, k: Key)
      requires s.mem.Up? && s.mem.phase.Staging? && k in s.mem.phase.plan.files
      ensures Enabled(s, Stage(k))
      ensures Apply(s, Stage(k)) ==
                s.(store := s.store.(tmp := s.store.tmp[k := s.mem.phase.plan.files[k]]),
                   mem := s.mem.(phase := s.mem.phase.(staged := s.mem.phase.staged + {k})))
    {
    }

    static lemma Commits(s: State)
      requires s.mem.Up? && s.mem.phase.Staging? && s.mem.phase.staged == s.mem.phase.plan.files.Keys
      ensures Enabled(s, CommitOk)
      ensures Apply(s, CommitOk) ==
                s.(log := Moved(s),
                   mem := s.mem.(watermark := s.mem.phase.last, limbo := NOTHING, phase := Promoting(s.mem.phase.ids)))
    {
    }

    /** Nothing was in what was read: no file, no manifest write, and the segments stay. */
    method EndEmpty()
      requires Valid() && mem.Up? && mem.phase.Decoding? && mem.phase.remaining == {}
      requires forall id :: id in mem.phase.consumed && id in log.wal ==> Recs(log.wal[id]) == []
      modifies this
      ensures Valid() && mem == old(mem).(failed := false, phase := Idle) && log == old(log) && store == old(store)
    {
      hide Valid, Enabled, Apply, Recs;
      NothingThere(Now());
      Become(Now().(mem := mem.(failed := false, phase := Idle)), NothingToDo);
    }

    static lemma NothingThere(s: State)
      requires s.mem.Up? && s.mem.phase.Decoding? && s.mem.phase.remaining == {}
      requires forall id :: id in s.mem.phase.consumed && id in s.log.wal ==> Recs(s.log.wal[id]) == []
      ensures Enabled(s, NothingToDo) && Apply(s, NothingToDo) == s.(mem := s.mem.(failed := false, phase := Idle))
    {
    }

    /** The commit point and everything after it: promote what was staged, then delete what was consumed. */
    method FinishFlush()
      requires Valid() && Enabled(Now(), CommitOk)
      modifies this
      ensures Valid() && mem == Up(old(mem.phase.last), old(mem.active), false, NOTHING, Idle) && old(steps) <= steps
      ensures log == old(log).(watermark := old(mem.phase.last), done := log.done,
                wal := old(log.wal) - old(mem.phase.ids))
      ensures Adds(old(log.done), old(mem.limbo), old(mem.phase.plan), log.done)
      ensures store.tmp == map[] && store.published == old(store.published) + old(store.tmp)
      ensures store.exported == old(store.exported)
    {
      hide Valid, Enabled, Apply;
      StagedPhase(Now());
      Commits(Now());
      MovedIs(Now());
      var ids := mem.phase.ids;
      Become(Now().(log := Moved(Now()),
        mem := mem.(watermark := mem.phase.last, limbo := NOTHING, phase := Promoting(ids))),
             CommitOk);
      PromoteAll();
      DeleteAll();
    }

    method PromoteAll()
      requires Valid() && mem.Up? && mem.phase.Promoting?
      modifies this
      ensures Valid() && mem == old(mem).(phase := Deleting(old(mem.phase.ids)))
      ensures log == old(log) && old(steps) <= steps
      ensures store == Store(map[], old(store.published) + old(store.tmp), old(store.exported))
    {
      hide Valid, Enabled, Apply;
      while store.tmp.Keys != {}
        invariant Valid() && log == old(log) && mem == old(mem) && old(steps) <= steps
        invariant store.published + store.tmp == old(store.published) + old(store.tmp)
        invariant store.exported == old(store.exported)
        decreases store.tmp.Keys
      {
        var k :| k in store.tmp;
        PromoteOne(Now(), k);
        Become(Now().(store := Promote(store, k)), PromoteFile(k));
      }
      assert store.tmp == map[];
      Promoted(Now());
      Become(Now().(mem := mem.(phase := Deleting(mem.phase.ids))), PromoteDone);
    }

    method DeleteAll()
      requires Valid() && mem.Up? && mem.phase.Deleting?
      modifies this
      ensures Valid() && mem == old(mem).(failed := false, phase := Idle) && store == old(store) && old(steps) <= steps
      ensures log == old(log).(wal := old(log.wal) - old(mem.phase.ids))
    {
      hide Valid, Enabled, Apply;
      var ids := mem.phase.ids;
      assert log.wal - {} == log.wal;
      while mem.phase.ids != {}
        invariant Valid() && mem.Up? && mem.phase.Deleting? && mem == old(mem).(phase := mem.phase)
        invariant store == old(store) && old(steps) <= steps
        invariant mem.phase.ids <= ids && log == old(log).(wal := old(log.wal) - (ids - mem.phase.ids))
        decreases mem.phase.ids
      {
        var id :| id in mem.phase.ids;
        DeleteOne(Now(), id, old(log), ids);
        Become(Now().(log := RemoveSegment(log, id), mem := mem.(phase := Deleting(mem.phase.ids - {id}))), Unlink(id));
      }
      Deleted(Now());
      Become(Now().(mem := mem.(failed := false, phase := Idle)), FlushDone);
    }

    static lemma StagedPhase(s: State)
      requires Enabled(s, CommitOk)
      ensures s.mem.Up? && s.mem.phase.Staging? && s.mem.phase.staged == s.mem.phase.plan.files.Keys
    {
    }

    static lemma MovedIs(s: State)
      requires s.mem.Up? && s.mem.phase.Staging?
      ensures Moved(s) == s.log.(watermark := s.mem.phase.last, done := Moved(s).done)
      ensures Adds(s.log.done, s.mem.limbo, s.mem.phase.plan, Moved(s).done)
    {
    }

    static lemma PromoteOne(s: State, k: Key)
      requires s.mem.Up? && s.mem.phase.Promoting? && k in s.store.tmp
      ensures var st := Promote(s.store, k);
              && Enabled(s, PromoteFile(k)) && Apply(s, PromoteFile(k)) == s.(store := st)
              && st.published + st.tmp == s.store.published + s.store.tmp && st.tmp.Keys < s.store.tmp.Keys
    {
    }

    static lemma Promoted(s: State)
      requires s.mem.Up? && s.mem.phase.Promoting? && s.store.tmp == map[]
      ensures Enabled(s, PromoteDone)
      ensures Apply(s, PromoteDone) == s.(mem := s.mem.(phase := Deleting(s.mem.phase.ids)))
    {
    }

    static lemma DeleteOne(s: State, id: nat, moved: Log, ids: set<nat>)
      requires s.mem.Up? && s.mem.phase.Deleting? && id in s.mem.phase.ids
      requires s.mem.phase.ids <= ids && s.log == moved.(wal := moved.wal - (ids - s.mem.phase.ids))
      ensures Enabled(s, Unlink(id))
      ensures Apply(s, Unlink(id)) ==
                s.(log := RemoveSegment(s.log, id), mem := s.mem.(phase := Deleting(s.mem.phase.ids - {id})))
      ensures RemoveSegment(s.log, id) == moved.(wal := moved.wal - (ids - (s.mem.phase.ids - {id})))
    {
    }

    static lemma Deleted(s: State)
      requires s.mem.Up? && s.mem.phase.Deleting? && s.mem.phase.ids == {}
      ensures Enabled(s, FlushDone) && Apply(s, FlushDone) == s.(mem := s.mem.(failed := false, phase := Idle))
    {
    }
  }
}
