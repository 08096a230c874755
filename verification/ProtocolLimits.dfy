/**
 * Two runs that show the run theorems' conditions are needed: an outside agent
 * that takes a file before the manifest on disk covers it, and a segment id
 * quarantined twice.
 */
module ProtocolLimits {
  import opened Ledger
  import opened Commit
  import opened Protocol
  import opened ProtocolSafety
  import opened ProtocolRuns

  ghost predicate Reachable(s: State) {
    exists states, steps :: Run(states, steps) && states[|steps|] == s
  }

  lemma Reach(s: State, step: Step)
    requires Reachable(s) && Enabled(s, step)
    ensures Reachable(Apply(s, step))
  {
    hide Enabled, Apply;
    var states, steps :| Run(states, steps) && states[|steps|] == s;
    var a, b := states + [Apply(s, step)], steps + [step];
    assert forall i :: 0 <= i < |states| ==> a[i] == states[i];
    assert forall i :: 0 <= i < |steps| ==> b[i] == steps[i];
    assert Run(a, b) && a[|b|] == Apply(s, step);
  }

  /** An empty segment with birth number `born`. */
  function Empty(born: nat): Segment { Segment(Sound, born, [], [], Unread) }

  const STORE: Store := Store(map[], map[], [])

  /** A fresh engine, its active segment numbered `id`. */
  function Opened(g: Log, id: nat): State {
    State(g, STORE, Up(g.watermark, id, false, NOTHING, Idle))
  }

  /** From a stopped engine with an empty, swept directory tree to an open one. */
  lemma Reopens(g: Log)
    requires Reachable(State(g, STORE, Down)) && g.wal == map[]
    ensures Reachable(Opened(g.(wal := map[g.watermark + 1 := Empty(g.next)], next := g.next + 1), g.watermark + 1))
  {
    hide Reachable;
    var next := g.watermark + 1;
    Reach(State(g, STORE, Down), Start);
    Reach(State(g, STORE, Starting), Recover(next));
    Reach(State(g, STORE, Pruning(next)), PruneDone);
    Reach(State(g, STORE, Amending(next)), AmendKeep);
    Reach(State(g, STORE, Opening(next)), Open);
    assert g.wal[next := Empty(g.next)] == map[next := Empty(g.next)];
  }

  lemma InitReachable()
    ensures Reachable(INIT)
  {
    var states: seq<State>, steps: seq<Step> := [INIT], [];
    assert Run(states, steps) && states[|steps|] == INIT;
  }

  // ---- a file taken too early ---------------------------------------------------------------

  const R: Rec := Rec(1, 0, 0, true)
  const K: Key := Key(0, 1, 1)
  const P: Plan := Plan(map[K := {R}], {}, {}, {})

  function Sealed(read: Reading): Log {
    Log(map[1 := Segment(Sound, 0, [R], [], read), 2 := Empty(2)], map[], 0, NOTHING, 3, {R}, {}, {})
  }

  function Flushing(read: Reading, tmp: map<Key, set<Rec>>, failed: bool, phase: Phase): State {
    State(Sealed(read), Store(tmp, map[], []), Up(0, 2, failed, NOTHING, phase))
  }

  lemma SealedReachable()
    ensures Reachable(Flushing(Unread, map[], false, Idle))
  {
    hide Reachable;
    InitReachable();
    Reopens(INIT.log);
    var g := INIT.log.(wal := map[1 := Empty(0)], next := 1);
    Reach(Opened(g, 1), Append(R));
    var h := g.(wal := map[1 := Segment(Sound, 0, [], [R], Unread)], next := 2);
    assert AppendRec(g, 1, R) == h by { assert [] + [R] == [R]; assert g.wal[1 := h.wal[1]] == h.wal; }
    Reach(Opened(h, 1), Roll);
    assert Set([R]) == {R} && {} + {R} == {R};
    assert CreateSegment(SyncSegment(h, 1), 2, Sound) == Sealed(Unread) by {
      assert [] + [R] == [R];
    }
  }

  lemma TakesOne()
    ensures FirstBad(Recs(Sealed(Unread).wal[1]), {}) == 1
  {
    assert Recs(Sealed(Unread).wal[1]) == [R] && [R][1..] == [];
  }

  lemma PlanOfOne()
    ensures PlanOf(Sealed(Took(1)), {1}, 1, 1, P)
  {
    var g := Sealed(Took(1));
    assert Recs(g.wal[1]) == [R];
    forall r ensures Consumed(g, {1}, r) <==> Resolved(P, r) {
      if r == R { assert PlanAt(P, R, InFile(K)); }
    }
  }

  lemma SelectedReachable()
    ensures Reachable(Flushing(Unread, map[], false, Decoding({1}, {})))
  {
    hide Reachable, Consumable;
    SealedReachable();
    Reach(Flushing(Unread, map[], false, Idle), List);
    assert Sealed(Unread).wal.Keys == {1, 2};
    Reach(Flushing(Unread, map[], false, Listed({1, 2})), Select);
    OnlyFirst();
  }

  lemma OnlyFirst()
    ensures Consumable({1, 2}, 0, 2) == {1} && Consumable({1, 2}, 1, 2) == {}
  {
  }

  lemma StagedReachable()
    ensures Reachable(Flushing(Took(1), map[K := {R}], false, Staging({1}, 1, P, {K})))
  {
    hide Reachable, PlanOf, CleanTail, CrashOf, Recs, IsNext, Greatest;
    SelectedReachable();
    Reach(Flushing(Unread, map[], false, Decoding({1}, {})), Decode(1));
    assert MarkRead(Sealed(Unread), 1) == Sealed(Took(1)) by { TakesOne(); }
    assert {1} - {1} == {} && {} + {1} == {1};
    PlanOfOne();
    Reach(Flushing(Took(1), map[], false, Decoding({}, {1})), MakePlan(1, 1, P));
    Reach(Flushing(Took(1), map[], false, Staging({1}, 1, P, {})), Stage(K));
    assert {} + {K} == {K} && map[][K := {R}] == map[K := {R}];
  }

  /** The engine after a manifest write that failed while the process carried on. */
  function Lost(tmp: map<Key, set<Rec>>, published: map<Key, set<Rec>>, out: seq<(Key, set<Rec>)>,
                phase: Phase): State {
    State(Sealed(Took(1)), Store(tmp, published, out), Up(1, 2, true, P, phase))
  }

  lemma LostReachable()
    ensures Reachable(Lost(map[K := {R}], map[], [], Sweeping({})))
  {
    hide Reachable, Consumable;
    StagedReachable();
    Reach(Flushing(Took(1), map[K := {R}], false, Staging({1}, 1, P, {K})), CommitError(false));
    assert Join(NOTHING, P) == P;
    Reach(Lost(map[K := {R}], map[], [], Idle), List);
    assert Sealed(Took(1)).wal.Keys == {1, 2};
    Reach(Lost(map[K := {R}], map[], [], Listed({1, 2})), Select);
    OnlyFirst();
  }

  /**
   * A manifest write fails, the process goes on, its next sweep publishes the staged file under the
   * watermark it holds in memory, and the agent takes it. The record is now both out and in a live
   * segment, which a restart will flush again.
   */
  lemma TakenTooEarly() returns (s: State)
    ensures Reachable(s)
    ensures Lies(s, R, Live(1)) && Lies(s, R, File(K, Exported(0)))
  {
    hide Reachable;
    LostReachable();
    Reach(Lost(map[K := {R}], map[], [], Sweeping({})), SweepFile(K));
    assert map[K := {R}] - {K} == map[] && map[][K := {R}] == map[K := {R}];
    Reach(Lost(map[], map[K := {R}], [], Sweeping({})), Export(K));
    assert [] + [(K, {R})] == [(K, {R})];
    s := Lost(map[], map[], [(K, {R})], Sweeping({}));
  }

  ghost predicate TwoSpots(s: State) {
    exists r, a, b :: Lies(s, r, a) && Lies(s, r, b) && a != b
  }

  /** Some record of the file also has a spot of its own. */
  ghost predicate Elsewhere(s: State, k: Key)
    requires k in s.store.published
  {
    exists r, a :: r in s.store.published[k] && Lies(s, r, a)
  }

  /**
   * Taking a published file, whatever the process is doing, puts a record in two spots exactly when the
   * manifest on disk does not cover it and a record of it has a spot of its own. Every durable record
   * has one; while the process is up every record of an uncovered file has.
   */
  lemma TakenTooEarlyExactlyWhen(s: State, k: Key)
    requires Inv(s) && k in s.store.published
    ensures TwoSpots(Apply(s, Export(k))) <==> k.last > s.log.watermark && Elsewhere(s, k)
    ensures s.store.published[k] * s.log.durable != {} || (s.mem.Up? && s.store.published[k] != {}) ==>
              (TwoSpots(Apply(s, Export(k))) <==> k.last > s.log.watermark)
  {
    hide Inv, Lies;
    var t, n := Apply(s, Export(k)), |s.store.exported|;
    if k.last > s.log.watermark {
      if Elsewhere(s, k) {
        var r, a :| r in s.store.published[k] && Lies(s, r, a);
        StaysAndTaken(s, k, r, a);
        assert TwoSpots(t);
      } else {
        forall r, a, b | Lies(t, r, a) && Lies(t, r, b) ensures a == b {
          SpotsAfter(s, k, r, a);
          SpotsAfter(s, k, r, b);
          if Lies(s, r, a) && Lies(s, r, b) { AtMostOneSpot(s, r, a, b); }
        }
      }
      if r :| r in s.store.published[k] * s.log.durable {
        var a := DurableHasSpot(s, r);
      } else if s.mem.Up? && s.store.published[k] != {} {
        var r, id := StillLive(s, k);
      }
    } else {
      ExportStep(s, k);
      forall r, a, b | Lies(t, r, a) && Lies(t, r, b) ensures a == b { AtMostOneSpot(t, r, a, b); }
    }
  }

  lemma DurableHasSpot(s: State, r: Rec) returns (a: Spot)
    requires Inv(s) && r in s.log.durable
    ensures Lies(s, r, a)
  {
    hide MemOk, Lies, At;
    var p :| At(s.log, r, p);
    a := PlaceHasSpot(s, r, p);
  }

  /** A spot stays when an uncovered file is taken, and the file taken is another one. */
  lemma StaysAndTaken(s: State, k: Key, r: Rec, a: Spot)
    requires k in s.store.published && k.last > s.log.watermark && r in s.store.published[k] && Lies(s, r, a)
    ensures var t, taken := Apply(s, Export(k)), File(k, Exported(|s.store.exported|));
            Lies(t, r, a) && Lies(t, r, taken) && a != taken
  {
  }

  /** What lies somewhere after taking an uncovered file lay there before, or lies in the file taken. */
  lemma SpotsAfter(s: State, k: Key, r: Rec, a: Spot)
    requires k in s.store.published && k.last > s.log.watermark && Lies(Apply(s, Export(k)), r, a)
    ensures Lies(s, r, a) || (a == File(k, Exported(|s.store.exported|)) && r in s.store.published[k])
  {
  }

  /** The records of a file published ahead of the manifest are still in live segments. */
  lemma StillLive(s: State, k: Key) returns (r: Rec, id: nat)
    requires Inv(s) && s.mem.Up? && k in s.store.published && s.store.published[k] != {} && k.last > s.log.watermark
    ensures r in s.store.published[k] && Lies(s, r, Live(id))
  {
    hide Good, FilesOk, HeadOk, PhaseOk, Justified, PlanOnce;
    var limbo := s.mem.limbo;
    r :| r in s.store.published[k];
    assert PlanAt(limbo, r, InFile(k));
    assert Between(s.log, r, s.log.watermark, s.mem.watermark);
    id :| id in s.log.wal && s.log.watermark < id <= s.mem.watermark && r in Recs(s.log.wal[id]);
  }

  // ---- an id quarantined twice ------------------------------------------------------------------

  /**
   * Nothing but quarantining an id that is quarantined already can replace a quarantined record, and that
   * always does.
   */
  lemma ReplacedExactlyWhen(s: State, step: Step)
    requires Inv(s) && Enabled(s, step)
    ensures Apply(s, step).log.overwritten != s.log.overwritten <==>
              && (step.SetAside? || step.AmendQuarantine?)
              && step.id in s.log.quarantined && Recs(s.log.quarantined[step.id]) != []
  {
    if step.SetAside? || step.AmendQuarantine? {
      hide Inv, Good;
      QuarantineReplaces(s.log, step.id);
    } else {
      OthersReplaceNothing(s, step);
    }
  }

  lemma QuarantineReplaces(g: Log, id: nat)
    requires Good(g) && id in g.wal
    ensures QuarantineSegment(g, id).overwritten != g.overwritten <==>
              id in g.quarantined && Recs(g.quarantined[id]) != []
  {
    hide Kept, Settled, Fresh, Justified, SegmentsOk, Covered, Recs;
    if id in g.quarantined && Recs(g.quarantined[id]) != [] {
      var r := Recs(g.quarantined[id])[0];
      assert At(g, r, InQuarantine(id));
      assert !At(g, r, AsOverwritten);
      assert r in QuarantineSegment(g, id).overwritten;
    }
  }

  lemma OthersReplaceNothing(s: State, step: Step)
    requires Enabled(s, step) && !step.SetAside? && !step.AmendQuarantine?
    ensures Apply(s, step).log.overwritten == s.log.overwritten
  {
    hide PlanFor, PlanOf, Recs, Join, CleanTail, Swept, Least, Greatest, IsNext, FirstBad, Set;
  }

  /** The record written to a segment with birth number `born`, first thing. */
  function FirstOf(born: nat): Rec { Rec(born + 1, born, born, true) }

  /** One record in segment 1, born `n`, whose header is damaged; whatever was there before is in `q`. */
  function Harmed(q: map<nat, Segment>, n: nat, durable: set<Rec>): Log {
    Log(map[1 := Segment(Damaged, n, [FirstOf(n)], [], Unread)], q, 0, NOTHING, n + 2, durable, {}, {})
  }

  /** From an open engine whose segment 1 is empty to a stopped one about to quarantine it. */
  lemma HarmFirst(q: map<nat, Segment>, n: nat, durable: set<Rec>)
    requires Reachable(Opened(Log(map[1 := Empty(n)], q, 0, NOTHING, n + 1, durable, {}, {}), 1))
    ensures Reachable(State(Harmed(q, n, durable + {FirstOf(n)}), STORE, Amending(2)))
  {
    hide Reachable;
    var g, r := Log(map[1 := Empty(n)], q, 0, NOTHING, n + 1, durable, {}, {}), FirstOf(n);
    Reach(Opened(g, 1), Append(r));
    var h := g.(wal := map[1 := Segment(Sound, n, [], [r], Unread)], next := n + 2);
    assert AppendRec(g, 1, r) == h by { assert [] + [r] == [r]; }
    SyncAndHarm(h, r, q, n, durable);
    StopAndScan(Harmed(q, n, durable + {r}));
  }

  lemma SyncAndHarm(h: Log, r: Rec, q: map<nat, Segment>, n: nat, durable: set<Rec>)
    requires h == Log(map[1 := Segment(Sound, n, [], [r], Unread)], q, 0, NOTHING, n + 2, durable, {}, {})
    requires r == FirstOf(n)
    requires Reachable(Opened(h, 1))
    ensures Reachable(Opened(Harmed(q, n, durable + {r}), 1))
  {
    hide Reachable;
    Reach(Opened(h, 1), Sync(1));
    var i := h.(wal := map[1 := Segment(Sound, n, [r], [], Unread)], durable := durable + {r});
    assert SyncUpTo(h, 1, 1) == i by { assert ([] + [r])[..1] == [r] && ([] + [r])[1..] == [] && Set([r]) == {r}; }
    Reach(Opened(i, 1), HarmHeader(1, Damaged));
    assert DamageHeader(i, 1, Damaged) == Harmed(q, n, durable + {r});
  }

  lemma StopAndScan(j: Log)
    requires Reachable(Opened(j, 1)) && j.wal.Keys == {1} && j.watermark == 0
    ensures Reachable(State(j, STORE, Amending(2)))
  {
    hide Reachable, CrashOf, Recs;
    NothingTorn(j);
    Reach(Opened(j, 1), Crash(j));
    Rescan(j);
  }

  lemma NothingTorn(j: Log)
    ensures CrashOf(j, j)
  {
  }

  lemma Rescan(j: Log)
    requires Reachable(State(j, STORE, Down)) && j.wal.Keys == {1} && j.watermark == 0
    ensures Reachable(State(j, STORE, Amending(2)))
  {
    hide Reachable, Recs, CleanTail, PlanOf, CrashOf;
    assert 1 in j.wal && forall id :: id in j.wal ==> id == 1;
    Reach(State(j, STORE, Down), Start);
    Reach(State(j, STORE, Starting), Recover(2));
    Reach(State(j, STORE, Pruning(2)), PruneDone);
  }

  /**
   * Damage, a crash after the quarantine and before the writer opens, and the same damage again: the first
   * record is gone.
   */
  lemma QuarantinedTwice() returns (s: State)
    ensures Reachable(s)
    ensures Lies(s, FirstOf(0), Replaced) && Lies(s, FirstOf(2), Aside(1))
  {
    hide Reachable, CrashOf, CleanTail, PlanOf, IsNext, Swept;
    InitReachable();
    Reopens(INIT.log);
    HarmFirst(map[], 0, {});
    var d := {FirstOf(0)};
    assert {} + d == d;
    var a := Harmed(map[], 0, d);
    Reach(State(a, STORE, Amending(2)), AmendQuarantine(1));
    var b := a.(wal := map[], quarantined := map[1 := a.wal[1]]);
    assert QuarantineSegment(a, 1) == b by { assert a.wal - {1} == map[]; }
    NothingTorn(b);
    Reach(State(b, STORE, Opening(2)), Crash(b));
    Reopens(b);
    HarmFirst(b.quarantined, 2, d);
    var c := Harmed(b.quarantined, 2, d + {FirstOf(2)});
    Reach(State(c, STORE, Amending(2)), AmendQuarantine(1));
    s := State(QuarantineSegment(c, 1), STORE, Opening(2));
    assert FirstOf(0) in Recs(b.quarantined[1]) by { assert Recs(b.quarantined[1])[0] == FirstOf(0); }
    assert Recs(c.wal[1])[0] == FirstOf(2);
  }
}
