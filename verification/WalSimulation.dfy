/**
 * The WAL writer takes steps of the protocol: whatever the writer and its committer do, the protocol can
 * follow with appends, syncs of a prefix and rolls, and keep standing for the writer's files; what the
 * rest of the protocol does in between does not disturb that.
 */
module WalSimulation {
  import opened Bytes
  import opened Decimal
  import opened Codec
  import opened Segments
  import opened WalRecords
  import opened Protocol
  import Safety = ProtocolSafety

  // ---- paths of the protocol ------------------------------------------------------------------

  /** From `s` to `t` by steps of the writer. */
  ghost predicate Leads(s: State, states: seq<State>, steps: seq<Step>, t: State) {
    && Path(states, steps) && states[0] == s && states[|steps|] == t
    && forall i :: 0 <= i < |steps| ==> steps[i].Append? || steps[i].Sync? || steps[i].Roll? || steps[i].Crash?
  }

  lemma Stays(s: State)
    ensures Leads(s, [s], [], s)
  {
  }

  lemma Onward(s: State, states: seq<State>, steps: seq<Step>, t: State, step: Step)
    requires Leads(s, states, steps, t) && Enabled(t, step)
    requires step.Append? || step.Sync? || step.Roll? || step.Crash?
    ensures Leads(s, states + [Apply(t, step)], steps + [step], Apply(t, step))
  {
    hide Enabled, Apply;
    PathOn(states, steps, step);
  }

  lemma Joined(s: State, a: seq<State>, b: seq<Step>, t: State, c: seq<State>, d: seq<Step>, u: State)
    requires Leads(s, a, b, t) && Leads(t, c, d, u)
    ensures Leads(s, a + c[1..], b + d, u)
  {
    hide Enabled, Apply;
    var x, y := a + c[1..], b + d;
    assert forall i :: 0 <= i < |a| ==> x[i] == a[i];
    assert forall i :: 0 <= i < |c| ==> x[|b| + i] == c[i];
    forall i | 0 <= i < |y|
      ensures Enabled(x[i], y[i]) && x[i + 1] == Apply(x[i], y[i])
      ensures y[i].Append? || y[i].Sync? || y[i].Roll? || y[i].Crash?
    {
      if i < |b| {
        assert y[i] == b[i];
      } else {
        var k := i - |b|;
        assert y[i] == d[k] && x[i] == c[k] && x[i + 1] == c[k + 1];
      }
    }
  }

  lemma NotEmpty(s: State, states: seq<State>, steps: seq<Step>, t: State)
    requires Leads(s, states, steps, t)
    ensures |states| >= 1
  {
  }

  // ---- appending and syncing --------------------------------------------------------------------

  /** The active segment of a running process. */
  function Head(s: State): L.Segment
    requires s.mem.Up? && s.mem.active in s.log.wal
  {
    s.log.wal[s.mem.active]
  }

  /** Only the active segment changed. */
  ghost predicate OnlyHead(s: State, t: State) {
    && s.mem.Up? && s.mem.active in s.log.wal && t.store == s.store && t.mem == s.mem
    && t.log.wal.Keys == s.log.wal.Keys
    && forall id :: id in s.log.wal && id != s.mem.active ==> t.log.wal[id] == s.log.wal[id]
  }

  lemma HeadThere(s: State)
    requires Inv(s) && s.mem.Up?
    ensures s.mem.active in s.log.wal && s.mem.active + 1 !in s.log.wal
  {
    hide L.Good, FilesOk, LimboOk, PhaseOk;
  }

  lemma {:induction false} AppendAll(s: State, labels: seq<(nat, bool)>)
    returns (states: seq<State>, steps: seq<Step>, t: State)
    requires Inv(s) && s.mem.Up?
    ensures Leads(s, states, steps, t) && Inv(t) && OnlyHead(s, t) && Grown(Head(s), Head(t), labels)
    decreases |labels|
  {
    hide Inv, Enabled, Apply, Leads;
    HeadThere(s);
    if labels == [] {
      states, steps, t := [s], [], s;
      Stays(s);
    } else {
      var n := |labels| - 1;
      var u;
      states, steps, u := AppendAll(s, labels[..n]);
      var r := L.Rec(u.log.next, Head(u).born, labels[n].0, labels[n].1);
      AppendOne(u, r);
      Onward(s, states, steps, u, Append(r));
      t := Apply(u, Append(r));
      states, steps := states + [t], steps + [Append(r)];
      OneMore(Head(s), Head(u), Head(t), labels, r);
    }
  }

  lemma AppendOne(s: State, r: L.Rec)
    requires Inv(s) && s.mem.Up? && s.mem.active in s.log.wal && r.serial == s.log.next && r.born == Head(s).born
    ensures Enabled(s, Append(r)) && Inv(Apply(s, Append(r))) && OnlyHead(s, Apply(s, Append(r)))
    ensures Head(Apply(s, Append(r))) == Head(s).(volatile := Head(s).volatile + [r])
  {
    hide Inv;
    Safety.StepKeeps(s, Append(r));
  }

  lemma OneMore(a: L.Segment, b: L.Segment, c: L.Segment, labels: seq<(nat, bool)>, r: L.Rec)
    requires labels != [] && Grown(a, b, labels[..|labels| - 1]) && c == b.(volatile := b.volatile + [r])
    requires labels[|labels| - 1] == (r.key, r.accepted)
    ensures Grown(a, c, labels)
  {
    var n := |labels| - 1;
    forall i | 0 <= i < |labels|
      ensures labels[i] == (c.volatile[|a.volatile| + i].key, c.volatile[|a.volatile| + i].accepted)
    {
      if i < n { assert labels[..n][i] == labels[i]; }
    }
  }

  lemma SyncOne(s: State, upto: nat)
    requires Inv(s) && s.mem.Up? && s.mem.active in s.log.wal && |Head(s).synced| <= upto <= |L.Recs(Head(s))|
    ensures Enabled(s, Sync(upto)) && Inv(Apply(s, Sync(upto))) && OnlyHead(s, Apply(s, Sync(upto)))
    ensures Head(Apply(s, Sync(upto))) == SyncedTo(Head(s), upto)
  {
    hide Inv;
    Safety.StepKeeps(s, Sync(upto));
  }

  // ---- the simulation ---------------------------------------------------------------------------

  /** The protocol's state stands for the writer's files; the writer's open segment is its active one. */
  ghost predicate Sim(w: Wal.Writer, view: Labels, s: State) {
    && Inv(s) && LogOf(w, view, s.log)
    && (w.open.Some? ==> w.open.value.id in w.files && s.mem.Up? && s.mem.active == w.open.value.id)
  }

  /** A step that adds to the open segment: append what became whole, sync what was promised. */
  lemma HeadGrows(env: Env, w: Wal.Writer, x: Wal.Writer, view: Labels, s: State)
    returns (states: seq<State>, steps: seq<Step>, t: State)
    requires Sim(w, view, s) && Wal.Inv(env, x) && w.open.Some? && Advances(w, x)
    ensures Leads(s, states, steps, t) && Sim(x, view, t)
  {
    hide Inv, Wal.Inv, Abstracts, Leads, Enabled, Apply, Longer, Unmoved;
    HeadThere(s);
    var id := w.open.value.id;
    LongerParts(w, x, id);
    var u;
    states, steps, u := AppendAll(s, Added(w, x, id, view));
    GrownAbstracts(env, w, x, id, view, Head(s), Head(u));
    var upto := Due(x, id, Head(u));
    SyncOne(u, upto);
    Onward(s, states, steps, u, Sync(upto));
    t := Apply(u, Sync(upto));
    states, steps := states + [t], steps + [Sync(upto)];
    forall i | i in x.files && i in t.log.wal ensures Abstracts(x, i, view, t.log.wal[i]) {
      if i != id {
        assert t.log.wal[i] == s.log.wal[i];
        StillAbstracts(w, x, i, view, s.log.wal[i]);
      }
    }
  }

  lemma LongerParts(w: Wal.Writer, x: Wal.Writer, id: u64)
    requires Longer(w, x, id)
    ensures id in w.files && id in w.acked && id in w.failed && id in x.files && id in x.acked && id in x.failed
  {
  }

  /** A step of the committer or the disk with no segment open. */
  lemma NothingOpen(w: Wal.Writer, x: Wal.Writer, view: Labels, s: State)
    requires Sim(w, view, s) && w.open.None? && Advances(w, x)
    ensures Sim(x, view, s)
  {
    hide Inv, Abstracts, Longer, Unmoved;
    forall i | i in x.files && i in s.log.wal ensures Abstracts(x, i, view, s.log.wal[i]) {
      StillAbstracts(w, x, i, view, s.log.wal[i]);
    }
  }

  lemma PlainStep(env: Env, w: Wal.Writer, step: Wal.Step, view: Labels, s: State)
    returns (states: seq<State>, steps: seq<Step>, t: State)
    requires Wal.Inv(env, w) && Wal.Enabled(env, w, step) && Sim(w, view, s)
    requires !step.CloseErr? && !step.CloseOk? && !step.Roll?
    ensures Leads(s, states, steps, t) && Sim(Wal.Apply(env, w, step), view, t)
  {
    hide Wal.Inv, Wal.Enabled, Wal.Apply, Sim, Leads, Advances;
    var x := Wal.Apply(env, w, step);
    Wal.StepKeeps(env, w, step);
    StepAdvances(env, w, step);
    if w.open.Some? {
      states, steps, t := HeadGrows(env, w, x, view, s);
    } else {
      NothingOpen(w, x, view, s);
      states, steps, t := [s], [], s;
      Stays(s);
    }
  }

  /** A roll: sync everything, then the protocol's own roll. */
  lemma RollStep(env: Env, w: Wal.Writer, view: Labels, s: State)
    returns (states: seq<State>, steps: seq<Step>, t: State)
    requires Wal.Inv(env, w) && Wal.Enabled(env, w, Wal.Roll) && Sim(w, view, s)
    ensures Leads(s, states, steps, t) && Sim(Wal.Apply(env, w, Wal.Roll), view, t)
  {
    hide Inv, Wal.Inv, Sim, Leads, Enabled, Apply;
    var u;
    states, steps, u := PlainStep(env, w, Wal.SyncInLock, view, s);
    RollEnabled(Wal.Synced(w), view, u);
    Onward(s, states, steps, u, Roll);
    t := Apply(u, Roll);
    states, steps := states + [t], steps + [Roll];
    RolledSim(env, w, view, u);
  }

  lemma RollEnabled(w: Wal.Writer, view: Labels, s: State)
    requires Sim(w, view, s) && w.open.Some?
    ensures Enabled(s, Roll) && Inv(Apply(s, Roll))
  {
    hide Inv;
    HeadThere(s);
    Safety.StepKeeps(s, Roll);
  }

  lemma RolledSim(env: Env, w: Wal.Writer, view: Labels, u: State)
    requires Wal.Inv(env, w) && Wal.Enabled(env, w, Wal.Roll) && Sim(Wal.Synced(w), view, u)
    requires Enabled(u, Roll) && Inv(Apply(u, Roll))
    ensures Sim(Wal.Apply(env, w, Wal.Roll), view, Apply(u, Roll))
  {
    hide Inv, Wal.Inv, Abstracts, Wal.Synced;
    var y, x, t, last := Wal.Synced(w), Wal.Apply(env, w, Wal.Roll), Apply(u, Roll), w.open.value.id;
    SyncedShape(env, w);
    var next: u64 := last + 1;
    RollAbstracts(env, w, view, t.log.wal[next]);
    forall i | i in x.files && i in t.log.wal ensures Abstracts(x, i, view, t.log.wal[i]) {
      if i == last {
        SealedAbstracts(env, w, view, u.log.wal[last]);
      } else if i != next {
        assert t.log.wal[i] == u.log.wal[i];
        assert Abstracts(y, i, view, u.log.wal[i]);
        SameAfterRoll(env, w, i, view, u.log.wal[i]);
      }
    }
  }

  lemma SyncedShape(env: Env, w: Wal.Writer)
    requires Wal.Inv(env, w) && Wal.Opened(w)
    ensures Wal.Synced(w).open.Some? && Wal.Synced(w).open.value.id == w.open.value.id
    ensures Wal.Synced(w).files.Keys == w.files.Keys
  {
  }

  /** With every byte durable, every record may be synced. */
  lemma AllSynced(y: Wal.Writer, id: u64, view: Labels, seg: L.Segment)
    requires Abstracts(y, id, view, seg) && y.files[id].durable == Reach(y, id) >= y.promised[id]
    ensures Abstracts(y, id, view, seg.(synced := L.Recs(seg), volatile := []))
  {
    hide Labelled, Whole;
    assert L.Recs(seg.(synced := L.Recs(seg), volatile := [])) == L.Recs(seg);
    WholeAtMonotone(y, id, y.promised[id], Reach(y, id));
  }

  /** Opening another segment changes nothing of one whose bytes are all in its file. */
  lemma CreatedSame(y: Wal.Writer, next: u64, id: u64, view: Labels, seg: L.Segment)
    requires Abstracts(y, id, view, seg) && id != next && Reach(y, id) == |y.files[id].content|
    ensures Abstracts(Wal.Created(y, next), id, view, seg)
  {
    hide Labelled, Whole, PutSegmentHeader;
  }

  lemma SyncedHead(env: Env, w: Wal.Writer)
    requires Wal.Inv(env, w) && Wal.Opened(w)
    ensures var y, id := Wal.Synced(w), w.open.value.id;
            id in y.files && id in y.promised && y.files[id].durable == |y.files[id].content| >= y.promised[id]
  {
    hide Wal.Inv;
    Wal.SyncedKeeps(env, w);
    InvFile(env, Wal.Synced(w), w.open.value.id);
  }

  lemma SealedAbstracts(env: Env, w: Wal.Writer, view: Labels, seg: L.Segment)
    requires Wal.Inv(env, w) && Wal.Enabled(env, w, Wal.Roll) && Abstracts(Wal.Synced(w), w.open.value.id, view, seg)
    ensures Abstracts(Wal.Apply(env, w, Wal.Roll), w.open.value.id, view, seg.(synced := L.Recs(seg), volatile := []))
  {
    hide Wal.Inv, Abstracts, Wal.Synced, Reach, Wal.Created;
    var y, id := Wal.Synced(w), w.open.value.id;
    SyncedLonger(env, w, id);
    SyncedHead(env, w);
    AllSynced(y, id, view, seg);
    CreatedSame(y, id + 1, id, view, seg.(synced := L.Recs(seg), volatile := []));
  }

  lemma SameAfterRoll(env: Env, w: Wal.Writer, id: u64, view: Labels, seg: L.Segment)
    requires Wal.Inv(env, w) && Wal.Enabled(env, w, Wal.Roll) && Abstracts(Wal.Synced(w), id, view, seg)
    requires id in w.files && id != w.open.value.id + 1
    ensures Abstracts(Wal.Apply(env, w, Wal.Roll), id, view, seg)
  {
    hide Wal.Inv, Abstracts, Wal.Synced, Reach, Wal.Created;
    SyncedLonger(env, w, id);
    CreatedSame(Wal.Synced(w), w.open.value.id + 1, id, view, seg);
  }

  lemma CloseOkStep(env: Env, w: Wal.Writer, view: Labels, s: State)
    returns (states: seq<State>, steps: seq<Step>, t: State)
    requires Wal.Inv(env, w) && Wal.Enabled(env, w, Wal.CloseOk) && Sim(w, view, s)
    ensures Leads(s, states, steps, t) && Sim(Wal.Apply(env, w, Wal.CloseOk), view, t)
  {
    hide Inv, Wal.Inv, Leads, Abstracts, Wal.Synced;
    states, steps, t := PlainStep(env, w, Wal.SyncInLock, view, s);
    var y, x := Wal.Synced(w), Wal.Apply(env, w, Wal.CloseOk);
    SyncedShape(env, w);
    forall i | i in x.files && i in t.log.wal ensures Abstracts(x, i, view, t.log.wal[i]) {
      assert Abstracts(y, i, view, t.log.wal[i]);
      SyncedLonger(env, w, i);
      ClosedSame(y, i, view, t.log.wal[i]);
    }
  }

  lemma ClosedSame(y: Wal.Writer, id: u64, view: Labels, seg: L.Segment)
    requires Abstracts(y, id, view, seg) && Reach(y, id) == |y.files[id].content|
    ensures Abstracts(y.(open := None), id, view, seg)
  {
    hide Labelled, Whole;
  }

  /** A close that fails: the process stops, as in a crash that takes what was only buffered. */
  lemma CloseErrStep(env: Env, w: Wal.Writer, view: Labels, s: State)
    returns (states: seq<State>, steps: seq<Step>, t: State)
    requires Wal.Inv(env, w) && Wal.Enabled(env, w, Wal.CloseErr) && Sim(w, view, s)
    ensures Leads(s, states, steps, t) && Sim(Wal.Apply(env, w, Wal.CloseErr), view, t)
  {
    hide Inv, Wal.Inv, Abstracts, Leads;
    var x, id := Wal.Apply(env, w, Wal.CloseErr), w.open.value.id;
    HeadThere(s);
    var next := CloseErrAbstracts(env, w, id, view, Head(s));
    var h := s.log.(wal := s.log.wal[s.mem.active := next]);
    assert L.CrashOf(s.log, h);
    Stays(s);
    Onward(s, [s], [], s, Crash(h));
    t := Apply(s, Crash(h));
    states, steps := [s] + [t], [] + [Crash(h)];
    Safety.StepKeeps(s, Crash(h));
    forall i | i in x.files && i in t.log.wal ensures Abstracts(x, i, view, t.log.wal[i]) {
      if i != id { ClosedOther(w, i, view, s.log.wal[i]); }
    }
  }

  lemma ClosedOther(w: Wal.Writer, id: u64, view: Labels, seg: L.Segment)
    requires Abstracts(w, id, view, seg) && w.open.Some? && w.open.value.id != id
    ensures Abstracts(w.(open := None), id, view, seg)
  {
    hide Labelled, Whole;
  }

  /** Whatever the writer does, the protocol follows. */
  lemma StepSimulates(env: Env, w: Wal.Writer, step: Wal.Step, view: Labels, s: State)
    returns (states: seq<State>, steps: seq<Step>, t: State)
    requires Wal.Inv(env, w) && Wal.Enabled(env, w, step) && Sim(w, view, s)
    ensures Leads(s, states, steps, t) && Sim(Wal.Apply(env, w, step), view, t)
  {
    hide Wal.Inv, Wal.Enabled, Wal.Apply, Sim, Leads;
    match step {
      case Roll => states, steps, t := RollStep(env, w, view, s);
      case CloseOk => states, steps, t := CloseOkStep(env, w, view, s);
      case CloseErr => states, steps, t := CloseErrStep(env, w, view, s);
      case _ => states, steps, t := PlainStep(env, w, step, view, s);
    }
  }

  // ---- the rest of the protocol in between ----------------------------------------------------------

  /** A step of the flush, of the outside agent or of the disk, while the process runs. */
  predicate NotTheWriter(step: Step) {
    !step.Append? && !step.Sync? && !step.Roll? && !step.Crash? && !step.CrashInCreate?
  }

  /** It changes no record of a segment that stays. */
  lemma RecordsStay(s: State, step: Step, id: nat)
    requires Enabled(s, step) && s.mem.Up? && NotTheWriter(step) && id in Apply(s, step).log.wal
    ensures id in s.log.wal && Apply(s, step).mem.Up? && Apply(s, step).mem.active == s.mem.active
    ensures var a, b := s.log.wal[id], Apply(s, step).log.wal[id]; a.synced == b.synced && a.volatile == b.volatile
  {
    hide PlanOf, Swept, Least, Greatest, L.FirstBad, L.Set, Floor;
  }

  lemma OthersKeep(w: Wal.Writer, view: Labels, s: State, step: Step)
    requires Sim(w, view, s) && s.mem.Up? && Enabled(s, step) && Safety.Careful(s, step) && NotTheWriter(step)
    ensures Sim(w, view, Apply(s, step))
  {
    hide Inv, Enabled, Apply, Abstracts, NotTheWriter;
    Safety.StepKeeps(s, step);
    var t := Apply(s, step);
    StillUp(s, step);
    forall i | i in w.files && i in t.log.wal ensures Abstracts(w, i, view, t.log.wal[i]) {
      RecordsStay(s, step, i);
      SameRecords(w, i, view, s.log.wal[i], t.log.wal[i]);
    }
  }

  lemma StillUp(s: State, step: Step)
    requires Enabled(s, step) && s.mem.Up? && NotTheWriter(step)
    ensures Apply(s, step).mem.Up? && Apply(s, step).mem.active == s.mem.active
  {
    hide PlanOf, Swept, Least, Greatest;
  }

  lemma SameRecords(w: Wal.Writer, id: u64, view: Labels, a: L.Segment, b: L.Segment)
    requires Abstracts(w, id, view, a) && a.synced == b.synced && a.volatile == b.volatile
    ensures Abstracts(w, id, view, b)
  {
    hide Whole, Labelled;
  }

  // ---- whole runs -----------------------------------------------------------------------------------

  /** A process that has just opened its segment. */
  lemma OpenedSim(env: Env, id: u64, view: Labels, s: State)
    requires Inv(s) && s.mem.Up? && s.mem.active == id && L.Recs(s.log.wal[id]) == []
    ensures Sim(Wal.Fresh(id), view, s)
  {
    hide Inv, PutSegmentHeader;
    HeadThere(s);
    assert s.log.wal[id].synced == [];
  }

  /**
   * Every run of the writer, however appenders, seal, committer and disk interleave, is followed by a path
   * of the protocol from the moment the process opened its segment.
   */
  lemma {:induction false} RunSimulates(env: Env, writers: seq<Wal.Writer>, acts: seq<Wal.Step>, n: nat, view: Labels,
                                        s: State)
    returns (states: seq<State>, steps: seq<Step>, t: State)
    requires Wal.Run(env, writers, acts) && n <= |acts| && Inv(s) && s.mem.Up? && s.mem.active in s.log.wal
    requires writers[0].open.Some? && s.mem.active == writers[0].last && L.Recs(Head(s)) == []
    ensures Leads(s, states, steps, t) && Sim(writers[n], view, t)
    decreases n
  {
    hide Inv, Wal.Enabled, Wal.Apply, Sim, Leads;
    if n == 0 {
      var id :| writers[0] == Wal.Fresh(id);
      OpenedSim(env, id, view, s);
      states, steps, t := [s], [], s;
      Stays(s);
    } else {
      var u;
      states, steps, u := RunSimulates(env, writers, acts, n - 1, view, s);
      Wal.RunKeeps(env, writers, acts, n - 1);
      var more, rest;
      more, rest, t := StepSimulates(env, writers[n - 1], acts[n - 1], view, u);
      Joined(s, states, steps, u, more, rest, t);
      NotEmpty(u, more, rest, t);
      states, steps := states + more[1..], steps + rest;
    }
  }
}
