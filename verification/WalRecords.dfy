/**
 * The WAL writer read frame by frame: which of the protocol's records its segments stand for, and that
 * what recovery's scan finds after a power cut at any point of any run of the writer is what
 * `Ledger.CrashOf` allows.
 */
module WalRecords {
  import opened Bytes
  import opened Codec
  import opened Segments
  import Wal
  import L = Ledger

  /** The frames of a segment in append order, those of a failed append last. */
  function FramesOf(w: Wal.Writer, id: u64): seq<Wal.Frame>
    requires id in w.acked && id in w.failed
  {
    w.acked[id] + w.failed[id]
  }

  /** How far the segment's bytes reach, buffered ones included. */
  function Reach(w: Wal.Writer, id: u64): nat
    requires id in w.files
  {
    if w.open.Some? && w.open.value.id == id then |Wal.Stream(w)| else |w.files[id].content|
  }

  function WholeAt(w: Wal.Writer, id: u64, bytes: nat): nat
    requires id in w.acked && id in w.failed
  {
    if bytes < SEGMENT_HEADER_BYTES then 0 else Whole(FramesOf(w, id), bytes - SEGMENT_HEADER_BYTES)
  }

  /** What the protocol sees of a frame: the number of its key, and whether a flush will accept it. */
  type Labels = Wal.Frame -> (nat, bool)

  predicate Labelled(view: Labels, f: Wal.Frame, r: L.Rec) { view(f) == (r.key, r.accepted) }

  /**
   * The protocol's segment for one of the writer's: one record for each frame written whole, in order, and
   * of these `synced` has at least what the writer promised and at most what a power cut cannot take.
   */
  ghost predicate Abstracts(w: Wal.Writer, id: u64, view: Labels, seg: L.Segment) {
    && id in w.files && id in w.acked && id in w.failed && id in w.promised
    && |L.Recs(seg)| == WholeAt(w, id, Reach(w, id))
    && (forall i :: 0 <= i < |L.Recs(seg)| ==> Labelled(view, FramesOf(w, id)[i], L.Recs(seg)[i]))
    && WholeAt(w, id, w.promised[id]) <= |seg.synced| <= WholeAt(w, id, w.files[id].durable)
  }

  /** The segment as recovery's scan reads the file cut after `cut` bytes. */
  function Rescanned(env: Env, w: Wal.Writer, id: u64, cut: nat, seg: L.Segment): L.Segment
    requires id in w.files && SEGMENT_HEADER_BYTES <= cut <= |w.files[id].content|
  {
    var found := |ScanFrom(env, w.files[id].content[..cut], SEGMENT_HEADER_BYTES, cut).frames|;
    seg.(volatile := if |seg.synced| <= found <= |L.Recs(seg)| then L.Recs(seg)[|seg.synced|..found] else [])
  }

  lemma {:induction false} WholeMonotone(frames: seq<Wal.Frame>, a: nat, b: nat)
    requires a <= b
    ensures Whole(frames, a) <= Whole(frames, b)
    decreases |frames|
  {
    if frames != [] && a >= |frames[0]| { WholeMonotone(frames[1..], a - |frames[0]|, b - |frames[0]|); }
  }

  lemma WholeAtMonotone(w: Wal.Writer, id: u64, a: nat, b: nat)
    requires id in w.acked && id in w.failed && a <= b
    ensures WholeAt(w, id, a) <= WholeAt(w, id, b)
  {
    hide Whole;
    if a >= SEGMENT_HEADER_BYTES { WholeMonotone(FramesOf(w, id), a - SEGMENT_HEADER_BYTES, b - SEGMENT_HEADER_BYTES); }
  }

  /** What the scan finds are the synced records and a prefix of the rest, one for each whole frame. */
  lemma RescanIsPrefix(env: Env, states: seq<Wal.Writer>, steps: seq<Wal.Step>, n: nat, id: u64, cut: nat,
                       view: Labels, seg: L.Segment)
    requires Wal.Run(env, states, steps) && n <= |steps| && Abstracts(states[n], id, view, seg)
    requires states[n].files[id].durable <= cut <= |states[n].files[id].content|
    ensures cut >= SEGMENT_HEADER_BYTES
    ensures var after := Rescanned(env, states[n], id, cut, seg);
            && after == seg.(volatile := after.volatile) && after.volatile <= seg.volatile
            && |L.Recs(after)| == WholeAt(states[n], id, cut)
  {
    hide Wal.Enabled, Wal.Apply, Wal.Fresh, ScanFrom, Starts, Flat, Whole, PutSegmentHeader, ParseSegmentHeader,
      Labelled;
    var w := states[n];
    Wal.CrashRecovers(env, states, steps, n, id, cut);
    assert |w.files[id].content[..cut]| == cut;
    WholeAtMonotone(w, id, w.files[id].durable, cut);
    WholeAtMonotone(w, id, cut, Reach(w, id));
    var all := L.Recs(seg);
    assert seg.synced == all[..|seg.synced|] && seg.volatile == all[|seg.synced|..];
  }

  /** What the power cut left of each file: between its durable bytes and all it held. */
  ghost predicate CutsOk(w: Wal.Writer, cuts: map<u64, nat>) {
    cuts.Keys == w.files.Keys && forall id :: id in w.files ==> w.files[id].durable <= cuts[id] <= |w.files[id].content|
  }

  /**
   * The log stands for those of the writer's segments that are still in `wal/`, beside what an earlier process
   * left.
   */
  ghost predicate LogOf(w: Wal.Writer, view: Labels, g: L.Log) {
    forall id :: id in w.files && id in g.wal ==> Abstracts(w, id, view, g.wal[id])
  }

  /** The log after the crash, read back from the cut files. */
  ghost predicate Recovered(env: Env, w: Wal.Writer, cuts: map<u64, nat>, g: L.Log, h: L.Log)
    requires CutsOk(w, cuts)
  {
    && h == g.(wal := h.wal) && h.wal.Keys == g.wal.Keys
    && (forall id: nat :: id in g.wal && id !in w.files ==> h.wal[id] == g.wal[id])
    && (forall id :: id in w.files && id in g.wal ==>
          SEGMENT_HEADER_BYTES <= cuts[id] && h.wal[id] == Rescanned(env, w, id, cuts[id], g.wal[id]))
  }

  /** A power cut at any point of any run of the writer, whatever it leaves of each file, is a crash of the protocol. */
  lemma CrashIsCrash(env: Env, states: seq<Wal.Writer>, steps: seq<Wal.Step>, n: nat, cuts: map<u64, nat>, view: Labels,
                     g: L.Log, h: L.Log)
    requires Wal.Run(env, states, steps) && n <= |steps|
    requires CutsOk(states[n], cuts) && LogOf(states[n], view, g) && Recovered(env, states[n], cuts, g, h)
    ensures L.CrashOf(g, h)
  {
    hide Wal.Enabled, Wal.Apply, Wal.Fresh, Abstracts, Rescanned;
    forall id | id in g.wal
      ensures h.wal[id] == g.wal[id].(volatile := h.wal[id].volatile) && h.wal[id].volatile <= g.wal[id].volatile
    {
      if id in states[n].files { RescanIsPrefix(env, states, steps, n, id, cuts[id], view, g.wal[id]); }
    }
  }

  // ---- the writer's steps ---------------------------------------------------------------------

  /** The segment's frames, bytes and durable bytes only became more. */
  ghost predicate Longer(w: Wal.Writer, x: Wal.Writer, id: u64) {
    && id in w.files && id in w.acked && id in w.failed && id in x.files && id in x.acked && id in x.failed
    && FramesOf(w, id) <= FramesOf(x, id) && Reach(w, id) <= Reach(x, id) && w.files[id].durable <= x.files[id].durable
  }

  lemma SettleLonger(env: Env, w: Wal.Writer, stream: seq<byte>, reached: nat, id: u64)
    requires Wal.Inv(env, w) && Wal.Opened(w) && reached <= |stream| && Wal.Stream(w) <= stream && id in w.files
    ensures Longer(w, Wal.Settle(w, stream, reached), id)
  {
    hide Flat, AllFrames, PutSegmentHeader;
    assert Wal.FileOk(env, w, id);
    var x := Wal.Settle(w, stream, reached);
    assert Wal.Stream(x) == stream;
  }

  lemma SyncedLonger(env: Env, w: Wal.Writer, id: u64)
    requires Wal.Inv(env, w) && Wal.Opened(w) && id in w.files
    ensures Longer(w, Wal.Synced(w), id) && Reach(Wal.Synced(w), id) == |Wal.Synced(w).files[id].content|
  {
    hide Flat, AllFrames, PutSegmentHeader, Wal.Inv;
    var stream := Wal.Stream(w);
    SettleLonger(env, w, stream, |stream|, id);
    InvFile(env, w, id);
    InvFile(env, w, w.open.value.id);
  }

  lemma InvFile(env: Env, w: Wal.Writer, id: u64)
    requires Wal.Inv(env, w) && id in w.files
    ensures Wal.FileOk(env, w, id)
  {
  }

  /** Except for a close that fails, every step leaves every segment with at least what it had. */
  lemma StepLonger(env: Env, w: Wal.Writer, step: Wal.Step, id: u64)
    requires Wal.Inv(env, w) && Wal.Enabled(env, w, step) && id in w.files && !step.CloseErr?
    ensures Longer(w, Wal.Apply(env, w, step), id)
  {
    hide Flat, AllFrames, PutSegmentHeader, Wal.Inv, Wal.Synced;
    InvFile(env, w, id);
    match step {
      case AppendOk(frames, reached) =>
        SettleLonger(env, w, Wal.Stream(w) + Flat(frames), reached, id);
        NoneFailed(env, w);
      case AppendErr(frames, taken, reached) =>
        SettleLonger(env, w, Wal.Stream(w) + Flat(frames)[..taken], reached, id);
        NoneFailed(env, w);
      case FlushErr(reached) => SettleLonger(env, w, Wal.Stream(w), reached, id);
      case FlushOnly => SettleLonger(env, w, Wal.Stream(w), |Wal.Stream(w)|, id);
      case Take => SettleLonger(env, w, Wal.Stream(w), |Wal.Stream(w)|, id);
      case SyncInLock => SyncedLonger(env, w, id);
      case Roll => RollLonger(env, w, id);
      case CloseOk => SyncedLonger(env, w, id);
      case _ =>
    }
  }

  lemma RollLonger(env: Env, w: Wal.Writer, id: u64)
    requires Wal.Inv(env, w) && Wal.Enabled(env, w, Wal.Roll) && id in w.files
    ensures Longer(w, Wal.Apply(env, w, Wal.Roll), id)
  {
    hide Flat, AllFrames, PutSegmentHeader, Wal.Inv;
    InvFile(env, w, id);
    SyncedLonger(env, w, id);
  }

  lemma NoneFailed(env: Env, w: Wal.Writer)
    requires Wal.Inv(env, w) && Wal.Opened(w) && !w.needsRoll
    ensures w.failed[w.open.value.id] == []
  {
  }

  lemma {:induction false} WholeExtends(a: seq<Wal.Frame>, b: seq<Wal.Frame>, x: nat, y: nat)
    requires a <= b && x <= y
    ensures Whole(a, x) <= Whole(b, y)
    decreases |a|
  {
    if a != [] && x >= |a[0]| {
      assert a[1..] <= b[1..] && a[0] == b[0];
      WholeExtends(a[1..], b[1..], x - |a[0]|, y - |a[0]|);
    }
  }

  lemma WholeAtExtends(w: Wal.Writer, x: Wal.Writer, id: u64, a: nat, b: nat)
    requires Longer(w, x, id) && a <= b
    ensures WholeAt(w, id, a) <= WholeAt(x, id, b)
  {
    hide Whole;
    if a >= SEGMENT_HEADER_BYTES {
      WholeExtends(FramesOf(w, id), FramesOf(x, id), a - SEGMENT_HEADER_BYTES, b - SEGMENT_HEADER_BYTES);
    }
  }

  /** How many records a step adds to a segment, and what they are. */
  function Added(w: Wal.Writer, x: Wal.Writer, id: u64, view: Labels): seq<(nat, bool)>
    requires id in w.files && id in w.acked && id in w.failed && id in x.files && id in x.acked && id in x.failed
  {
    var from, to := WholeAt(w, id, Reach(w, id)), WholeAt(x, id, Reach(x, id));
    if from <= to then seq(to - from, i requires 0 <= i < to - from => view(FramesOf(x, id)[from + i])) else []
  }

  /** The records appended carry these labels, and nothing else of the segment changed. */
  ghost predicate Grown(a: L.Segment, b: L.Segment, labels: seq<(nat, bool)>) {
    && b == a.(volatile := b.volatile) && a.volatile <= b.volatile && |b.volatile| == |a.volatile| + |labels|
    && forall i :: 0 <= i < |labels| ==>
         labels[i] == (b.volatile[|a.volatile| + i].key, b.volatile[|a.volatile| + i].accepted)
  }

  /** How many records are to be synced for the writer's promise. */
  function Due(x: Wal.Writer, id: u64, seg: L.Segment): nat
    requires id in x.acked && id in x.failed && id in x.promised
  {
    var promised := WholeAt(x, id, x.promised[id]);
    if |seg.synced| < promised then promised else |seg.synced|
  }

  function SyncedTo(seg: L.Segment, upto: nat): L.Segment
    requires upto <= |L.Recs(seg)|
  {
    seg.(synced := L.Recs(seg)[..upto], volatile := L.Recs(seg)[upto..])
  }

  /** Appending the frames that became whole and syncing what is promised keeps the segment the writer's. */
  lemma GrownAbstracts(env: Env, w: Wal.Writer, x: Wal.Writer, id: u64, view: Labels, a: L.Segment, b: L.Segment)
    requires Wal.Inv(env, x) && Longer(w, x, id) && Abstracts(w, id, view, a) && Grown(a, b, Added(w, x, id, view))
    ensures id in x.promised && |b.synced| <= Due(x, id, b) <= |L.Recs(b)|
    ensures Abstracts(x, id, view, SyncedTo(b, Due(x, id, b)))
  {
    hide Wal.Inv, WholeAt, Reach;
    InvFile(env, x, id);
    ReachesContent(env, x, id);
    WholeAtMonotone(x, id, x.promised[id], x.files[id].durable);
    WholeAtMonotone(x, id, x.files[id].durable, Reach(x, id));
    WholeAtExtends(w, x, id, w.files[id].durable, x.files[id].durable);
    WholeAtExtends(w, x, id, Reach(w, id), Reach(x, id));
    GrownLabelled(w, x, id, view, a, b);
    assert L.Recs(SyncedTo(b, Due(x, id, b))) == L.Recs(b);
  }

  lemma WholeAtWithin(w: Wal.Writer, id: u64, bytes: nat)
    requires id in w.acked && id in w.failed
    ensures WholeAt(w, id, bytes) <= |FramesOf(w, id)|
  {
  }

  lemma GrownLabelled(w: Wal.Writer, x: Wal.Writer, id: u64, view: Labels, a: L.Segment, b: L.Segment)
    requires Longer(w, x, id) && Abstracts(w, id, view, a) && Grown(a, b, Added(w, x, id, view))
    ensures |L.Recs(b)| == WholeAt(x, id, Reach(x, id)) <= |FramesOf(x, id)|
    ensures forall i :: 0 <= i < |L.Recs(b)| ==> Labelled(view, FramesOf(x, id)[i], L.Recs(b)[i])
  {
    hide WholeAt, Reach;
    WholeAtExtends(w, x, id, Reach(w, id), Reach(x, id));
    WholeAtWithin(w, id, Reach(w, id));
    WholeAtWithin(x, id, Reach(x, id));
    var all, was := L.Recs(b), L.Recs(a);
    assert |all| == WholeAt(x, id, Reach(x, id));
    forall i | 0 <= i < |all| ensures Labelled(view, FramesOf(x, id)[i], all[i]) {
      if i < |was| {
        assert all[i] == was[i] && FramesOf(x, id)[i] == FramesOf(w, id)[i];
        assert Labelled(view, FramesOf(w, id)[i], was[i]);
      } else {
        var k, labels := i - |was|, Added(w, x, id, view);
        assert all[i] == b.volatile[|a.volatile| + k] && labels[k] == view(FramesOf(x, id)[i]);
      }
    }
  }

  lemma ReachesContent(env: Env, w: Wal.Writer, id: u64)
    requires Wal.Inv(env, w) && id in w.files
    ensures |w.files[id].content| <= Reach(w, id)
  {
  }

  /** Nothing but durable bytes became more. */
  ghost predicate Unmoved(w: Wal.Writer, x: Wal.Writer, id: u64) {
    && Longer(w, x, id) && id in w.promised && id in x.promised && x.promised[id] == w.promised[id]
    && FramesOf(x, id) == FramesOf(w, id) && Reach(x, id) == Reach(w, id)
  }

  /** Only the open segment, if there is one, got more. */
  ghost predicate Advances(w: Wal.Writer, x: Wal.Writer) {
    && x.files.Keys == w.files.Keys && x.open.Some? == w.open.Some?
    && (w.open.Some? ==> x.open.value.id == w.open.value.id)
    && forall id :: id in w.files ==>
         Longer(w, x, id) && (w.open.None? || w.open.value.id != id ==> Unmoved(w, x, id))
  }

  /** A segment in which nothing but durable bytes became more needs no step. */
  lemma StillAbstracts(w: Wal.Writer, x: Wal.Writer, id: u64, view: Labels, seg: L.Segment)
    requires Abstracts(w, id, view, seg) && Unmoved(w, x, id)
    ensures Abstracts(x, id, view, seg)
  {
    hide Whole, Labelled;
    WholeAtExtends(w, x, id, w.files[id].durable, x.files[id].durable);
  }

  /** Every step but a roll and a close only adds to the open segment. */
  lemma StepAdvances(env: Env, w: Wal.Writer, step: Wal.Step)
    requires Wal.Inv(env, w) && Wal.Enabled(env, w, step) && !step.CloseErr? && !step.CloseOk? && !step.Roll?
    ensures Advances(w, Wal.Apply(env, w, step))
  {
    hide Flat, AllFrames, PutSegmentHeader, Wal.Inv, Longer;
    var x := Wal.Apply(env, w, step);
    forall id | id in w.files
      ensures Longer(w, x, id) && (w.open.None? || w.open.value.id != id ==> Unmoved(w, x, id))
    {
      StepLonger(env, w, step, id);
      InvFile(env, w, id);
      if w.open.None? || w.open.value.id != id { OthersUnmoved(env, w, step, id); }
    }
  }

  lemma OthersUnmoved(env: Env, w: Wal.Writer, step: Wal.Step, id: u64)
    requires Wal.FileOk(env, w, id) && Wal.Enabled(env, w, step) && !step.CloseErr? && !step.CloseOk? && !step.Roll?
    requires Longer(w, Wal.Apply(env, w, step), id) && (w.open.None? || w.open.value.id != id)
    ensures Unmoved(w, Wal.Apply(env, w, step), id)
  {
    hide Flat, AllFrames, PutSegmentHeader;
  }

  /** The segment a roll creates has no records. */
  lemma RollAbstracts(env: Env, w: Wal.Writer, view: Labels, seg: L.Segment)
    requires Wal.Inv(env, w) && Wal.Enabled(env, w, Wal.Roll) && L.Recs(seg) == []
    ensures Abstracts(Wal.Apply(env, w, Wal.Roll), w.open.value.id + 1, view, seg)
  {
    hide Wal.Inv, PutSegmentHeader;
    var x, id: u64 := Wal.Apply(env, w, Wal.Roll), w.open.value.id + 1;
    assert FramesOf(x, id) == [];
    assert seg.synced == [];
    assert WholeAt(x, id, Reach(x, id)) == 0;
  }

  /** A close that fails loses only records not synced, as a crash may. */
  lemma CloseErrAbstracts(env: Env, w: Wal.Writer, id: u64, view: Labels, seg: L.Segment) returns (next: L.Segment)
    requires Wal.Inv(env, w) && Wal.Enabled(env, w, Wal.CloseErr) && Abstracts(w, id, view, seg)
    ensures next == seg.(volatile := next.volatile) && next.volatile <= seg.volatile
    ensures Abstracts(Wal.Apply(env, w, Wal.CloseErr), id, view, next)
  {
    hide Wal.Inv, Whole, Flat, AllFrames, PutSegmentHeader, Labelled;
    InvFile(env, w, id);
    ReachesContent(env, w, id);
    WholeAtMonotone(w, id, w.files[id].durable, |w.files[id].content|);
    WholeAtMonotone(w, id, |w.files[id].content|, Reach(w, id));
    var whole, all := WholeAt(w, id, |w.files[id].content|), L.Recs(seg);
    next := seg.(volatile := all[|seg.synced|..whole]);
    assert seg.synced == all[..|seg.synced|] && seg.volatile == all[|seg.synced|..];
    assert L.Recs(next) == all[..whole];
  }
}
