/**
 * What the committer achieves (src/wal/writer.rs): a round of take, fsync and publish that succeeds makes
 * every frame acknowledged before it survive any later crash, whatever runs in between.
 */
module WalProgress {
  import opened Bytes
  import opened Codec
  import opened Segments
  import opened Wal

  /** A step of the committer's round. */
  predicate OfTheRound(step: Step) { step.Take? || step.Fsync? || step.FsyncErr? || step.Publish? }

  /** Acknowledged frames and the promise made for a segment only grow. */
  ghost predicate Grew(w: Writer, x: Writer, id: u64) {
    && id in w.acked && id in w.promised && id in x.acked && id in x.promised
    && w.acked[id] <= x.acked[id] && w.promised[id] <= x.promised[id]
  }

  lemma StepGrows(env: Env, w: Writer, step: Step, id: u64)
    requires Inv(env, w) && Enabled(env, w, step) && id in w.files
    ensures Grew(w, Apply(env, w, step), id) && id in Apply(env, w, step).files
  {
    hide PutSegmentHeader, Flat, IsFrame, AllFrames;
    assert FileOk(env, w, id);
    if w.open.Some? { assert ActiveOk(w); }
  }

  lemma {:induction false} RunGrows(env: Env, states: seq<Writer>, steps: seq<Step>, i: nat, n: nat, id: u64)
    requires Run(env, states, steps) && i <= n <= |steps| && id in states[i].files
    ensures Grew(states[i], states[n], id) && id in states[n].files
    decreases n
  {
    hide Enabled, Apply, Fresh, Inv, PutSegmentHeader, Flat, AllFrames;
    RunKeeps(env, states, steps, i);
    FileHistory(env, states[i], id);
    if i < n {
      RunGrows(env, states, steps, i, n - 1, id);
      RunKeeps(env, states, steps, n - 1);
      StepGrows(env, states[n - 1], steps[n - 1], id);
    }
  }

  lemma FileHistory(env: Env, w: Writer, id: u64)
    requires Inv(env, w) && id in w.files
    ensures Grew(w, w, id)
  {
    assert FileOk(env, w, id);
  }

  /** Between its own steps the committer keeps its token. */
  lemma {:induction false} TokenStays(env: Env, states: seq<Writer>, steps: seq<Step>, i: nat, n: nat)
    requires Run(env, states, steps) && i <= n <= |steps| && forall k :: i <= k < n ==> !OfTheRound(steps[k])
    ensures states[n].token == states[i].token
    decreases n
  {
    hide Enabled, Apply, Fresh;
    if i < n {
      TokenStays(env, states, steps, i, n - 1);
      TokenKept(env, states[n - 1], steps[n - 1]);
    }
  }

  lemma TokenKept(env: Env, w: Writer, step: Step)
    requires Enabled(env, w, step) && !OfTheRound(step)
    ensures Apply(env, w, step).token == w.token
  {
  }

  /** A round of the committer: take at `i`, fsync at `j`, publish at `k`, nothing else of it in between. */
  ghost predicate Round(steps: seq<Step>, i: nat, j: nat, k: nat) {
    && i < j < k < |steps| && steps[i].Take? && steps[j].Fsync? && steps[k].Publish?
    && (forall n :: i < n < j || j < n < k ==> !OfTheRound(steps[n]))
  }

  lemma RoundToken(env: Env, states: seq<Writer>, steps: seq<Step>, i: nat, j: nat, k: nat)
    requires Run(env, states, steps) && Round(steps, i, j, k)
    ensures Opened(states[i])
    ensures states[k].token == Fsynced(states[i].open.value.id, states[i].open.value.bytes)
  {
    hide Apply, Fresh, Flat, PutSegmentHeader, Inv;
    TokenStays(env, states, steps, i + 1, j);
    TokenStays(env, states, steps, j + 1, k);
    assert Enabled(env, states[i], steps[i]) && Enabled(env, states[j], steps[j]);
    TakeToken(env, states[i]);
    FsyncToken(env, states[j]);
  }

  lemma TakeToken(env: Env, w: Writer)
    requires Enabled(env, w, Take)
    ensures Apply(env, w, Take).token == Taken(w.open.value.id, w.open.value.bytes)
  {
  }

  lemma FsyncToken(env: Env, w: Writer)
    requires Enabled(env, w, Fsync)
    ensures Apply(env, w, Fsync).token == Fsynced(w.token.id, w.token.upto)
  {
  }

  /** What the token covers is in the file and acknowledged, and a segment no longer open was promised whole. */
  lemma TokenCovered(env: Env, w: Writer)
    requires Inv(env, w) && w.token.Fsynced? && w.open.Some?
    ensures Opened(w) && w.token.id in w.files && w.token.id in w.promised
    ensures w.token.id != w.open.value.id ==> w.promised[w.token.id] >= w.token.upto
  {
    hide PutSegmentHeader, Flat, IsFrame, AllFrames;
    var id := w.token.id;
    assert FileOk(env, w, id) && w.open.value.id == w.last;
  }

  lemma Published(env: Env, w: Writer)
    requires Opened(w) && w.token.Fsynced? && w.token.id in w.promised
    ensures var x := Apply(env, w, Publish);
            && w.token.id in x.promised
            && (if w.open.value.id == w.token.id
                then x.promised[w.token.id] >= w.token.upto && x.open.value.synced >= w.token.upto
                else x.promised == w.promised)
  {
  }

  /** After the publish, the promise for the segment covers what the round took, if a segment is open at all. */
  lemma PublishCovers(env: Env, w: Writer, id: u64)
    requires Inv(env, w) && w.token.Fsynced? && w.token.id == id && w.open.Some?
    ensures Opened(w) && id in w.files && id in Apply(env, w, Publish).promised
    ensures Apply(env, w, Publish).promised[id] >= w.token.upto
    ensures w.open.value.id == id ==>
              Apply(env, w, Publish).open.Some? && Apply(env, w, Publish).open.value.synced >= w.token.upto
  {
    hide Inv, Apply;
    TokenCovered(env, w);
    Published(env, w);
    SameOpen(env, w);
  }

  /** A round that succeeds promises every frame acknowledged when it began. */
  lemma CommitterRound(env: Env, states: seq<Writer>, steps: seq<Step>, i: nat, j: nat, k: nat)
    requires Run(env, states, steps) && Round(steps, i, j, k) && states[k].open.Some?
    ensures Opened(states[i])
    ensures var id := states[i].open.value.id;
            && id in states[k + 1].promised
            && states[k + 1].promised[id] >= Acknowledged(states[i], id)
            && (states[k + 1].open.Some? && states[k + 1].open.value.id == id ==>
                  states[k + 1].open.value.synced >= Acknowledged(states[i], id))
  {
    hide Apply, Fresh, Flat, PutSegmentHeader, Inv;
    RoundToken(env, states, steps, i, j, k);
    assert states[k + 1] == Apply(env, states[k], Publish);
    RunKeeps(env, states, steps, i);
    RunKeeps(env, states, steps, k);
    BytesAreAcked(env, states[i]);
    PublishCovers(env, states[k], states[i].open.value.id);
    SameOpen(env, states[k]);
  }

  lemma BytesAreAcked(env: Env, w: Writer)
    requires Inv(env, w) && Opened(w)
    ensures w.open.value.bytes == Acknowledged(w, w.open.value.id)
  {
    hide PutSegmentHeader, Flat;
  }

  lemma SameOpen(env: Env, w: Writer)
    requires Inv(env, w) && w.token.Fsynced? && w.open.Some?
    ensures Opened(w) && Enabled(env, w, Publish)
    ensures Apply(env, w, Publish).open.Some? && Apply(env, w, Publish).open.value.id == w.open.value.id
  {
    hide FileOk, SealedOk, ActiveOk, TokenOk;
  }

  /**
   * A frame acknowledged before a round that succeeds is read back after a crash at any later point, with
   * every frame acknowledged before it in the same segment and in that order.
   */
  lemma AckedSurvives(env: Env, states: seq<Writer>, steps: seq<Step>, i: nat, j: nat, k: nat, n: nat, cut: nat)
    requires Run(env, states, steps) && Round(steps, i, j, k) && states[k].open.Some? && k < n <= |steps|
    requires Opened(states[i]) && states[i].open.value.id in states[n].files
    requires var f := states[n].files[states[i].open.value.id]; f.durable <= cut <= |f.content|
    ensures cut >= SEGMENT_HEADER_BYTES
    ensures var id, acked := states[i].open.value.id, states[i].acked[states[i].open.value.id];
            var file := states[n].files[id].content[..cut];
            var s := ScanFrom(env, file, SEGMENT_HEADER_BYTES, |file|);
            && |acked| <= |s.frames| && Starts(acked, SEGMENT_HEADER_BYTES) <= s.frames
            && PutSegmentHeader(id) + Flat(acked) <= file
  {
    hide Enabled, Apply, Fresh, Flat, PutSegmentHeader, ScanFrom, Starts, Inv, AllFrames, Whole;
    var id := states[i].open.value.id;
    CommitterRound(env, states, steps, i, j, k);
    RunGrows(env, states, steps, i, n, id);
    RunGrows(env, states, steps, i, k + 1, id);
    RunGrows(env, states, steps, k + 1, n, id);
    CrashRecovers(env, states, steps, n, id, cut);
    var was, now, all := states[i].acked[id], states[n].acked[id], states[n].acked[id] + states[n].failed[id];
    assert now[..|was|] == was;
    var file := states[n].files[id].content[..cut];
    var s := ScanFrom(env, file, SEGMENT_HEADER_BYTES, |file|);
    assert |was| <= |s.frames|;
    assert all[..|s.frames|][..|was|] == was;
    PrefixStarts(all[..|s.frames|], |was|, SEGMENT_HEADER_BYTES);
    assert file[..s.end] <= file;
    PrefixFlat(all[..|s.frames|], |was|);
  }

  lemma {:induction false} PrefixStarts(frames: seq<Frame>, n: nat, at: nat)
    requires n <= |frames|
    ensures Starts(frames[..n], at) <= Starts(frames, at)
  {
    if n > 0 {
      PrefixStarts(frames[1..], n - 1, at + |frames[0]|);
      assert frames[..n][1..] == frames[1..][..n - 1];
    }
  }

  lemma PrefixFlat(frames: seq<Frame>, n: nat)
    requires n <= |frames|
    ensures Flat(frames[..n]) <= Flat(frames)
  {
    assert frames == frames[..n] + frames[n..];
    FlatConcat(frames[..n], frames[n..]);
  }
}
