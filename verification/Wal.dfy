/**
 * The WAL writer and its committer thread (src/wal/writer.rs) as interleaved
 * steps: each step is one critical section of the append lock, except the
 * committer's fsync, which runs outside it. A buffered write keeps the order of
 * bytes but may leave any prefix of them in the file, so a step is told how far
 * its bytes got.
 */
module Wal {
  import opened Bytes
  import opened Decimal
  import opened Codec
  import opened Segments

  type Frame = seq<byte>

  /** A segment file: what reads see, and how much of it a power cut cannot take. */
  datatype File = File(content: seq<byte>, durable: nat)

  /**
   * The open segment; `buffer` is written but not yet in the file, `bytes` counts acknowledged bytes, header
   * included.
   */
  datatype Active = Active(id: u64, buffer: seq<byte>, bytes: nat, synced: nat)

  /** The committer between taking `(id, upto)`, its fsync, and publishing. */
  datatype Token = Parked | Taken(id: u64, upto: nat) | Fsynced(id: u64, upto: nat)

  /**
   * `acked` and `failed` are history: the frames of successful appends and of the one that failed, by
   * segment. `promised` is the largest `synced` each segment ever showed. `last` is the newest segment.
   */
  datatype Writer = Writer(files: map<u64, File>, open: Option<Active>, needsRoll: bool, token: Token, last: u64,
                           acked: map<u64, seq<Frame>>, failed: map<u64, seq<Frame>>, promised: map<u64, nat>)

  datatype Step =
    | AppendOk(frames: seq<Frame>, reached: nat)
    | AppendErr(frames: seq<Frame>, taken: nat, reached: nat)
    | FlushErr(reached: nat)
    | FlushOnly
    | SyncInLock
    | Roll
    | Take
    | Fsync
    | FsyncErr
    | Publish
    | Writeback(id: u64, upto: nat)
    | CloseOk
    | CloseErr

  function Stream(w: Writer): seq<byte>
    requires w.open.Some? && w.open.value.id in w.files
  {
    w.files[w.open.value.id].content + w.open.value.buffer
  }

  /** The stream with its first `reached` bytes in the file and the rest in the buffer. */
  function Settle(w: Writer, stream: seq<byte>, reached: nat): Writer
    requires w.open.Some? && w.open.value.id in w.files && reached <= |stream|
  {
    var a := w.open.value;
    w.(files := w.files[a.id := w.files[a.id].(content := stream[..reached])],
       open := Some(a.(buffer := stream[reached..])))
  }

  predicate Opened(w: Writer) {
    && w.open.Some? && w.open.value.id in w.files && w.open.value.id in w.acked && w.open.value.id in w.failed
    && w.open.value.id in w.promised
  }

  predicate Enabled(env: Env, w: Writer, step: Step) {
    match step
    case AppendOk(frames, reached) =>
      && Opened(w) && !w.needsRoll && AllFrames(env, frames)
      && |w.files[w.open.value.id].content| <= reached <= |Stream(w) + Flat(frames)|
    case AppendErr(frames, taken, reached) =>
      && Opened(w) && !w.needsRoll && AllFrames(env, frames) && taken <= |Flat(frames)|
      && |w.files[w.open.value.id].content| <= reached <= |Stream(w) + Flat(frames)[..taken]|
    case FlushErr(reached) => Opened(w) && |w.files[w.open.value.id].content| <= reached <= |Stream(w)|
    case FlushOnly => Opened(w)
    case SyncInLock => Opened(w)
    case Roll => Opened(w) && w.open.value.id + 1 < U64_END && w.open.value.id + 1 !in w.files
    case Take => Opened(w)
    case Fsync => w.token.Taken? && w.token.id in w.files
    case FsyncErr => w.token.Taken?
    case Publish => w.token.Fsynced?
    case Writeback(id, upto) => id in w.files && w.files[id].durable <= upto <= |w.files[id].content|
    case CloseOk => Opened(w)
    case CloseErr => Opened(w)
  }

  /** Flush the buffer into the file. */
  function Flushed(w: Writer): Writer
    requires Opened(w)
  {
    Settle(w, Stream(w), |Stream(w)|)
  }

  /** Flush and fsync under the lock: everything acknowledged is durable. */
  function Synced(w: Writer): Writer
    requires Opened(w)
  {
    var f := Flushed(w);
    var a := f.open.value;
    f.(files := f.files[a.id := f.files[a.id].(durable := |f.files[a.id].content|)],
       open := Some(a.(synced := a.bytes)), promised := f.promised[a.id := a.bytes])
  }

  /** Switch to a new segment that holds its header, durably. */
  function Created(w: Writer, id: u64): Writer {
    var header := PutSegmentHeader(id);
    w.(files := w.files[id := File(header, |header|)], open := Some(Active(id, [], |header|, |header|)),
      needsRoll := false,
       last := id, acked := w.acked[id := []], failed := w.failed[id := []], promised := w.promised[id := |header|])
  }

  function Apply(env: Env, w: Writer, step: Step): Writer
    requires Enabled(env, w, step)
  {
    match step
    case AppendOk(frames, reached) =>
      var s := Settle(w, Stream(w) + Flat(frames), reached);
      var a := s.open.value;
      s.(open := Some(a.(bytes := a.bytes + |Flat(frames)|)), acked := s.acked[a.id := s.acked[a.id] + frames])
    case AppendErr(frames, taken, reached) =>
      var s := Settle(w, Stream(w) + Flat(frames)[..taken], reached);
      s.(needsRoll := true, failed := s.failed[s.open.value.id := frames])
    case FlushErr(reached) => Settle(w, Stream(w), reached)
    case FlushOnly => Flushed(w)
    case SyncInLock => Synced(w)
    case Roll =>
      Created(Synced(w), w.open.value.id + 1)
    case Take => Flushed(w).(token := Taken(w.open.value.id, w.open.value.bytes))
    case Fsync =>
      var t := w.token;
      w.(files := w.files[t.id := w.files[t.id].(durable := |w.files[t.id].content|)], token := Fsynced(t.id, t.upto))
    case FsyncErr => w.(token := Parked)
    case Publish =>
      var t := w.token;
      if Opened(w) && w.open.value.id == t.id then
        var a := w.open.value;
        var synced := if a.synced < t.upto then t.upto else a.synced;
        w.(token := Parked, open := Some(a.(synced := synced)), promised := w.promised[t.id := synced])
      else w.(token := Parked)
    case Writeback(id, upto) => w.(files := w.files[id := w.files[id].(durable := upto)])
    case CloseOk => Synced(w).(open := None)
    case CloseErr => w.(open := None)
  }

  // ---- the invariant ----------------------------------------------------------------

  /**
   * What a segment's bytes are a prefix of: its header, its acknowledged frames, then the frames of an append
   * that failed.
   */
  function Line(w: Writer, id: u64): seq<byte>
    requires id in w.acked && id in w.failed
  {
    PutSegmentHeader(id) + Flat(w.acked[id] + w.failed[id])
  }

  function Acknowledged(w: Writer, id: u64): nat
    requires id in w.acked
  {
    |PutSegmentHeader(id) + Flat(w.acked[id])|
  }

  ghost predicate FileOk(env: Env, w: Writer, id: u64) {
    && id in w.files && id in w.acked && id in w.failed && id in w.promised
    && AllFrames(env, w.acked[id] + w.failed[id])
    && w.files[id].content <= Line(w, id)
    && SEGMENT_HEADER_BYTES <= w.promised[id] <= w.files[id].durable <= |w.files[id].content|
    && w.promised[id] <= Acknowledged(w, id)
  }

  /** A segment with a successor: every acknowledged byte is in the file, and all of the file is durable. */
  ghost predicate SealedOk(w: Writer, id: u64)
    requires id in w.files && id in w.acked && id in w.promised
  {
    w.files[id].durable == |w.files[id].content| && w.promised[id] == Acknowledged(w, id) <= |w.files[id].content|
  }

  ghost predicate ActiveOk(w: Writer)
    requires w.open.Some? && Opened(w)
  {
    var a := w.open.value;
    && a.id == w.last && a.bytes == Acknowledged(w, a.id) && a.synced == w.promised[a.id]
    && Stream(w) <= Line(w, a.id) && a.bytes <= |Stream(w)|
    && (!w.needsRoll ==> w.failed[a.id] == [] && a.bytes == |Stream(w)|)
  }

  ghost predicate TokenOk(w: Writer) {
    match w.token
    case Parked => true
    case Taken(id, upto) => id in w.files && id in w.acked && upto <= |w.files[id].content|
      && upto <= Acknowledged(w, id)
    case Fsynced(id, upto) =>
      id in w.files && id in w.acked && upto <= w.files[id].durable && upto <= Acknowledged(w, id)
  }

  ghost predicate Inv(env: Env, w: Writer) {
    && (forall id :: id in w.files ==> FileOk(env, w, id) && id <= w.last && (id < w.last ==> SealedOk(w, id)))
    && (w.open.Some? ==> Opened(w) && ActiveOk(w))
    && TokenOk(w)
  }

  // ---- every step keeps it ------------------------------------------------------------

  /** Nothing but the bytes and the marks of one segment changed, and the files did not shrink. */
  ghost predicate OnlyGrew(w: Writer, x: Writer, id: u64) {
    && x.last == w.last && x.token == w.token
    && (forall i :: i in w.files <==> i in x.files)
    && (forall i :: i in w.acked && i != id ==> i in x.acked && x.acked[i] == w.acked[i])
    && (forall i :: i in w.failed && i != id ==> i in x.failed && x.failed[i] == w.failed[i])
    && (forall i :: i in w.promised && i != id ==> i in x.promised && x.promised[i] == w.promised[i])
    && (forall i :: i in w.files && i != id ==> x.files[i] == w.files[i])
    && (id in w.files ==> |w.files[id].content| <= |x.files[id].content| && w.files[id].durable <= x.files[id].durable)
    && (id in w.acked ==> id in x.acked && Acknowledged(w, id) <= Acknowledged(x, id))
  }

  /** A change to the active segment, or to a mark of a sealed one, is judged by that segment alone. */
  lemma Local(env: Env, w: Writer, x: Writer, id: u64)
    requires Inv(env, w) && OnlyGrew(w, x, id) && id in w.files
    requires FileOk(env, x, id) && (id < x.last ==> SealedOk(x, id))
    requires x.open.Some? ==> Opened(x) && ActiveOk(x)
    ensures Inv(env, x)
  {
    hide PutSegmentHeader, Flat, IsFrame, AllFrames, ActiveOk;
    forall i | i in x.files ensures FileOk(env, x, i) && i <= x.last && (i < x.last ==> SealedOk(x, i)) {
      assert FileOk(env, w, i);
    }
  }

  lemma SettleKeeps(env: Env, w: Writer, reached: nat)
    requires Inv(env, w) && Enabled(env, w, FlushErr(reached))
    ensures Inv(env, Settle(w, Stream(w), reached))
    ensures Stream(Settle(w, Stream(w), reached)) == Stream(w)
  {
    hide PutSegmentHeader, Flat, IsFrame, AllFrames;
    var x := Settle(w, Stream(w), reached);
    assert Stream(x) == Stream(w);
    Local(env, w, x, w.open.value.id);
  }

  lemma SyncedKeeps(env: Env, w: Writer)
    requires Inv(env, w) && Opened(w)
    ensures Inv(env, Synced(w)) && SealedOk(Synced(w), w.open.value.id)
  {
    hide PutSegmentHeader, Flat, IsFrame, AllFrames;
    SettleKeeps(env, w, |Stream(w)|);
    var f, x, id := Flushed(w), Synced(w), w.open.value.id;
    assert Stream(w)[|Stream(w)|..] == [];
    assert Stream(x) == Stream(f) == f.files[id].content;
    Local(env, f, x, id);
  }

  lemma AppendOkKeeps(env: Env, w: Writer, frames: seq<Frame>, reached: nat)
    requires Inv(env, w) && Enabled(env, w, AppendOk(frames, reached))
    ensures Inv(env, Apply(env, w, AppendOk(frames, reached)))
  {
    hide PutSegmentHeader, Flat, IsFrame;
    var x, id := Apply(env, w, AppendOk(frames, reached)), w.open.value.id;
    var s := Stream(w) + Flat(frames);
    FlatConcat(w.acked[id], frames);
    assert w.acked[id] + [] == w.acked[id] && w.acked[id] + frames + [] == w.acked[id] + frames;
    assert Line(x, id) == Line(w, id) + Flat(frames);
    assert Stream(w) == Line(w, id);
    assert Stream(x) == s;
    Local(env, w, x, id);
  }

  lemma AppendErrKeeps(env: Env, w: Writer, frames: seq<Frame>, taken: nat, reached: nat)
    requires Inv(env, w) && Enabled(env, w, AppendErr(frames, taken, reached))
    ensures Inv(env, Apply(env, w, AppendErr(frames, taken, reached)))
  {
    hide PutSegmentHeader, Flat, IsFrame;
    var x, id := Apply(env, w, AppendErr(frames, taken, reached)), w.open.value.id;
    var s := Stream(w) + Flat(frames)[..taken];
    FlatConcat(w.acked[id], frames);
    assert w.acked[id] + [] == w.acked[id];
    assert Line(x, id) == Line(w, id) + Flat(frames);
    assert Stream(w) == Line(w, id);
    assert Stream(x) == s;
    Local(env, w, x, id);
  }

  /**
   * Opening the successor of a synced segment: the one before is sealed, and the new one reads as its id with
   * no frame.
   */
  lemma CreateKeeps(env: Env, w: Writer, id: u64)
    requires Inv(env, w) && id !in w.files && id == w.last + 1 && (w.last in w.files ==> SealedOk(w, w.last))
    ensures var x := Created(w, id);
            && Inv(env, x) && (forall i :: i in w.files ==> x.files[i] == w.files[i] && SealedOk(x, i))
            && ParseSegmentHeader(x.files[id].content) == Ok(id)
            && x.files[id].durable == SEGMENT_HEADER_BYTES == |x.files[id].content|
  {
    hide PutSegmentHeader, IsFrame, ParseSegmentHeader;
    var x := Created(w, id);
    HeaderSurvives(PutSegmentHeader(id), id);
    assert Line(x, id) == PutSegmentHeader(id) && Stream(x) == PutSegmentHeader(id);
    forall i | i in x.files ensures FileOk(env, x, i) && i <= x.last && (i < x.last ==> SealedOk(x, i)) {
      if i != id { assert FileOk(env, w, i); }
    }
  }

  lemma RollKeeps(env: Env, w: Writer)
    requires Inv(env, w) && Enabled(env, w, Roll)
    ensures Inv(env, Apply(env, w, Roll))
  {
    hide PutSegmentHeader, IsFrame, Inv, SealedOk, FileOk, Stream;
    SyncedKeeps(env, w);
    OpenIsLast(env, w);
    CreateKeeps(env, Synced(w), w.open.value.id + 1);
  }

  lemma OpenIsLast(env: Env, w: Writer)
    requires Inv(env, w) && Opened(w)
    ensures w.open.value.id == w.last
  {
  }

  lemma TakeKeeps(env: Env, w: Writer)
    requires Inv(env, w) && Opened(w)
    ensures Inv(env, Apply(env, w, Take))
  {
    hide PutSegmentHeader, Flat, IsFrame, AllFrames;
    SettleKeeps(env, w, |Stream(w)|);
  }

  lemma TokenKeeps(env: Env, w: Writer, t: Token)
    requires Inv(env, w) && TokenOk(w.(token := t))
    ensures Inv(env, w.(token := t))
  {
    hide PutSegmentHeader, Flat, IsFrame, AllFrames, TokenOk;
    var x := w.(token := t);
    forall i | i in x.files ensures FileOk(env, x, i) && i <= x.last && (i < x.last ==> SealedOk(x, i)) {
      assert FileOk(env, w, i);
    }
  }

  /** An fsync, or the kernel writing back on its own. */
  lemma WritebackKeeps(env: Env, w: Writer, id: u64, upto: nat)
    requires Inv(env, w) && Enabled(env, w, Writeback(id, upto))
    ensures Inv(env, Apply(env, w, Writeback(id, upto)))
  {
    hide PutSegmentHeader, Flat, IsFrame, AllFrames, TokenOk;
    var x := Apply(env, w, Writeback(id, upto));
    assert FileOk(env, w, id);
    ActiveFrame(w, x);
    Local(env, w, x, id);
  }

  /** The active segment's bookkeeping does not depend on how much of it is durable. */
  lemma ActiveFrame(w: Writer, x: Writer)
    requires x == w.(files := x.files) && x.files.Keys == w.files.Keys
    requires forall i :: i in w.files ==> x.files[i].content == w.files[i].content
    ensures w.open.Some? && Opened(w) && ActiveOk(w) ==> Opened(x) && ActiveOk(x)
  {
    hide PutSegmentHeader, Flat;
  }

  lemma FsyncKeeps(env: Env, w: Writer)
    requires Inv(env, w) && Enabled(env, w, Fsync)
    ensures Inv(env, Apply(env, w, Fsync))
  {
    hide PutSegmentHeader, Flat, IsFrame, AllFrames, FileOk, SealedOk, ActiveOk;
    var t := w.token;
    HasFile(env, w, t.id);
    WritebackKeeps(env, w, t.id, |w.files[t.id].content|);
    TokenKeeps(env, Apply(env, w, Writeback(t.id, |w.files[t.id].content|)), Fsynced(t.id, t.upto));
  }

  lemma HasFile(env: Env, w: Writer, id: u64)
    requires Inv(env, w) && id in w.files
    ensures w.files[id].durable <= |w.files[id].content|
  {
  }

  lemma PublishKeeps(env: Env, w: Writer)
    requires Inv(env, w) && Enabled(env, w, Publish)
    ensures Inv(env, Apply(env, w, Publish))
  {
    hide PutSegmentHeader, Flat, IsFrame, AllFrames, FileOk, SealedOk, ActiveOk;
    if Opened(w) && w.open.value.id == w.token.id { MarkKeeps(env, w); }
    TokenKeeps(env, Apply(env, w, Publish).(token := w.token), Parked);
  }

  lemma MarkKeeps(env: Env, w: Writer)
    requires Inv(env, w) && w.token.Fsynced? && Opened(w) && w.open.value.id == w.token.id
    ensures Inv(env, Apply(env, w, Publish).(token := w.token))
  {
    hide PutSegmentHeader, Flat, IsFrame, AllFrames;
    var x := Apply(env, w, Publish).(token := w.token);
    assert FileOk(env, w, w.token.id);
    assert Stream(x) == Stream(w);
    Local(env, w, x, w.token.id);
  }

  lemma StepKeeps(env: Env, w: Writer, step: Step)
    requires Inv(env, w) && Enabled(env, w, step)
    ensures Inv(env, Apply(env, w, step))
  {
    hide PutSegmentHeader, Flat, IsFrame, AllFrames, FileOk, SealedOk, ActiveOk, Line;
    match step {
      case AppendOk(frames, reached) => AppendOkKeeps(env, w, frames, reached);
      case AppendErr(frames, taken, reached) => AppendErrKeeps(env, w, frames, taken, reached);
      case FlushErr(reached) => SettleKeeps(env, w, reached);
      case FlushOnly => SettleKeeps(env, w, |Stream(w)|);
      case SyncInLock => SyncedKeeps(env, w);
      case Roll => RollKeeps(env, w);
      case Take => TakeKeeps(env, w);
      case Fsync => FsyncKeeps(env, w);
      case FsyncErr => TokenKeeps(env, w, Parked);
      case Publish => PublishKeeps(env, w);
      case Writeback(id, upto) => WritebackKeeps(env, w, id, upto);
      case CloseOk => SyncedKeeps(env, w); CloseKeeps(env, Synced(w));
      case CloseErr => CloseKeeps(env, w);
    }
  }

  lemma CloseKeeps(env: Env, w: Writer)
    requires Inv(env, w)
    ensures Inv(env, w.(open := None))
  {
    hide PutSegmentHeader, Flat, IsFrame, AllFrames;
    var x := w.(open := None);
    forall i | i in x.files ensures FileOk(env, x, i) && i <= x.last && (i < x.last ==> SealedOk(x, i)) {
      assert FileOk(env, w, i);
    }
  }

  // ---- runs and crashes -----------------------------------------------------------------

  /** A writer just opened on segment `id`, beside the segments an earlier process left. */
  function Fresh(id: u64): Writer {
    var header := PutSegmentHeader(id);
    Writer(map[id := File(header, |header|)], Some(Active(id, [], |header|, |header|)), false, Parked, id,
           map[id := []], map[id := []], map[id := |header|])
  }

  ghost predicate Run(env: Env, states: seq<Writer>, steps: seq<Step>) {
    && |states| == |steps| + 1 && (exists id :: states[0] == Fresh(id))
    && forall i :: 0 <= i < |steps| ==>
         Enabled(env, states[i], steps[i]) && states[i + 1] == Apply(env, states[i], steps[i])
  }

  lemma FreshOk(env: Env, id: u64)
    ensures Inv(env, Fresh(id))
  {
  }

  lemma {:induction false} RunKeeps(env: Env, states: seq<Writer>, steps: seq<Step>, n: nat)
    requires Run(env, states, steps) && n <= |steps|
    ensures Inv(env, states[n])
  {
    hide Inv, Enabled, Apply, Fresh;
    if n == 0 {
      var id :| states[0] == Fresh(id);
      FreshOk(env, id);
    } else {
      RunKeeps(env, states, steps, n - 1);
      StepKeeps(env, states[n - 1], steps[n - 1]);
    }
  }

  /**
   * `synced` covers only bytes in the file and durable there; a segment has a successor only once all of it is
   * synced.
   */
  lemma SyncedIsDurable(env: Env, states: seq<Writer>, steps: seq<Step>, n: nat)
    requires Run(env, states, steps) && n <= |steps|
    ensures var w := states[n];
            && (Opened(w) ==>
                 w.open.value.synced <= w.files[w.open.value.id].durable <= |w.files[w.open.value.id].content|)
            && (forall id :: id in w.files && id < w.last ==>
                  id in w.acked && w.files[id].durable == |w.files[id].content|
                    && Acknowledged(w, id) <= |w.files[id].content|)
  {
    hide Enabled, Apply, PutSegmentHeader, Flat, IsFrame, AllFrames, Fresh;
    RunKeeps(env, states, steps, n);
    var w := states[n];
    if Opened(w) { assert FileOk(env, w, w.open.value.id); }
    forall id | id in w.files && id < w.last
      ensures id in w.acked && w.files[id].durable == |w.files[id].content|
      ensures Acknowledged(w, id) <= |w.files[id].content|
    {
      assert FileOk(env, w, id) && SealedOk(w, id);
    }
  }

  lemma {:induction false} WholePrefix(frames: seq<Frame>, cut: nat)
    requires cut <= |Flat(frames)|
    ensures var k := Whole(frames, cut); Flat(frames[..k]) <= Flat(frames)[..cut]
    ensures (forall i :: 0 <= i < |frames| ==> |frames[i]| > 0) ==>
              forall j :: 0 <= j <= |frames| && |Flat(frames[..j])| <= cut ==> j <= Whole(frames, cut)
    decreases |frames|
  {
    if frames != [] && cut >= |frames[0]| {
      var f, rest := frames[0], frames[1..];
      WholePrefix(rest, cut - |f|);
      var k := Whole(rest, cut - |f|);
      assert frames[..k + 1] == [f] + rest[..k];
      assert frames[..k + 1][1..] == rest[..k];
      assert Flat(frames)[..cut] == f + Flat(rest)[..cut - |f|];
      forall j | 0 < j <= |frames| && |Flat(frames[..j])| <= cut && (forall i :: 0 <= i < |frames| ==> |frames[i]| > 0)
        ensures j <= k + 1
      {
        assert frames[..j][1..] == rest[..j - 1];
        assert |Flat(rest[..j - 1])| <= cut - |f|;
        assert forall i :: 0 <= i < |rest| ==> rest[i] == frames[i + 1];
      }
    } else if frames != [] {
      assert frames[..0] == [];
      forall j | 0 < j <= |frames| ensures |Flat(frames[..j])| >= |frames[0]| { assert frames[..j][0] == frames[0]; }
    }
  }

  /**
   * Recovery's scan of concatenated frames cut anywhere finds exactly the whole ones, under the cap of the cut
   * file's own size.
   */
  lemma TornScan(env: Env, pre: seq<byte>, frames: seq<Frame>, cut: nat)
    requires AllFrames(env, frames) && cut <= |Flat(frames)|
    ensures var file, k := pre + Flat(frames)[..cut], Whole(frames, cut);
            var s := ScanFrom(env, file, |pre|, |file|);
            s.frames == Starts(frames[..k], |pre|) && s.end == |pre + Flat(frames[..k])|
  {
    hide ScanFrom, Starts, IsFrame, Whole;
    var file, k, cap := pre + Flat(frames)[..cut], Whole(frames, cut), |pre| + |Flat(frames)|;
    forall i | 0 <= i < |frames| ensures |frames[i]| <= cap + 8 { FlatLength(frames, i); }
    ScanOfCut(env, pre, frames, cut, cap);
    WholePrefix(frames, cut);
    var whole := Flat(frames[..k]);
    var junk := Flat(frames)[..cut][|whole|..];
    assert file == pre + whole + junk;
    ScanFindsIntactFrames(env, pre, frames[..k], junk);
    ScanExtends(env, file, file, |pre|, |file|, cap);
  }

  lemma FramesNotEmpty(env: Env, frames: seq<Frame>)
    requires AllFrames(env, frames)
    ensures forall i :: 0 <= i < |frames| ==> |frames[i]| > 0
  {
    hide IsFrame;
    forall i | 0 <= i < |frames| ensures |frames[i]| > 0 { FrameInBounds(env, frames[i]); }
  }

  lemma HeaderSurvives(bytes: seq<byte>, id: u64)
    requires PutSegmentHeader(id) <= bytes
    ensures ParseSegmentHeader(bytes) == Ok(id)
  {
    hide PutSegmentHeader, ParseSegmentHeader;
    assert bytes[0..|PutSegmentHeader(id)|] == PutSegmentHeader(id);
    SegmentHeaderCodes(bytes, id);
  }

  /**
   * A crash at any point of any run leaves each segment with its header and some prefix of its
   * frames; recovery reads back, in append order, at least every acknowledged frame `synced` covered,
   * and never one behind a torn frame.
   */
  lemma CrashRecovers(env: Env, states: seq<Writer>, steps: seq<Step>, n: nat, id: u64, cut: nat)
    requires Run(env, states, steps) && n <= |steps| && id in states[n].files
    requires states[n].files[id].durable <= cut <= |states[n].files[id].content|
    ensures id in states[n].acked && id in states[n].failed && id in states[n].promised && cut >= SEGMENT_HEADER_BYTES
    ensures var w := states[n];
            var file, frames := w.files[id].content[..cut], w.acked[id] + w.failed[id];
            var s := ScanFrom(env, file, SEGMENT_HEADER_BYTES, |file|);
            && ParseSegmentHeader(file) == Ok(id)
            && |s.frames| == Whole(frames, cut - SEGMENT_HEADER_BYTES)
            && s.frames == Starts(frames[..|s.frames|], SEGMENT_HEADER_BYTES)
            && file[..s.end] == PutSegmentHeader(id) + Flat(frames[..|s.frames|])
            && (forall j :: 0 <= j <= |w.acked[id]| ==>
                  SEGMENT_HEADER_BYTES + |Flat(w.acked[id][..j])| <= w.promised[id] ==> j <= |s.frames|)
  {
    hide Enabled, Apply, Fresh, ScanFrom, Starts, Flat, AllFrames, IsFrame, Whole, PutSegmentHeader, ParseSegmentHeader,
      Inv;
    var w := states[n];
    FileAt(env, states, steps, n, id);
    var head, frames, file := PutSegmentHeader(id), w.acked[id] + w.failed[id], w.files[id].content[..cut];
    var inner := cut - SEGMENT_HEADER_BYTES;
    assert file == head + Flat(frames)[..inner] && |head| == SEGMENT_HEADER_BYTES;
    HeaderSurvives(file, id);
    TornScan(env, head, frames, inner);
    WholePrefix(frames, inner);
    FramesNotEmpty(env, frames);
    forall j | 0 <= j <= |w.acked[id]| && SEGMENT_HEADER_BYTES + |Flat(w.acked[id][..j])| <= w.promised[id]
      ensures j <= Whole(frames, inner)
    {
      assert frames[..j] == w.acked[id][..j];
    }
    assert file[..|head| + |Flat(frames[..Whole(frames, inner)])|] == head + Flat(frames[..Whole(frames, inner)]);
  }

  lemma FileAt(env: Env, states: seq<Writer>, steps: seq<Step>, n: nat, id: u64)
    requires Run(env, states, steps) && n <= |steps| && id in states[n].files
    ensures FileOk(env, states[n], id)
  {
    hide Enabled, Apply, FileOk, SealedOk, ActiveOk;
    RunKeeps(env, states, steps, n);
  }
}
