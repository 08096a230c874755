/** `append_raw` (src/engine.rs): client-encoded frames, checked by their prefix and kept byte for byte. */
module Ingest {
  import opened Bytes
  import opened Decimal
  import opened Codec
  import opened Segments
  import opened Wal
  import opened Accept
  import opened Manifest
  import Client

  /** The accept decision on a frame's prefix. */
  type Judge = Prefix -> bool

  function PrefixAt(env: Env, f: Frame): Prefix
    requires IsFrame(env, f)
  {
    ValidatePrefix(env, f, |f|).value.0
  }

  /** The frames the judge lets through, in order. */
  function Good(env: Env, frames: seq<Frame>, judge: Judge): seq<Frame>
    requires AllFrames(env, frames)
  {
    if frames == [] then []
    else (if judge(PrefixAt(env, frames[0])) then [frames[0]] else []) + Good(env, frames[1..], judge)
  }

  datatype RawIngest = RawIngest(accepted: nat, rejected: nat, discardedBytes: nat)

  /** The frames `validate_prefix` finds one after another, and the bytes from the first that is none. */
  function SplitBody(env: Env, bytes: seq<byte>, limit: nat): (seq<Frame>, seq<byte>)
    decreases |bytes|
  {
    if bytes == [] || ValidatePrefix(env, bytes, limit).Err? then ([], bytes)
    else
      OneFrame(env, bytes, limit);
      var n := ValidatePrefix(env, bytes, limit).value.1;
      var (frames, rest) := SplitBody(env, bytes[n..], limit);
      ([bytes[..n]] + frames, rest)
  }

  /** The split loses no byte: whole frames, then a rest that starts with none. */
  lemma {:induction false} SplitKeepsBytes(env: Env, bytes: seq<byte>, limit: nat)
    ensures var (frames, rest) := SplitBody(env, bytes, limit);
            && AllFrames(env, frames) && bytes == Flat(frames) + rest
            && (rest != [] ==> ValidatePrefix(env, rest, limit).Err?)
    decreases |bytes|
  {
    hide ValidatePrefix, IsFrame, SplitBody, Flat;
    SplitStep(env, bytes, limit);
    FlatOfNone();
    if bytes != [] && ValidatePrefix(env, bytes, limit).Ok? {
      OneFrame(env, bytes, limit);
      var n := ValidatePrefix(env, bytes, limit).value.1;
      SplitKeepsBytes(env, bytes[n..], limit);
      var (frames, rest) := SplitBody(env, bytes[n..], limit);
      FlatConcat([bytes[..n]], frames);
      FlatOfOne(bytes[..n]);
      assert bytes == bytes[..n] + bytes[n..];
    }
  }

  lemma OneFrame(env: Env, bytes: seq<byte>, limit: nat)
    requires ValidatePrefix(env, bytes, limit).Ok?
    ensures var n := ValidatePrefix(env, bytes, limit).value.1;
            && 30 <= n <= |bytes| && IsFrame(env, bytes[..n])
            && PrefixAt(env, bytes[..n]) == ValidatePrefix(env, bytes, limit).value.0
  {
    hide GetPrefix, FramePayload;
    ValidatedFrame(env, bytes, limit);
    var n := ValidatePrefix(env, bytes, limit).value.1;
    FrameIsLocal(env, bytes, limit, bytes[..n], n);
    assert bytes[..n][8..n] == bytes[8..n];
  }

  lemma GoodConcat(env: Env, frames: seq<Frame>, f: Frame, judge: Judge)
    requires AllFrames(env, frames) && IsFrame(env, f)
    ensures AllFrames(env, frames + [f])
    ensures Good(env, frames + [f], judge) == Good(env, frames, judge) + if judge(PrefixAt(env, f)) then [f] else []
    ensures Flat(frames + [f]) == Flat(frames) + f
    decreases |frames|
  {
    hide IsFrame, PrefixAt;
    FlatConcat(frames, [f]);
    assert Flat([f]) == f + [];
    if frames == [] {
      assert frames + [f] == [f];
    } else {
      assert (frames + [f])[1..] == frames[1..] + [f];
      GoodConcat(env, frames[1..], f, judge);
    }
  }

  /**
   * Split a batch body frame by frame, keeping exactly the accepted frames, byte for byte and in order.
   * The first bytes that are not a frame end the batch.
   */
  method AppendRaw(env: Env, body: seq<byte>, limit: nat, judge: Judge) returns (good: seq<byte>, out: RawIngest)
    ensures AllFrames(env, SplitBody(env, body, limit).0)
    ensures var (frames, rest) := SplitBody(env, body, limit);
            && good == Flat(Good(env, frames, judge)) && out.accepted == |Good(env, frames, judge)|
            && out.accepted + out.rejected == |frames| + (if rest == [] then 0 else 1) && out.discardedBytes == |rest|
  {
    hide ValidatePrefix, IsFrame, Flat, PrefixAt, SplitBody;
    good, out := [], RawIngest(0, 0, 0);
    ghost var frames: seq<Frame> := [];
    var bytes := body;
    FlatOfNone();
    SplitKeepsBytes(env, body, limit);
    assert [] + SplitBody(env, body, limit).0 == SplitBody(env, body, limit).0;
    while bytes != []
      invariant AllFrames(env, frames) && good == Flat(Good(env, frames, judge))
      invariant SplitBody(env, body, limit) == (frames + SplitBody(env, bytes, limit).0, SplitBody(env, bytes, limit).1)
      invariant out.accepted == |Good(env, frames, judge)|
      invariant out.discardedBytes == 0 && out.accepted + out.rejected == |frames|
      decreases |bytes|
    {
      var v := ValidatePrefix(env, bytes, limit);
      SplitStep(env, bytes, limit);
      if v.Err? {
        assert frames + [] == frames;
        out := out.(rejected := out.rejected + 1, discardedBytes := |bytes|);
        return;
      }
      OneFrame(env, bytes, limit);
      var prefix, n := v.value.0, v.value.1;
      var frame := bytes[..n];
      KeepOne(env, frames, frame, judge);
      assert frames + ([frame] + SplitBody(env, bytes[n..], limit).0)
        == (frames + [frame]) + SplitBody(env, bytes[n..], limit).0;
      frames, bytes := frames + [frame], bytes[n..];
      if judge(prefix) {
        good := good + frame;
        out := out.(accepted := out.accepted + 1);
      } else {
        out := out.(rejected := out.rejected + 1);
      }
    }
    SplitStep(env, bytes, limit);
    assert frames + [] == frames;
  }

  lemma SplitStep(env: Env, bytes: seq<byte>, limit: nat)
    ensures bytes == [] || ValidatePrefix(env, bytes, limit).Err? ==> SplitBody(env, bytes, limit) == ([], bytes)
    ensures bytes != [] && ValidatePrefix(env, bytes, limit).Ok? ==>
              var n := ValidatePrefix(env, bytes, limit).value.1;
              && n <= |bytes|
              && SplitBody(env, bytes, limit)
                   == ([bytes[..n]] + SplitBody(env, bytes[n..], limit).0, SplitBody(env, bytes[n..], limit).1)
  {
    hide ValidatePrefix, IsFrame;
    if bytes != [] && ValidatePrefix(env, bytes, limit).Ok? { OneFrame(env, bytes, limit); }
  }

  lemma KeepOne(env: Env, frames: seq<Frame>, f: Frame, judge: Judge)
    requires AllFrames(env, frames) && IsFrame(env, f)
    ensures AllFrames(env, frames + [f])
    ensures Good(env, frames + [f], judge) == Good(env, frames, judge) + if judge(PrefixAt(env, f)) then [f] else []
    ensures Flat(Good(env, frames + [f], judge)) == Flat(Good(env, frames, judge)) +
              if judge(PrefixAt(env, f)) then f else []
  {
    hide IsFrame, PrefixAt, Flat, Good;
    GoodConcat(env, frames, f, judge);
    FlatConcat(Good(env, frames, judge), [f]);
    FlatOfOne(f);
    var g := Good(env, frames, judge);
    assert g + [] == g && Flat(g) + [] == Flat(g);
  }

  lemma FlatOfNone()
    ensures Flat([]) == []
  {
  }

  lemma FlatOfOne(f: Frame)
    ensures Flat([f]) == f
  {
    assert Flat([f]) == f + [];
  }

  /** How many frames stand before the first one over the record limit. */
  function Within(sent: seq<Frame>, limit: nat): (n: nat)
    ensures n <= |sent| && (forall i :: 0 <= i < n ==> |sent[i]| <= limit + 8) && (n < |sent| ==> |sent[n]| > limit + 8)
  {
    if sent == [] || |sent[0]| > limit + 8 then 0 else 1 + Within(sent[1..], limit)
  }

  /** A frame over the limit is refused, whatever follows it. */
  lemma FrameOverCap(env: Env, f: Frame, tail: seq<byte>, limit: nat)
    requires IsFrame(env, f) && |f| > limit + 8
    ensures ValidatePrefix(env, f + tail, limit).Err?
  {
    hide GetPrefix, FromLe;
    assert (f + tail)[..4] == f[..4];
  }

  /** A body of whole frames splits into those before the first one over the limit; the rest is not split. */
  lemma {:induction false} SplitsUpTo(env: Env, sent: seq<Frame>, limit: nat)
    requires AllFrames(env, sent)
    ensures var n := Within(sent, limit); SplitBody(env, Flat(sent), limit) == (sent[..n], Flat(sent[n..]))
    decreases |sent|
  {
    hide ValidatePrefix, IsFrame, SplitBody, Flat;
    FlatParts(env, sent);
    SplitStep(env, Flat(sent), limit);
    if sent != [] {
      var f, tail := sent[0], Flat(sent[1..]);
      if |f| > limit + 8 {
        FrameOverCap(env, f, tail, limit);
        assert sent[0..] == sent;
      } else {
        FrameUnderCap(env, f, tail, limit);
        assert (f + tail)[..|f|] == f && (f + tail)[|f|..] == tail;
        SplitsUpTo(env, sent[1..], limit);
        var n := Within(sent, limit);
        assert sent[..n] == [f] + sent[1..][..n - 1] && sent[n..] == sent[1..][n - 1..];
      }
    }
  }

  /**
   * It splits back into exactly the frames sent exactly when each is within the limit; otherwise bytes are
   * discarded.
   */
  lemma SplitsBack(env: Env, sent: seq<Frame>, limit: nat)
    requires AllFrames(env, sent)
    ensures SplitBody(env, Flat(sent), limit) == (sent, []) <==> forall i :: 0 <= i < |sent| ==> |sent[i]| <= limit + 8
    ensures SplitBody(env, Flat(sent), limit).1 == [] <==> forall i :: 0 <= i < |sent| ==> |sent[i]| <= limit + 8
  {
    hide SplitBody, IsFrame, Flat;
    var n := Within(sent, limit);
    SplitsUpTo(env, sent, limit);
    FlatParts(env, sent[n..]);
    if n == |sent| { assert sent[..n] == sent; }
  }

  lemma FlatParts(env: Env, frames: seq<Frame>)
    requires AllFrames(env, frames)
    ensures frames == [] ==> Flat(frames) == []
    ensures frames != [] ==> Flat(frames) == frames[0] + Flat(frames[1..]) && |Flat(frames)| > 0
  {
    hide IsFrame;
    if frames != [] { FrameInBounds(env, frames[0]); }
  }

  /**
   * End to end, in every state of a client: the server splits the body of each message into the frames of
   * the batch sent, in order, up to the first one over its record limit; into all of them exactly when none
   * is, as when the client's message limit leaves no room for one.
   */
  lemma SentBatchArrives(env: Env, maxBatch: nat, b: Client.Books, limit: nat, i: nat)
    requires Client.Balanced(env, maxBatch, b) && i < |b.wire|
    ensures |b.wire| == |Client.That(b.batches, true)| && |b.wire[i]| >= BATCH_HEADER_BYTES
    ensures var msg, frames := b.wire[i], Client.That(b.batches, true)[i].frames;
            var n := Within(frames, limit);
            && Client.ParseBatchHeader(msg) == Ok(|frames| % U32_END)
            && SplitBody(env, msg[BATCH_HEADER_BYTES..], limit) == (frames[..n], Flat(frames[n..]))
            && (SplitBody(env, msg[BATCH_HEADER_BYTES..], limit) == (frames, []) <==>
                forall j :: 0 <= j < |frames| ==> |frames[j]| <= limit + 8)
            && (maxBatch <= BATCH_HEADER_BYTES + limit + 8 ==>
                  SplitBody(env, msg[BATCH_HEADER_BYTES..], limit) == (frames, []))
  {
    hide ValidatePrefix, IsFrame, Flat, Client.Balanced, Client.ParseBatchHeader, SplitBody, Within;
    Client.MessagesFit(env, maxBatch, b, i);
    var frames := Client.That(b.batches, true)[i].frames;
    SplitsUpTo(env, frames, limit);
    SplitsBack(env, frames, limit);
    forall j | 0 <= j < |frames| ensures |frames[j]| <= |Flat(frames)| { FlatLength(frames, j); }
  }

  /** The engine's judge: the timestamp window, and an epoch the handle's own or earlier. */
  function Known(handles: map<Text, Handle>, now: u64, tsMin: u64, skew: u64): Judge {
    (p: Prefix) => TsAccepted(p.ts, now, tsMin, skew) && p.series in handles && handles[p.series].epoch >= p.epoch
  }

  /** The judge in numbers: the window of `append`, a series that is open, and no epoch after its own. */
  lemma KnownIs(handles: map<Text, Handle>, p: Prefix, now: u64, tsMin: u64, skew: u64)
    ensures Known(handles, now, tsMin, skew)(p) <==>
            && tsMin <= p.ts && (now < tsMin || p.ts <= now + skew)
            && p.series in handles && p.epoch <= handles[p.series].epoch
  {
  }

  /** A frame the engine keeps of a raw batch. */
  ghost predicate Admitted(env: Env, handles: map<Text, Handle>, now: u64, tsMin: u64, skew: u64, f: Frame)
    requires IsFrame(env, f)
  {
    var p := PrefixAt(env, f);
    && tsMin <= p.ts && (now < tsMin || p.ts <= now + skew)
    && p.series in handles && p.epoch <= handles[p.series].epoch
  }

  /** `kept` are the frames of `frames` at the positions `at`, which are those of the admitted ones. */
  ghost predicate Selects(env: Env, handles: map<Text, Handle>, now: u64, tsMin: u64, skew: u64, frames: seq<Frame>,
                          kept: seq<Frame>, at: seq<nat>)
    requires AllFrames(env, frames)
  {
    && |at| == |kept| && (forall i, j :: 0 <= i < j < |at| ==> at[i] < at[j])
    && (forall i :: 0 <= i < |at| ==> at[i] < |frames| && kept[i] == frames[at[i]])
    && (forall k :: 0 <= k < |frames| ==> (k in at <==> Admitted(env, handles, now, tsMin, skew, frames[k])))
  }

  lemma {:induction false} GoodSelects(env: Env, frames: seq<Frame>, handles: map<Text, Handle>, now: u64, tsMin: u64,
                                       skew: u64)
    returns (at: seq<nat>)
    requires AllFrames(env, frames)
    ensures Selects(env, handles, now, tsMin, skew, frames, Good(env, frames, Known(handles, now, tsMin, skew)), at)
    decreases |frames|
  {
    hide IsFrame, PrefixAt, Good;
    var judge := Known(handles, now, tsMin, skew);
    if frames == [] {
      at := [];
      NoneGood(env, judge);
    } else {
      var n := |frames| - 1;
      var init, f := frames[..n], frames[n];
      var before := GoodSelects(env, init, handles, now, tsMin, skew);
      GoodConcat(env, init, f, judge);
      assert frames == init + [f];
      KnownIs(handles, PrefixAt(env, f), now, tsMin, skew);
      at := before + if judge(PrefixAt(env, f)) then [n] else [];
    }
  }

  lemma NoneGood(env: Env, judge: Judge)
    ensures Good(env, [], judge) == []
  {
  }

  /** `append_raw` with the engine's judge: the admitted frames of the body, each once, in order and byte for byte. */
  method IngestRaw(env: Env, body: seq<byte>, limit: nat, handles: map<Text, Handle>, now: u64, tsMin: u64, skew: u64)
    returns (good: seq<byte>, out: RawIngest, ghost kept: seq<Frame>, ghost at: seq<nat>)
    ensures AllFrames(env, SplitBody(env, body, limit).0)
    ensures var (frames, rest) := SplitBody(env, body, limit);
            && Selects(env, handles, now, tsMin, skew, frames, kept, at)
            && good == Flat(kept) && out.accepted == |kept|
            && out.accepted + out.rejected == |frames| + (if rest == [] then 0 else 1) && out.discardedBytes == |rest|
  {
    hide IsFrame, SplitBody, Flat, Good, Selects;
    good, out := AppendRaw(env, body, limit, Known(handles, now, tsMin, skew));
    kept := Good(env, SplitBody(env, body, limit).0, Known(handles, now, tsMin, skew));
    at := GoodSelects(env, SplitBody(env, body, limit).0, handles, now, tsMin, skew);
  }

  /** What it lets through has a schema in the manifest the handles were opened from, and in every later one. */
  lemma KnownHasSchema(states: seq<Histories>, configs: seq<seq<SeriesConfig>>, m: nat, n: nat,
                       handles: map<Text, Handle>, p: Prefix, now: u64, tsMin: u64, skew: u64)
    requires AcceptedRun(states, configs) && m <= n <= |configs|
    requires forall s :: s in handles ==> CurrentEpoch(states[m], s) == Some(handles[s].epoch)
    requires Known(handles, now, tsMin, skew)(p)
    ensures Schema(states[m], p.series, p.epoch).Some? && Schema(states[n], p.series, p.epoch).Some?
    ensures SameLayout(Schema(states[m], p.series, p.epoch).value, Schema(states[n], p.series, p.epoch).value)
  {
    hide ValidConfig, Retypes, Exhausts, FoldAll, HistoryOk, HistoryExtends, SameLayout, FindEpoch, Schema;
    HistoryOnlyGrows(states, configs, m, n);
    KnownUpToCurrent(states[m], p.series, p.epoch);
    SchemaKept(states[m], states[n], p.series, p.epoch);
  }
}
