/** Client batching (src/client.rs) with the socket as an oracle, and the header of a batch. */
module Client {
  import opened Bytes
  import opened Codec
  import opened FrameCodec
  import opened Segments
  import opened Wal

  function PutBatchHeader(count: u32): (s: seq<byte>)
    ensures |s| == BATCH_HEADER_BYTES
  {
    Le(MAGIC, 4) + Le(FORMAT_VERSION, 2) + Le(count, 4)
  }

  function ParseBatchHeader(buf: seq<byte>): Codec.Result<u32> {
    if |buf| < BATCH_HEADER_BYTES then Err(Truncated(BATCH_HEADER_BYTES, |buf|))
    else if FromLe(buf[..4]) != MAGIC then Err(Corrupt(BadMagic))
    else if FromLe(buf[4..6]) != FORMAT_VERSION then Err(Corrupt(UnsupportedVersion))
    else
      LeOfFromLe(buf[6..10]); Limits();
      Ok(FromLe(buf[6..10]))
  }

  lemma BatchHeaderCodes(buf: seq<byte>, count: u32)
    ensures ParseBatchHeader(buf) == Ok(count) <==> At(buf, 0, PutBatchHeader(count))
  {
    hide Le, FromLe;
    Limits();
    AtConcat(buf, 0, Le(MAGIC, 4), Le(FORMAT_VERSION, 2));
    AtConcat(buf, 0, Le(MAGIC, 4) + Le(FORMAT_VERSION, 2), Le(count, 4));
    if |buf| >= 10 {
      LeCodes(buf[..4], MAGIC);
      LeCodes(buf[4..6], FORMAT_VERSION);
      LeCodes(buf[6..10], count);
      assert buf[..4] == buf[0..4];
    }
  }

  lemma BatchHeaderFaults(buf: seq<byte>)
    ensures ParseBatchHeader(buf).Err? && ParseBatchHeader(buf).error.Truncated? <==> |buf| < BATCH_HEADER_BYTES
    ensures ParseBatchHeader(buf) == Err(Corrupt(BadMagic)) <==>
            |buf| >= BATCH_HEADER_BYTES && !At(buf, 0, Le(MAGIC, 4))
    ensures ParseBatchHeader(buf) == Err(Corrupt(UnsupportedVersion)) <==>
            |buf| >= BATCH_HEADER_BYTES && At(buf, 0, Le(MAGIC, 4)) && !At(buf, 4, Le(FORMAT_VERSION, 2))
  {
    hide Le, FromLe;
    Limits();
    if |buf| >= 10 {
      LeCodes(buf[..4], MAGIC);
      LeCodes(buf[4..6], FORMAT_VERSION);
      assert buf[..4] == buf[0..4];
    }
  }

  /** A batch that left the buffer: handed to the socket, or dropped because its queue was full. */
  datatype Departure = Departure(frames: seq<Frame>, sent: bool)

  function AllFramesOf(batches: seq<Departure>): seq<Frame> {
    if batches == [] then [] else AllFramesOf(batches[..|batches| - 1]) + batches[|batches| - 1].frames
  }

  /** The messages of the batches that were sent, in order. */
  function Messages(batches: seq<Departure>): seq<seq<byte>> {
    if batches == [] then []
    else
      var b := batches[|batches| - 1];
      Messages(batches[..|batches| - 1]) +
        if b.sent then [PutBatchHeader(|b.frames| % U32_END) + Flat(b.frames)] else []
  }

  /** The batches that were sent, or those that were dropped, in order. */
  function That(batches: seq<Departure>, sent: bool): seq<Departure> {
    if batches == [] then []
    else
      var n := |batches| - 1;
      That(batches[..n], sent) + if batches[n].sent == sent then [batches[n]] else []
  }

  lemma BatchesLast(batches: seq<Departure>, b: Departure)
    ensures AllFramesOf(batches + [b]) == AllFramesOf(batches) + b.frames
    ensures That(batches + [b], b.sent) == That(batches, b.sent) + [b]
    ensures That(batches + [b], !b.sent) == That(batches, !b.sent)
    ensures |AllFramesOf(That(batches + [b], b.sent))| == |AllFramesOf(That(batches, b.sent))| + |b.frames|
    ensures Messages(batches + [b]) == Messages(batches) +
              if b.sent then [PutBatchHeader(|b.frames| % U32_END) + Flat(b.frames)] else []
  {
    var s, t := batches + [b], That(batches, b.sent) + [b];
    assert s[..|s| - 1] == batches && t[..|t| - 1] == That(batches, b.sent);
  }

  /** What the client's counters and the wire say about the frames accepted so far. */
  datatype Books = Books(bytes: seq<byte>, pending: nat, sent: nat, dropped: nat, wire: seq<seq<byte>>,
                         frames: seq<Frame>, batches: seq<Departure>, accepted: seq<Frame>)

  /**
   * Sent batches, dropped batches and the buffer, in order, are the accepted frames; every batch fits a
   * message; the counters count the frames of the sent and of the dropped batches.
   */
  ghost predicate Balanced(env: Env, limit: nat, b: Books) {
    && b.bytes == Flat(b.frames) && |b.frames| == b.pending && AllFrames(env, b.accepted)
    && AllFramesOf(b.batches) + b.frames == b.accepted && b.wire == Messages(b.batches)
    && (forall i :: 0 <= i < |b.batches| ==> BATCH_HEADER_BYTES + |Flat(b.batches[i].frames)| <= limit)
    && BATCH_HEADER_BYTES + |b.bytes| <= limit
    && b.sent == |AllFramesOf(That(b.batches, true))| && b.dropped == |AllFramesOf(That(b.batches, false))|
    && b.sent + b.dropped + b.pending == |b.accepted|
  }

  /** The buffered batch leaves. */
  function Departed(b: Books, ok: bool): Books {
    if b.pending == 0 then b
    else
      Books([], 0, if ok then b.sent + b.pending else b.sent, if ok then b.dropped else b.dropped + b.pending,
            if ok then b.wire + [PutBatchHeader(b.pending % U32_END) + b.bytes] else b.wire,
            [], b.batches + [Departure(b.frames, ok)], b.accepted)
  }

  lemma FlushKeeps(env: Env, limit: nat, b: Books, ok: bool)
    requires Balanced(env, limit, b)
    ensures Balanced(env, limit, Departed(b, ok)) && Departed(b, ok).frames == []
  {
    hide AllFrames, Messages, PutBatchHeader, That;
    if b.pending > 0 {
      BatchesLast(b.batches, Departure(b.frames, ok));
      assert AllFramesOf(b.batches) + b.frames + [] == b.accepted;
      assert Messages(b.batches) + [] == Messages(b.batches);
    }
  }

  function Added(b: Books, f: Frame): Books {
    b.(bytes := b.bytes + f, pending := b.pending + 1, frames := b.frames + [f], accepted := b.accepted + [f])
  }

  lemma AddKeeps(env: Env, limit: nat, b: Books, f: Frame)
    requires Balanced(env, limit, b) && IsFrame(env, f) && BATCH_HEADER_BYTES + |b.bytes + f| <= limit
    ensures Balanced(env, limit, Added(b, f))
  {
    hide IsFrame, Messages, That;
    FlatConcat(b.frames, [f]);
    assert Flat([f]) == f + [];
    assert AllFramesOf(b.batches) + (b.frames + [f]) == (AllFramesOf(b.batches) + b.frames) + [f];
  }

  class Client {
    const env: Env
    const batch: nat
    const maxBatchBytes: nat
    const buf: Buffer
    var pending: nat
    var recordsSent: nat
    var recordsDropped: nat
    /** What the socket received. */
    var wire: seq<seq<byte>>
    /** The frames in `buf`, the batches that left it, and everything `Send` accepted. */
    ghost var frames: seq<Frame>
    ghost var batches: seq<Departure>
    ghost var accepted: seq<Frame>

    ghost function Now(): Books
      reads this, buf
    {
      Books(buf.bytes, pending, recordsSent, recordsDropped, wire, frames, batches, accepted)
    }

    ghost predicate Valid()
      reads this, buf
    {
      Balanced(env, maxBatchBytes, Now()) && (pending == 0 || pending < batch)
    }

    constructor (env: Env, batch: nat, maxBatchBytes: nat)
      requires maxBatchBytes >= BATCH_HEADER_BYTES
      ensures Valid() && fresh(buf) && accepted == [] && this.maxBatchBytes == maxBatchBytes && this.env == env
    {
      this.env, this.batch, this.maxBatchBytes := env, batch, maxBatchBytes;
      buf := new Buffer();
      pending, recordsSent, recordsDropped := 0, 0, 0;
      wire, frames, batches, accepted := [], [], [], [];
    }

    /** Send what is buffered; `ok` is the socket's answer, a full queue drops the batch. */
    method Flush(ok: bool)
      requires Balanced(env, maxBatchBytes, Now())
      modifies this, buf
      ensures Valid() && Now() == Departed(old(Now()), ok) && frames == []
      ensures batches == old(batches) + if old(pending) == 0 then [] else [Departure(old(frames), ok)]
    {
      hide Balanced, PutBatchHeader;
      FlushKeeps(env, maxBatchBytes, Now(), ok);
      assert batches + [] == batches;
      if pending == 0 { return; }
      if ok {
        wire := wire + [PutBatchHeader(pending % U32_END) + buf.bytes];
        recordsSent := recordsSent + pending;
      } else {
        recordsDropped := recordsDropped + pending;
      }
      batches, frames, pending := batches + [Departure(frames, ok)], [], 0;
      buf.Truncate(0);
    }

    /**
     * Buffer one record, sending the batch when it is full by size or by count. A record that cannot
     * fit a message alone is refused and changes nothing.
     */
    method Send(r: Record, first: bool, second: bool) returns (ok: bool)
      requires Valid() && TextsValid(env, r)
      modifies this, buf
      ensures Valid()
      ensures ok <==> Encodable(env, r) && BATCH_HEADER_BYTES + |EncodeRecord(env, r)| <= maxBatchBytes
      ensures accepted == old(accepted) + if ok then [EncodeRecord(env, r)] else []
      ensures !ok ==> Now() == old(Now())
      ensures ok ==>
                var f, all := EncodeRecord(env, r), old(frames) + [EncodeRecord(env, r)];
                if BATCH_HEADER_BYTES + |old(buf.bytes) + f| <= maxBatchBytes then
                  if |all| < batch then frames == all && batches == old(batches)
                  else frames == [] && batches == old(batches) + [Departure(all, second)]
                else
                  var left := old(batches) + [Departure(old(frames), first)];
                  if 1 < batch then frames == [f] && batches == left
                  else frames == [] && batches == left + [Departure([f], second)]
    {
      hide Balanced, EncodeRecord, Encodable, TextsValid, Departed;
      assert accepted + [] == accepted;
      var before := |buf.bytes|;
      var enc := new Encoder();
      ok := enc.Encode(env, buf, r);
      assert !ok ==> buf.bytes == old(buf.bytes);
      if !ok { return; }
      var frame := buf.bytes[before..];
      if BATCH_HEADER_BYTES + |frame| > maxBatchBytes {
        buf.Truncate(before);
        assert buf.bytes == old(buf.bytes);
        return false;
      }
      PendingFrames(env, maxBatchBytes, old(Now()));
      if before > 0 && BATCH_HEADER_BYTES + |buf.bytes| > maxBatchBytes {
        buf.Truncate(before);
        assert buf.bytes == old(buf.bytes);
        Flush(first);
        EmptyAfter(env, maxBatchBytes, Now(), old(Now()), first);
        buf.Extend(frame);
      }
      ghost var at := Now().(bytes := buf.bytes[..|buf.bytes| - |frame|]);
      AddRecord(env, maxBatchBytes, at, r);
      ghost var was := frames;
      frames, accepted, pending := frames + [frame], accepted + [frame], pending + 1;
      assert frame == EncodeRecord(env, r) && (was == [] ==> frames == [frame]);
      assert Now() == Added(at, frame);
      if pending >= batch {
        DepartedAccepts(Now(), second);
        Flush(second);
      }
    }

    static lemma PendingFrames(env: Env, limit: nat, b: Books)
      requires Balanced(env, limit, b)
      ensures |b.frames| == b.pending && (b.bytes != [] ==> b.pending > 0)
    {
    }

    static lemma DepartedAccepts(b: Books, ok: bool)
      ensures Departed(b, ok).accepted == b.accepted
    {
    }

    static lemma EmptyAfter(env: Env, limit: nat, b: Books, was: Books, ok: bool)
      requires Balanced(env, limit, b) && b == Departed(was, ok) && b.frames == []
      ensures b.bytes == [] && b.pending == 0 && b.accepted == was.accepted
    {
    }

    static lemma AddRecord(env: Env, limit: nat, b: Books, r: Record)
      requires Balanced(env, limit, b) && Encodable(env, r)
      requires BATCH_HEADER_BYTES + |b.bytes + EncodeRecord(env, r)| <= limit
      ensures Balanced(env, limit, Added(b, EncodeRecord(env, r)))
    {
      hide Balanced, EncodeRecord, Fits, IsFrame;
      EncodedIsFrame(env, r);
      AddKeeps(env, limit, b, EncodeRecord(env, r));
    }
  }

  /** The messages are the sent batches, one each and in order, with a header that counts the frames modulo 2^32. */
  lemma {:induction false} MessagesAreSent(batches: seq<Departure>, i: nat)
    requires i < |Messages(batches)|
    ensures |Messages(batches)| == |That(batches, true)|
    ensures var msg, frames := Messages(batches)[i], That(batches, true)[i].frames;
            && |msg| == BATCH_HEADER_BYTES + |Flat(frames)| && msg[BATCH_HEADER_BYTES..] == Flat(frames)
            && ParseBatchHeader(msg) == Ok(|frames| % U32_END)
  {
    hide Flat, ParseBatchHeader, PutBatchHeader;
    var n := |batches| - 1;
    var init, b := batches[..n], batches[n];
    SameCount(init);
    if i < |Messages(init)| {
      MessagesAreSent(init, i);
    } else {
      var msg := PutBatchHeader(|b.frames| % U32_END) + Flat(b.frames);
      assert Messages(batches)[i] == msg;
      assert msg[0..|PutBatchHeader(|b.frames| % U32_END)|] == PutBatchHeader(|b.frames| % U32_END);
      BatchHeaderCodes(msg, |b.frames| % U32_END);
    }
  }

  lemma {:induction false} SameCount(batches: seq<Departure>)
    ensures |Messages(batches)| == |That(batches, true)|
  {
    if batches != [] { SameCount(batches[..|batches| - 1]); }
  }

  lemma {:induction false} ThatAmong(batches: seq<Departure>, sent: bool, i: nat) returns (k: nat)
    requires i < |That(batches, sent)|
    ensures k < |batches| && batches[k] == That(batches, sent)[i] && batches[k].sent == sent
  {
    var n := |batches| - 1;
    if i < |That(batches[..n], sent)| {
      k := ThatAmong(batches[..n], sent, i);
    } else {
      k := n;
    }
  }

  lemma {:induction false} BatchWithin(env: Env, batches: seq<Departure>, k: nat)
    requires k < |batches| && AllFrames(env, AllFramesOf(batches))
    ensures AllFrames(env, batches[k].frames)
  {
    hide IsFrame;
    var n := |batches| - 1;
    var before, last := AllFramesOf(batches[..n]), batches[n].frames;
    FramesParts(env, before, last);
    if k < n {
      BatchWithin(env, batches[..n], k);
      assert batches[..n][k] == batches[k];
    }
  }

  lemma FramesParts(env: Env, a: seq<Frame>, b: seq<Frame>)
    requires AllFrames(env, a + b)
    ensures AllFrames(env, a) && AllFrames(env, b)
  {
    hide IsFrame;
    forall i | 0 <= i < |a| ensures IsFrame(env, a[i]) { assert (a + b)[i] == a[i]; }
    forall i | 0 <= i < |b| ensures IsFrame(env, b[i]) { assert (a + b)[|a| + i] == b[i]; }
  }

  /** In every state of a client, each message on the wire is one sent batch of whole frames and within the limit. */
  lemma MessagesFit(env: Env, limit: nat, b: Books, i: nat)
    requires Balanced(env, limit, b) && i < |b.wire|
    ensures |b.wire| == |That(b.batches, true)| && BATCH_HEADER_BYTES <= |b.wire[i]| <= limit
    ensures var frames := That(b.batches, true)[i].frames;
            && AllFrames(env, frames) && b.wire[i][BATCH_HEADER_BYTES..] == Flat(frames)
            && ParseBatchHeader(b.wire[i]) == Ok(|frames| % U32_END)
  {
    hide IsFrame, Flat, ParseBatchHeader, Messages, That, AllFramesOf;
    MessagesAreSent(b.batches, i);
    FramesParts(env, AllFramesOf(b.batches), b.frames);
    var k := ThatAmong(b.batches, true, i);
    BatchWithin(env, b.batches, k);
  }
}
