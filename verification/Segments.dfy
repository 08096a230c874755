/**
 * Reading a WAL segment back: the header, recovery's tail scan
 * (src/wal/recovery.rs) and the flush's frame reader (src/wal/reader.rs).
 */
module Segments {
  import opened Bytes
  import opened Extra
  import opened Codec
  import opened FrameCodec
  import opened Decimal

  // ---- headers ------------------------------------------------------------

  function PutSegmentHeader(id: u64): (s: seq<byte>)
    ensures |s| == SEGMENT_HEADER_BYTES
  {
    Le(MAGIC, 4) + Le(FORMAT_VERSION, 2) + Le(id, 8)
  }

  function ParseSegmentHeader(buf: seq<byte>): Codec.Result<u64> {
    if |buf| < SEGMENT_HEADER_BYTES then Err(Truncated(SEGMENT_HEADER_BYTES, |buf|))
    else if FromLe(buf[..4]) != MAGIC then Err(Corrupt(BadMagic))
    else if FromLe(buf[4..6]) != FORMAT_VERSION then Err(Corrupt(UnsupportedVersion))
    else
      LeOfFromLe(buf[6..14]); Limits();
      Ok(FromLe(buf[6..14]))
  }

  lemma SegmentHeaderCodes(buf: seq<byte>, id: u64)
    ensures ParseSegmentHeader(buf) == Ok(id) <==> At(buf, 0, PutSegmentHeader(id))
  {
    hide Le, FromLe;
    Limits();
    AtConcat(buf, 0, Le(MAGIC, 4), Le(FORMAT_VERSION, 2));
    AtConcat(buf, 0, Le(MAGIC, 4) + Le(FORMAT_VERSION, 2), Le(id, 8));
    if |buf| >= 14 {
      LeCodes(buf[..4], MAGIC);
      LeCodes(buf[4..6], FORMAT_VERSION);
      LeCodes(buf[6..14], id);
      assert buf[..4] == buf[0..4];
    }
  }

  /** Each fault of a header and its cause: too short, not this program's, or of another version. */
  lemma HeaderFaults(buf: seq<byte>)
    ensures ParseSegmentHeader(buf).Err? && ParseSegmentHeader(buf).error.Truncated? <==> |buf| < SEGMENT_HEADER_BYTES
    ensures ParseSegmentHeader(buf) == Err(Corrupt(BadMagic)) <==>
            |buf| >= SEGMENT_HEADER_BYTES && !At(buf, 0, Le(MAGIC, 4))
    ensures ParseSegmentHeader(buf) == Err(Corrupt(UnsupportedVersion)) <==>
            |buf| >= SEGMENT_HEADER_BYTES && At(buf, 0, Le(MAGIC, 4)) && !At(buf, 4, Le(FORMAT_VERSION, 2))
    ensures ParseSegmentHeader(buf).Ok? <==>
              At(buf, 0, Le(MAGIC, 4)) && At(buf, 4, Le(FORMAT_VERSION, 2)) && |buf| >= 14
  {
    hide Le, FromLe;
    Limits();
    if |buf| >= 14 {
      LeCodes(buf[..4], MAGIC);
      LeCodes(buf[4..6], FORMAT_VERSION);
      assert buf[..4] == buf[0..4];
    }
  }

  // ---- delimiting frames ----------------------------------------------------

  /** Frame offsets found, where the scan stopped, and why (`None` at the end of the bytes). */
  datatype Scan = Scan(frames: seq<nat>, end: nat, stop: Option<DecodeError>)

  /** Walk frame envelopes from `at`: length, CRC and fixed prefix. */
  function ScanFrom(env: Env, bytes: seq<byte>, at: nat, maxRecord: nat): (s: Scan)
    requires at <= |bytes|
    ensures at <= s.end <= |bytes|
    decreases |bytes| - at
  {
    if at == |bytes| then Scan([], at, None)
    else
      match ValidatePrefix(env, bytes[at..], maxRecord)
      case Err(e) => Scan([], at, Some(e))
      case Ok((_, n)) =>
        FramePayloadFits(env, bytes[at..], maxRecord);
        var rest := ScanFrom(env, bytes, at + n, maxRecord);
        rest.(frames := [at] + rest.frames)
  }

  /** What the scan found stays found in any bytes that keep it, under any cap that admits it. */
  lemma {:induction false} ScanExtends(env: Env, a: seq<byte>, b: seq<byte>, at: nat, capA: nat, capB: nat)
    requires at <= |a|
    requires var s := ScanFrom(env, a, at, capA); s.end <= |b| && a[..s.end] == b[..s.end] && s.end <= capB
    ensures var s := ScanFrom(env, a, at, capA);
            var t := ScanFrom(env, b, s.end, capB);
            ScanFrom(env, b, at, capB) == t.(frames := s.frames + t.frames)
    decreases |a| - at
  {
    hide ValidatePrefix, FramePayload, ScanFrom;
    var s := ScanFrom(env, a, at, capA);
    var t := ScanFrom(env, b, s.end, capB);
    if at < |a| && ValidatePrefix(env, a[at..], capA).Ok? {
      ScanStep(env, a, at, capA);
      var n := ValidatePrefix(env, a[at..], capA).value.1;
      SliceWithin(a, at, n, s.end);
      SliceWithin(b, at, n, s.end);
      FrameIsLocal(env, a[at..], capA, b[at..], capB);
      ScanStep(env, b, at, capB);
      ScanExtends(env, a, b, at + n, capA, capB);
      assert [at] + (ScanFrom(env, a, at + n, capA).frames + t.frames) == s.frames + t.frames;
    } else {
      ScanStop(env, a, at, capA);
      assert [] + t.frames == t.frames;
    }
  }

  lemma SliceWithin(bytes: seq<byte>, at: nat, n: nat, end: nat)
    requires at + n <= end <= |bytes|
    ensures bytes[at..][..n] == bytes[..end][at..at + n]
  {
  }

  lemma ScanStep(env: Env, bytes: seq<byte>, at: nat, cap: nat)
    requires at < |bytes| && ValidatePrefix(env, bytes[at..], cap).Ok?
    ensures var n := ValidatePrefix(env, bytes[at..], cap).value.1;
            && 30 <= n <= |bytes| - at && n - 8 <= cap
            && FramePayload(env, bytes[at..], cap) == Ok(n) && at + n <= ScanFrom(env, bytes, at, cap).end
            && ScanFrom(env, bytes, at, cap)
                 == ScanFrom(env, bytes, at + n, cap).(frames := [at] + ScanFrom(env, bytes, at + n, cap).frames)
  {
    hide ValidatePrefix, FramePayload;
    ValidatedFrame(env, bytes[at..], cap);
  }

  lemma ScanStop(env: Env, bytes: seq<byte>, at: nat, cap: nat)
    requires at <= |bytes| && (at < |bytes| ==> ValidatePrefix(env, bytes[at..], cap).Err?)
    ensures ScanFrom(env, bytes, at, cap).frames == [] && ScanFrom(env, bytes, at, cap).end == at
  {
    hide ValidatePrefix;
  }

  lemma ValidatedFrame(env: Env, buf: seq<byte>, maxRecord: nat)
    requires ValidatePrefix(env, buf, maxRecord).Ok?
    ensures FramePayload(env, buf, maxRecord) == Ok(ValidatePrefix(env, buf, maxRecord).value.1)
    ensures var n := ValidatePrefix(env, buf, maxRecord).value.1; 30 <= n <= |buf| && n - 8 <= maxRecord
  {
    FramePayloadFits(env, buf, maxRecord);
  }

  // ---- recovery's tail scan ---------------------------------------------------

  datatype TailHeader = Scanned(frames: nat, discarded: nat) | Absent | CorruptHeader(reason: Reason)

  class WalFile {
    var bytes: seq<byte>

    constructor (bytes: seq<byte>)
      ensures this.bytes == bytes
    {
      this.bytes := bytes;
    }

    /** `scan_tail`: keep whole good frames, truncating at the first byte that is not one. */
    method ScanTail(env: Env) returns (r: TailHeader)
      modifies this
      ensures ParseSegmentHeader(old(bytes)).Ok? ==>
                var s := ScanFrom(env, old(bytes), SEGMENT_HEADER_BYTES, |old(bytes)|);
                bytes == old(bytes)[..s.end] && r == Scanned(|s.frames|, |old(bytes)| - s.end)
      ensures ParseSegmentHeader(old(bytes)).Err? ==>
                bytes == old(bytes)
                && r == match ParseSegmentHeader(old(bytes)).error
                        case Truncated(_, _) => Absent
                        case Corrupt(reason) => CorruptHeader(reason)
    {
      hide ValidatePrefix;
      var header := ParseSegmentHeader(bytes);
      if header.Err? {
        return if header.error.Truncated? then Absent else CorruptHeader(header.error.reason);
      }
      var maxRecord, at, frames := |bytes|, SEGMENT_HEADER_BYTES, 0;
      ghost var whole := ScanFrom(env, bytes, SEGMENT_HEADER_BYTES, maxRecord);
      while at < |bytes|
        invariant bytes == old(bytes) && SEGMENT_HEADER_BYTES <= at <= |bytes|
        invariant var rest := ScanFrom(env, bytes, at, maxRecord);
                  rest.end == whole.end && frames + |rest.frames| == |whole.frames|
      {
        var prefix := ValidatePrefix(env, bytes[at..], maxRecord);
        if prefix.Err? { break; }
        ValidatedFrame(env, bytes[at..], maxRecord);
        at, frames := at + prefix.value.1, frames + 1;
      }
      var discarded := |bytes| - at;
      if discarded > 0 { bytes := bytes[..at]; }
      r := Scanned(frames, discarded);
    }
  }

  /** What the tail scan leaves: exactly the frames found, and nothing a second scan would cut. */
  lemma AmendedTailIsClean(env: Env, bytes: seq<byte>)
    requires ParseSegmentHeader(bytes).Ok?
    ensures var s := ScanFrom(env, bytes, SEGMENT_HEADER_BYTES, |bytes|);
            var amended := bytes[..s.end];
            ParseSegmentHeader(amended) == ParseSegmentHeader(bytes)
            && ScanFrom(env, amended, SEGMENT_HEADER_BYTES, |amended|) == Scan(s.frames, |amended|, None)
  {
    hide ValidatePrefix, FromLe;
    var s := ScanFrom(env, bytes, SEGMENT_HEADER_BYTES, |bytes|);
    var amended := bytes[..s.end];
    assert amended[..4] == bytes[..4] && amended[4..6] == bytes[4..6] && amended[6..14] == bytes[6..14];
    ScanExtends(env, bytes, amended, SEGMENT_HEADER_BYTES, |bytes|, |amended|);
    assert s.frames + [] == s.frames;
  }

  // ---- concatenated frames, cut anywhere --------------------------------------

  /** One whole frame, intact envelope and prefix. */
  predicate IsFrame(env: Env, f: seq<byte>) {
    ValidatePrefix(env, f, |f|).Ok? && ValidatePrefix(env, f, |f|).value.1 == |f|
  }

  predicate AllFrames(env: Env, frames: seq<seq<byte>>) {
    forall i :: 0 <= i < |frames| ==> IsFrame(env, frames[i])
  }

  function Flat(frames: seq<seq<byte>>): seq<byte> {
    if frames == [] then [] else frames[0] + Flat(frames[1..])
  }

  lemma {:induction false} FlatConcat(a: seq<seq<byte>>, b: seq<seq<byte>>)
    ensures Flat(a + b) == Flat(a) + Flat(b)
  {
    if a == [] {
      assert a + b == b;
    } else {
      assert (a + b)[1..] == a[1..] + b;
      FlatConcat(a[1..], b);
    }
  }

  /** Where each frame starts when they follow one another from `at`. */
  function Starts(frames: seq<seq<byte>>, at: nat): (r: seq<nat>)
    ensures |r| == |frames|
  {
    if frames == [] then [] else [at] + Starts(frames[1..], at + |frames[0]|)
  }

  /** How many frames lie wholly within the first `cut` bytes. */
  function Whole(frames: seq<seq<byte>>, cut: nat): (k: nat)
    ensures k <= |frames|
  {
    if frames == [] || cut < |frames[0]| then 0 else 1 + Whole(frames[1..], cut - |frames[0]|)
  }

  lemma EncodedIsFrame(env: Env, r: Record)
    requires Fits(env, Canonical(r))
    ensures IsFrame(env, EncodeRecord(env, r))
  {
    hide EncodeRecord, Fits, ValidatePrefix, Decode;
    var f := EncodeRecord(env, r);
    PutFrameInjectiveLength(env, r);
    RoundTrip(env, r, [], |f|);
    assert f + [] == f;
    ReadersAgree(env, f, |r.row.keys|, |f|, Canonical(r), |f|);
  }

  lemma PutFrameInjectiveLength(env: Env, r: Record)
    ensures |PutPayload(Canonical(r))| <= |EncodeRecord(env, r)|
  {
    hide PutPayload, Canonicalise;
  }

  /**
   * Scanning any prefix of concatenated frames yields exactly the whole frames
   * before the cut, then a clean end or `Truncated`, never `Corrupt`.
   */
  lemma {:induction false} ScanOfCut(env: Env, pre: seq<byte>, frames: seq<seq<byte>>, cut: nat, maxRecord: nat)
    requires AllFrames(env, frames) && cut <= |Flat(frames)|
    requires forall i :: 0 <= i < |frames| ==> |frames[i]| <= maxRecord + 8
    ensures var s := ScanFrom(env, pre + Flat(frames)[..cut], |pre|, maxRecord);
            var k := Whole(frames, cut);
            s.frames == Starts(frames[..k], |pre|)
            && s.end == |pre| + |Flat(frames[..k])|
            && (if s.end == |pre| + cut then s.stop == None else s.stop.Some? && s.stop.value.Truncated?)
    decreases |frames|
  {
    hide ValidatePrefix, IsFrame;
    if frames == [] || cut == 0 {
      assert pre + Flat(frames)[..cut] == pre;
      assert frames[..0] == [];
      if frames != [] { FrameInBounds(env, frames[0]); }
    } else if cut < |frames[0]| {
      var f := frames[0];
      assert (pre + Flat(frames)[..cut])[|pre|..] == f[..cut];
      assert frames[..0] == [];
      CutIsTruncated(env, f, maxRecord, cut);
    } else {
      ScanOfCutStep(env, pre, frames, cut, maxRecord);
      ScanOfCut(env, pre + frames[0], frames[1..], cut - |frames[0]|, maxRecord);
    }
  }

  lemma ScanOfCutStep(env: Env, pre: seq<byte>, frames: seq<seq<byte>>, cut: nat, maxRecord: nat)
    requires frames != [] && IsFrame(env, frames[0]) && |frames[0]| <= maxRecord + 8
    requires |frames[0]| <= cut <= |Flat(frames)|
    ensures var f, rest := frames[0], frames[1..];
            var t := ScanFrom(env, (pre + f) + Flat(rest)[..cut - |f|], |pre + f|, maxRecord);
            var k := Whole(rest, cut - |f|);
            ScanFrom(env, pre + Flat(frames)[..cut], |pre|, maxRecord) == t.(frames := [|pre|] + t.frames)
            && Starts(frames[..k + 1], |pre|) == [|pre|] + Starts(rest[..k], |pre + f|)
            && |Flat(frames[..k + 1])| == |f| + |Flat(rest[..k])|
  {
    hide ValidatePrefix, IsFrame, ScanFrom;
    var f, rest := frames[0], frames[1..];
    var tail := Flat(rest)[..cut - |f|];
    assert pre + Flat(frames)[..cut] == (pre + f) + tail;
    ScanOne(env, pre, f, tail, maxRecord);
    var k := Whole(rest, cut - |f|);
    assert frames[..k + 1][1..] == rest[..k];
  }

  /** A whole frame at the cursor is found, and the scan goes on behind it. */
  lemma ScanOne(env: Env, pre: seq<byte>, f: seq<byte>, tail: seq<byte>, maxRecord: nat)
    requires IsFrame(env, f) && |f| <= maxRecord + 8
    ensures var t := ScanFrom(env, pre + f + tail, |pre + f|, maxRecord);
            ScanFrom(env, pre + f + tail, |pre|, maxRecord) == t.(frames := [|pre|] + t.frames)
  {
    hide ValidatePrefix, IsFrame;
    FrameInBounds(env, f);
    assert (pre + f + tail)[|pre|..] == f + tail;
    FrameUnderCap(env, f, tail, maxRecord);
  }

  lemma FrameInBounds(env: Env, f: seq<byte>)
    requires IsFrame(env, f)
    ensures |f| >= 30
  {
    ValidatedFrame(env, f, |f|);
  }

  lemma FrameUnderCap(env: Env, f: seq<byte>, tail: seq<byte>, maxRecord: nat)
    requires IsFrame(env, f) && |f| <= maxRecord + 8
    ensures ValidatePrefix(env, f + tail, maxRecord).Ok? && ValidatePrefix(env, f + tail, maxRecord).value.1 == |f|
  {
    hide ValidatePrefix;
    ValidatedFrame(env, f, |f|);
    assert f[..|f|] == f && (f + tail)[..|f|] == f;
    FrameIsLocal(env, f, |f|, f + tail, maxRecord);
  }

  lemma CutIsTruncated(env: Env, f: seq<byte>, maxRecord: nat, cut: nat)
    requires IsFrame(env, f) && |f| <= maxRecord + 8 && cut < |f|
    ensures ValidatePrefix(env, f[..cut], maxRecord).Err?
    ensures ValidatePrefix(env, f[..cut], maxRecord).error.Truncated?
  {
    hide ValidatePrefix;
    ValidatedFrame(env, f, |f|);
    assert f[..|f|] == f;
    FrameIsLocal(env, f, |f|, f, maxRecord);
    CutFrameIsTruncated(env, f, maxRecord, cut);
  }

  /** All frames present: the scan finds each of them and reaches the end. */
  lemma {:induction false} ScanOfAll(env: Env, pre: seq<byte>, frames: seq<seq<byte>>, maxRecord: nat)
    requires AllFrames(env, frames)
    requires forall i :: 0 <= i < |frames| ==> |frames[i]| <= maxRecord + 8
    ensures ScanFrom(env, pre + Flat(frames), |pre|, maxRecord)
         == Scan(Starts(frames, |pre|), |pre| + |Flat(frames)|, None)
    decreases |frames|
  {
    hide ValidatePrefix, IsFrame;
    var buf := pre + Flat(frames);
    if frames != [] {
      var f, rest := frames[0], frames[1..];
      FrameInBounds(env, f);
      assert buf == pre + f + Flat(rest);
      assert buf[|pre|..] == f + Flat(rest);
      FrameUnderCap(env, f, Flat(rest), maxRecord);
      ScanOfAll(env, pre + f, rest, maxRecord);
    }
  }

  /** Whatever follows them on disk, intact frames behind a header are all found, in order. */
  lemma ScanFindsIntactFrames(env: Env, header: seq<byte>, frames: seq<seq<byte>>, junk: seq<byte>)
    requires AllFrames(env, frames)
    ensures var file := header + Flat(frames) + junk;
            var s := ScanFrom(env, file, |header|, |file|);
            Starts(frames, |header|) <= s.frames && |header + Flat(frames)| <= s.end
  {
    hide ValidatePrefix, IsFrame, ScanFrom, Starts;
    var good := header + Flat(frames);
    var file := good + junk;
    forall i | 0 <= i < |frames| ensures |frames[i]| <= |file| + 8 { FlatLength(frames, i); }
    ScanOfAll(env, header, frames, |file|);
    assert good[..|good|] == file[..|good|];
    ScanExtends(env, good, file, |header|, |file|, |file|);
  }

  lemma {:induction false} FlatLength(frames: seq<seq<byte>>, i: nat)
    requires i < |frames|
    ensures |frames[i]| <= |Flat(frames)|
  {
    if i > 0 { FlatLength(frames[1..], i - 1); }
  }

  // ---- the flush's reader -------------------------------------------------------

  datatype Item =
    | Frame(record: Record, offset: nat, len: nat)
    | BadRecord(offset: nat, len: nat, err: DecodeError)
    | UnknownSchema(offset: nat, len: nat, series: Text, epoch: u32)
    | Undecodable(offset: nat, err: DecodeError)

  /** The arity of `(series, epoch)`, if the manifest knows it. */
  type Lookup = (Text, u32) -> Option<nat>

  /** What the reader yields for the bytes at `at`. */
  function ItemAt(env: Env, buf: seq<byte>, at: nat, maxRecord: nat, keyCount: Lookup): Item
    requires at <= |buf|
  {
    match ValidatePrefix(env, buf[at..], maxRecord)
    case Err(e) => Undecodable(at, e)
    case Ok((p, n)) =>
      match keyCount(p.series, p.epoch)
      case None => UnknownSchema(at, n, p.series, p.epoch)
      case Some(k) =>
        match Decode(env, buf[at..], k, maxRecord)
        case Ok((r, len)) => Frame(r, at, len)
        case Err(e) => BadRecord(at, n, e)
  }

  lemma ItemExtent(env: Env, buf: seq<byte>, at: nat, maxRecord: nat, keyCount: Lookup)
    requires at <= |buf|
    ensures var item := ItemAt(env, buf, at, maxRecord, keyCount);
            var v := ValidatePrefix(env, buf[at..], maxRecord);
            item.offset == at && (item.Undecodable? <==> v.Err?)
            && (v.Ok? ==> item.len == v.value.1 && 30 <= item.len <= |buf| - at)
  {
    hide GetPrefix, GetRecord, FramePayload;
    var v := ValidatePrefix(env, buf[at..], maxRecord);
    if v.Ok? { ValidatedFrame(env, buf[at..], maxRecord); }
  }

  /** Every item from `at` on; a fault that cannot be delimited is the last. */
  function ReadAll(env: Env, buf: seq<byte>, at: nat, maxRecord: nat, keyCount: Lookup): seq<Item>
    requires at <= |buf|
    decreases |buf| - at
  {
    if at == |buf| then []
    else
      ItemExtent(env, buf, at, maxRecord, keyCount);
      var item := ItemAt(env, buf, at, maxRecord, keyCount);
      if item.Undecodable? then [item]
      else [item] + ReadAll(env, buf, at + item.len, maxRecord, keyCount)
  }

  /** Items lie end to end from `at`; only the last may be undelimitable. */
  predicate Tile(items: seq<Item>, at: nat, end: nat)
    decreases |items|
  {
    if items == [] then at == end
    else items[0].offset == at
         && if items[0].Undecodable? then |items| == 1 && at == end
            else Tile(items[1..], at + items[0].len, end)
  }

  function Offsets(items: seq<Item>): seq<nat>
  {
    if items == [] || items[0].Undecodable? then [] else [items[0].offset] + Offsets(items[1..])
  }

  /**
   * The reader and recovery's scan delimit the same frames: records and skippable
   * faults tile the bytes up to where the scan stops, and the reader reports a
   * terminal fault exactly when the scan stops early.
   */
  lemma {:induction false} ReaderAgreesWithScan(env: Env, buf: seq<byte>, at: nat, maxRecord: nat, keyCount: Lookup)
    requires at <= |buf|
    ensures var items := ReadAll(env, buf, at, maxRecord, keyCount);
            var s := ScanFrom(env, buf, at, maxRecord);
            Tile(items, at, s.end) && Offsets(items) == s.frames
            && (s.stop == None <==> forall i :: 0 <= i < |items| ==> !items[i].Undecodable?)
            && (s.stop == None ==> s.end == |buf|)
    decreases |buf| - at
  {
    hide ItemAt, ValidatePrefix;
    if at < |buf| {
      ItemExtent(env, buf, at, maxRecord, keyCount);
      var item := ItemAt(env, buf, at, maxRecord, keyCount);
      if !item.Undecodable? {
        ReaderAgreesWithScan(env, buf, at + item.len, maxRecord, keyCount);
        var rest := ReadAll(env, buf, at + item.len, maxRecord, keyCount);
        var items := ReadAll(env, buf, at, maxRecord, keyCount);
        assert items[1..] == rest;
        assert forall i :: 0 <= i < |rest| ==> rest[i] == items[i + 1];
      }
    }
  }

  /** An amended tail never gives the flush a terminal fault. */
  lemma AmendedTailReadsThrough(env: Env, bytes: seq<byte>, keyCount: Lookup)
    requires ParseSegmentHeader(bytes).Ok?
    ensures var amended := bytes[..ScanFrom(env, bytes, SEGMENT_HEADER_BYTES, |bytes|).end];
            forall item :: item in ReadAll(env, amended, SEGMENT_HEADER_BYTES, |amended|, keyCount) ==>
              !item.Undecodable?
  {
    hide ReadAll, ScanFrom, ParseSegmentHeader;
    AmendedTailIsClean(env, bytes);
    var amended := bytes[..ScanFrom(env, bytes, SEGMENT_HEADER_BYTES, |bytes|).end];
    HeaderLength(amended);
    ReaderAgreesWithScan(env, amended, SEGMENT_HEADER_BYTES, |amended|, keyCount);
  }

  lemma HeaderLength(bytes: seq<byte>)
    requires ParseSegmentHeader(bytes).Ok?
    ensures |bytes| >= SEGMENT_HEADER_BYTES
  {
  }

  /** The reader as the flush drives it, with its reused key and pair scratch. */
  class SegmentReader {
    const env: Env
    const buf: seq<byte>
    const maxRecord: nat
    const keyCount: Lookup
    const scratch: Scratch
    var at: nat
    var stopped: bool

    ghost predicate Valid()
      reads this
    {
      at <= |buf|
    }

    /** What is still to be yielded. */
    ghost function Remaining(): seq<Item>
      requires Valid()
      reads this
    {
      if stopped then [] else ReadAll(env, buf, at, maxRecord, keyCount)
    }

    constructor (env: Env, buf: seq<byte>, maxRecord: nat, keyCount: Lookup)
      requires ParseSegmentHeader(buf).Ok?
      ensures Valid() && fresh(scratch)
      ensures this.env == env && this.buf == buf && this.maxRecord == maxRecord && this.keyCount == keyCount
      ensures at == SEGMENT_HEADER_BYTES && !stopped
    {
      this.env, this.buf, this.maxRecord, this.keyCount := env, buf, maxRecord, keyCount;
      at, stopped := SEGMENT_HEADER_BYTES, false;
      scratch := new Scratch();
    }

    /** The next frame or the fault in its place; `None` at the end or after a terminal fault. */
    method NextFrame() returns (item: Option<Item>)
      requires Valid()
      modifies this, scratch
      ensures Valid()
      ensures old(Remaining()) == [] ==> item == None && Remaining() == []
      ensures old(Remaining()) != [] ==> item == Some(old(Remaining())[0]) && Remaining() == old(Remaining())[1..]
      ensures item.Some? && item.value.Frame? ==>
                scratch.keys == item.value.record.row.keys && scratch.extra == item.value.record.row.extra
    {
      hide ValidatePrefix, Decode;
      if stopped || at == |buf| { return None; }
      ItemExtent(env, buf, at, maxRecord, keyCount);
      var offset, rest := at, buf[at..];
      var prefix := ValidatePrefix(env, rest, maxRecord);
      if prefix.Err? {
        stopped := true;
        return Some(Undecodable(offset, prefix.error));
      }
      var (p, n) := prefix.value;
      var count := keyCount(p.series, p.epoch);
      if count.None? {
        at := at + n;
        return Some(UnknownSchema(offset, n, p.series, p.epoch));
      }
      var decoded := DecodeInto(env, rest, count.value, maxRecord, scratch);
      if decoded.Ok? {
        at := at + decoded.value.1;
        return Some(Frame(decoded.value.0, offset, decoded.value.1));
      }
      at := at + n;
      return Some(BadRecord(offset, n, decoded.error));
    }
  }
}
