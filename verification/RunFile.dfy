/** Spilled run files (src/flush/merge.rs): each entry is its arrival and its frame, verbatim. */
module RunFile {
  import opened Bytes
  import opened Codec
  import opened Arrivals

  const ARRIVAL_BYTES: nat := 16

  /** An entry a run may hold: its key is the one its own frame carries. */
  predicate Writable(e: Entry) {
    e.arrival.0 < U64_END && e.arrival.1 < U64_END && VerifiedSortKey(e.frame) == Ok((e.ts, e.id, |e.frame|))
  }

  function PutEntry(e: Entry): seq<byte> { Le(e.arrival.0, 8) + Le(e.arrival.1, 8) + e.frame }

  function PutRun(run: seq<Entry>): seq<byte> {
    if run == [] then [] else PutEntry(run[0]) + PutRun(run[1..])
  }

  ghost predicate AllWritable(run: seq<Entry>) { forall i :: 0 <= i < |run| ==> Writable(run[i]) }

  /** The files hold the runs, one each, and each can be read back. */
  ghost predicate Filed(files: seq<seq<byte>>, runs: seq<seq<Entry>>) {
    |files| == |runs| && forall i :: 0 <= i < |files| ==> files[i] == PutRun(runs[i]) && AllWritable(runs[i])
  }

  datatype Next = Item(entry: Entry, pos: nat) | End | Broken

  /** The entry at `pos`: a clean end before its first byte, an error inside it. */
  function ReadNext(buf: seq<byte>, pos: nat): (r: Next)
    requires pos <= |buf|
    ensures r.Item? ==> pos < r.pos <= |buf|
  {
    var head := ARRIVAL_BYTES + FRAME_HEADER_BYTES;
    if pos == |buf| then End
    else if pos + head > |buf| then Broken
    else
      var len := FromLe(buf[pos + 16..pos + 20]);
      if pos + head + len > |buf| then Broken
      else
        var frame := buf[pos + ARRIVAL_BYTES..pos + head + len];
        match VerifiedSortKey(frame)
        case Err(_) => Broken
        case Ok((ts, id, _)) => Item(Entry(ts, id, (FromLe(buf[pos..pos + 8]), FromLe(buf[pos + 8..pos + 16])), frame),
          pos + head + len)
  }

  lemma SortKeyExtent(frame: seq<byte>)
    requires VerifiedSortKey(frame).Ok?
    ensures |frame| >= FRAME_HEADER_BYTES && VerifiedSortKey(frame).value.2 == FRAME_HEADER_BYTES + FromLe(frame[..4])
  {
    hide FromLe, GetSortKey;
  }

  /** Reading where an entry was written yields that entry. */
  lemma EntryReadsBack(pre: seq<byte>, e: Entry, post: seq<byte>)
    requires Writable(e)
    ensures ReadNext(pre + PutEntry(e) + post, |pre|) == Item(e, |pre + PutEntry(e)|)
  {
    hide FromLe, Le, VerifiedSortKey;
    var buf, at := pre + PutEntry(e) + post, |pre|;
    SortKeyExtent(e.frame);
    Limits();
    FromLeOfLe(e.arrival.0, 8);
    FromLeOfLe(e.arrival.1, 8);
    assert buf[at..at + 8] == Le(e.arrival.0, 8) && buf[at + 8..at + 16] == Le(e.arrival.1, 8);
    assert buf[at + 16..at + 20] == e.frame[..4];
    assert buf[at + 16..at + 16 + |e.frame|] == e.frame;
  }

  method WriteRun(run: seq<Entry>) returns (bytes: seq<byte>)
    ensures bytes == PutRun(run)
  {
    hide PutRun, Le;
    bytes := [];
    assert run[0..] == run;
    for i := 0 to |run|
      invariant bytes + PutRun(run[i..]) == PutRun(run)
    {
      RunStep(run, i);
      assert bytes + (PutEntry(run[i]) + PutRun(run[i + 1..])) == (bytes + PutEntry(run[i])) + PutRun(run[i + 1..]);
      bytes := bytes + (Le(run[i].arrival.0, 8) + Le(run[i].arrival.1, 8) + run[i].frame);
    }
    RunEnd(run);
  }

  lemma RunStep(run: seq<Entry>, i: nat)
    requires i < |run|
    ensures PutRun(run[i..]) == PutEntry(run[i]) + PutRun(run[i + 1..])
  {
    assert run[i..][0] == run[i] && run[i..][1..] == run[i + 1..];
  }

  lemma RunEnd(run: seq<Entry>)
    ensures PutRun(run[|run|..]) == []
  {
  }

  /** The cursor over a run file, from its start to its clean end. */
  method ReadRun(bytes: seq<byte>, ghost run: seq<Entry>) returns (got: seq<Entry>, ok: bool)
    requires bytes == PutRun(run) && AllWritable(run)
    ensures ok && got == run
  {
    hide Writable, PutEntry, ReadNext;
    got, ok := [], true;
    var pos := 0;
    ghost var pre: seq<byte> := [];
    while pos < |bytes|
      invariant |got| <= |run| && got == run[..|got|]
      invariant pos == |pre| && bytes == pre + PutRun(run[|got|..])
      decreases |bytes| - pos
    {
      ghost var k := |got|;
      RestStarts(run, k, pre);
      EntryReadsBack(pre, run[k], PutRun(run[k + 1..]));
      EntryNotEmpty(run[k]);
      assert bytes == pre + PutEntry(run[k]) + PutRun(run[k + 1..]);
      match ReadNext(bytes, pos)
      case Item(e, next) =>
        got, pos, pre := got + [e], next, pre + PutEntry(run[k]);
    }
    NothingLeft(run[|got|..]);
  }

  lemma RestStarts(run: seq<Entry>, k: nat, pre: seq<byte>)
    requires k <= |run| && PutRun(run[k..]) != []
    ensures k < |run| && PutRun(run[k..]) == PutEntry(run[k]) + PutRun(run[k + 1..])
  {
    assert k < |run| ==> run[k..][1..] == run[k + 1..];
  }

  lemma EntryNotEmpty(e: Entry)
    ensures |PutEntry(e)| >= ARRIVAL_BYTES
  {
  }

  lemma NothingLeft(run: seq<Entry>)
    ensures run != [] ==> PutRun(run) != []
  {
    if run != [] { EntryNotEmpty(run[0]); }
  }
}
