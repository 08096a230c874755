/**
 * The writer's fields and the critical sections that change them. Every method
 * is told how the disk answers and is one step of the interleaving in `Wal`, or
 * two taken under one lock.
 */
module WalWriter {
  import opened Bytes
  import opened Decimal
  import opened Codec
  import opened Segments
  import opened Wal

  /** How a roll goes: the flush stops early, the fsync fails, or all of it succeeds. */
  datatype RollIo = FlushFails(reached: nat) | SyncFails | Succeeds

  function RollStep(io: RollIo): Step {
    match io
    case FlushFails(reached) => FlushErr(reached)
    case SyncFails => FlushOnly
    case Succeeds => Wal.Step.Roll
  }

  /** `x` is what the step makes of `w`. */
  predicate Stepped(env: Env, w: Writer, step: Step, x: Writer) { Enabled(env, w, step) && x == Apply(env, w, step) }

  class Shared {
    var files: map<u64, File>
    var open: Option<Active>
    var needsRoll: bool
    var token: Token
    var last: u64
    ghost var acked: map<u64, seq<Frame>>
    ghost var failed: map<u64, seq<Frame>>
    ghost var promised: map<u64, nat>

    ghost function View(): Writer
      reads this
    {
      Writer(files, open, needsRoll, token, last, acked, failed, promised)
    }

    /** Create the first segment durably. */
    constructor (id: u64)
      ensures View() == Fresh(id)
    {
      var header := PutSegmentHeader(id);
      files, open, needsRoll := map[id := File(header, |header|)], Some(Active(id, [], |header|, |header|)), false;
      token, last := Parked, id;
      acked, failed, promised := map[id := []], map[id := []], map[id := |header|];
    }

    /** Take the stream's next bytes: the first `reached` of them are in the file afterwards. */
    method Write(bytes: seq<byte>, reached: nat)
      requires Opened(View()) && reached <= |Stream(View()) + bytes|
      modifies `files, `open
      ensures View() == Settle(old(View()), old(Stream(View())) + bytes, reached)
    {
      var a := open.value;
      var stream := files[a.id].content + a.buffer + bytes;
      files := files[a.id := files[a.id].(content := stream[..reached])];
      open := Some(a.(buffer := stream[reached..]));
    }

    /** Flush and fsync under the lock. */
    method SyncInLock()
      requires Opened(View())
      modifies `files, `open, `promised
      ensures View() == Synced(old(View()))
    {
      var n := |files[open.value.id].content + open.value.buffer|;
      assert Stream(View()) + [] == Stream(View());
      Write([], n);
      var a := open.value;
      files := files[a.id := files[a.id].(durable := |files[a.id].content|)];
      open := Some(a.(synced := a.bytes));
      promised := promised[a.id := a.bytes];
    }

    /** Create the segment after the active one, which is synced to its end, and switch to it. */
    method CreateNext(ghost env: Env)
      requires open.Some? && open.value.id + 1 < U64_END && open.value.id + 1 !in files
      requires Inv(env, View()) && open.value.id == last && SealedOk(View(), last)
      modifies this
      ensures Inv(env, View()) && View() == Created(old(View()), old(open).value.id + 1)
      ensures forall i :: i in old(files) ==> files[i] == old(files[i]) && SealedOk(View(), i)
    {
      hide Inv, PutSegmentHeader;
      CreateKeeps(env, View(), open.value.id + 1);
      var id: u64 := open.value.id + 1;
      var header := PutSegmentHeader(id);
      files, open := files[id := File(header, |header|)], Some(Active(id, [], |header|, |header|));
      needsRoll, last := false, id;
      acked, failed, promised := acked[id := []], failed[id := []], promised[id := |header|];
    }

    /** Seal the active segment and open its successor; a failure keeps the old one open. */
    method Roll(env: Env, io: RollIo) returns (ok: bool)
      requires Inv(env, View()) && Enabled(env, View(), RollStep(io))
      modifies this
      ensures Inv(env, View()) && Stepped(env, old(View()), RollStep(io), View())
      ensures ok <==> io.Succeeds?
    {
      hide Inv;
      StepKeeps(env, View(), RollStep(io));
      assert Stream(View()) + [] == Stream(View());
      match io {
        case FlushFails(reached) =>
          Write([], reached);
          ok := false;
        case SyncFails =>
          Write([], |files[open.value.id].content + open.value.buffer|);
          ok := false;
        case Succeeds =>
          SyncedKeeps(env, View());
          OpenIsLast(env, View());
          SyncInLock();
          CreateNext(env);
          ok := true;
      }
    }

    /**
     * Append back-to-back frames under one lock. A write that fails part way seals the segment behind the torn
     * frame.
     */
    method AppendBytes(env: Env, frames: seq<Frame>, ok: bool, taken: nat, reached: nat, io: RollIo)
      returns (accepted: bool)
      requires Inv(env, View())
      requires open.Some? && !needsRoll ==>
                 Enabled(env, View(), if ok then AppendOk(frames, reached) else AppendErr(frames, taken, reached))
      requires open.Some? && !needsRoll && !ok ==>
                 Enabled(env, Apply(env, View(), AppendErr(frames, taken, reached)), RollStep(io))
      modifies this
      ensures Inv(env, View())
      ensures accepted <==> old(open).Some? && !old(needsRoll) && ok
      ensures old(open).None? || old(needsRoll) ==> View() == old(View())
      ensures accepted ==> Stepped(env, old(View()), AppendOk(frames, reached), View())
      ensures accepted ==>
                && Opened(old(View())) && Opened(View()) && open.value.id == old(open).value.id
                && acked == old(acked)[open.value.id := old(acked[open.value.id]) + frames]
                && Stream(View()) == old(Stream(View())) + Flat(frames)
      ensures old(open).Some? && !old(needsRoll) && !ok ==>
                View() == Apply(env, Apply(env, old(View()), AppendErr(frames, taken, reached)), RollStep(io))
    {
      hide Inv, Flat, RollStep;
      if needsRoll || open.None? { return false; }
      accepted := ok;
      if ok {
        StepKeeps(env, View(), AppendOk(frames, reached));
        SettledStream(View(), Stream(View()) + Flat(frames), reached);
        Write(Flat(frames), reached);
        var a := open.value;
        open := Some(a.(bytes := a.bytes + |Flat(frames)|));
        acked := acked[a.id := acked[a.id] + frames];
      } else {
        StepKeeps(env, View(), AppendErr(frames, taken, reached));
        Write(Flat(frames)[..taken], reached);
        needsRoll := true;
        failed := failed[open.value.id := frames];
        var rolled := Roll(env, io);
      }
    }

    static lemma SettledStream(w: Writer, stream: seq<byte>, reached: nat)
      requires Opened(w) && reached <= |stream|
      ensures Opened(Settle(w, stream, reached)) && Stream(Settle(w, stream, reached)) == stream
    {
    }

    /** Called by the flush; an empty segment is left alone. */
    method Seal(env: Env, io: RollIo) returns (r: Option<u64>)
      requires Inv(env, View())
      requires (open.Some? && open.value.bytes != SEGMENT_HEADER_BYTES ==> Enabled(env, View(), RollStep(io)))
      modifies this
      ensures Inv(env, View())
      ensures old(open).None? || old(open).value.bytes == SEGMENT_HEADER_BYTES ==> r == None && View() == old(View())
      ensures old(open).Some? && old(open).value.bytes != SEGMENT_HEADER_BYTES ==>
                && Stepped(env, old(View()), RollStep(io), View())
                && r == if io.Succeeds? then Some(old(open).value.id) else None
    {
      hide Inv;
      if open.None? || open.value.bytes == SEGMENT_HEADER_BYTES { return None; }
      var id := open.value.id;
      var ok := Roll(env, io);
      r := if ok then Some(id) else None;
    }

    /** The committer, holding the lock: flush, and remember how far. */
    method TakeToken(env: Env)
      requires Inv(env, View()) && Opened(View())
      modifies this
      ensures Inv(env, View()) && Stepped(env, old(View()), Take, View())
    {
      hide Inv;
      StepKeeps(env, View(), Take);
      assert Stream(View()) + [] == Stream(View());
      var id, upto := open.value.id, open.value.bytes;
      Write([], |files[id].content + open.value.buffer|);
      token := Taken(id, upto);
    }

    /** The committer's fsync, with the lock released. */
    method FsyncOutside(env: Env, ok: bool)
      requires Inv(env, View()) && token.Taken? && token.id in files
      modifies this
      ensures Inv(env, View()) && Stepped(env, old(View()), if ok then Fsync else FsyncErr, View())
    {
      hide Inv;
      StepKeeps(env, View(), if ok then Fsync else FsyncErr);
      if ok {
        files := files[token.id := files[token.id].(durable := |files[token.id].content|)];
        token := Fsynced(token.id, token.upto);
      } else {
        token := Parked;
      }
    }

    /** The committer again, holding the lock: a `seal` may have swapped segments meanwhile. */
    method PublishSynced(env: Env)
      requires Inv(env, View()) && token.Fsynced?
      modifies this
      ensures Inv(env, View()) && Stepped(env, old(View()), Publish, View())
      ensures old(open).Some? && old(open).value.id != old(token).id ==> open == old(open) && promised == old(promised)
    {
      hide Inv;
      StepKeeps(env, View(), Publish);
      OpenHasFile(env, View());
      if open.Some? && open.value.id == token.id {
        var a := open.value;
        var synced := if a.synced < token.upto then token.upto else a.synced;
        open := Some(a.(synced := synced));
        promised := promised[a.id := synced];
      }
      token := Parked;
    }

    static lemma OpenHasFile(env: Env, w: Writer)
      requires Inv(env, w)
      ensures w.open.Some? ==> Opened(w)
    {
    }

    /** The committer, holding the lock: roll a full segment, or one that ends in a torn frame. */
    method RollIfDue(env: Env, maxBytes: nat, io: RollIo)
      requires Inv(env, View()) && (open.Some? ==> Enabled(env, View(), RollStep(io)))
      modifies this
      ensures Inv(env, View())
      ensures if old(open).Some? && (old(open).value.bytes >= maxBytes || old(needsRoll))
              then Stepped(env, old(View()), RollStep(io), View()) else View() == old(View())
    {
      if open.Some? && (open.value.bytes >= maxBytes || needsRoll) {
        var ok := Roll(env, io);
      }
    }

    /** Fsync what is outstanding and refuse later appends. */
    method Close(env: Env, ok: bool)
      requires Inv(env, View())
      modifies this
      ensures Inv(env, View()) && open.None?
      ensures Opened(old(View())) ==> View() == (if ok then Synced(old(View())) else old(View())).(open := None)
      ensures old(open).Some? && ok ==>
                old(open).value.id in files && files[old(open).value.id].durable == |files[old(open).value.id].content|
    {
      hide Inv;
      OpenHasFile(env, View());
      if open.Some? {
        StepKeeps(env, View(), if ok then CloseOk else CloseErr);
        if ok { SyncInLock(); }
        open := None;
      }
    }
  }
}
