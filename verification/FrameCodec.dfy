/**
 * The codec as the source runs it: an encoder that appends to a buffer and
 * backfills the frame header, and a cursor that walks a payload. Each method is
 * proved against the byte layout in `Codec`.
 */
module FrameCodec {
  import opened Bytes
  import opened Extra
  import opened Codec

  /** Strings are `&str` in the source, so every text handed to the encoder is valid. */
  predicate TextsValid(env: Env, r: Record) {
    && env.utf8(r.series) && env.utf8(r.row.id) && env.utf8(r.row.data)
    && (forall i :: 0 <= i < |r.row.keys| && r.row.keys[i].Str? ==> env.utf8(r.row.keys[i].s))
    && (forall i :: 0 <= i < |r.row.extra| ==> env.utf8(r.row.extra[i].0) && env.utf8(r.row.extra[i].1))
  }

  /** When encoding succeeds. The pair count is checked before duplicates collapse. */
  predicate Encodable(env: Env, r: Record) {
    |r.row.extra| < U16_END && Fits(env, Canonical(r))
  }

  class Buffer {
    var bytes: seq<byte>

    constructor ()
      ensures bytes == []
    {
      bytes := [];
    }

    method Extend(s: seq<byte>)
      modifies this
      ensures bytes == old(bytes) + s
    {
      bytes := bytes + s;
    }

    method Truncate(len: nat)
      requires len <= |bytes|
      modifies this
      ensures bytes == old(bytes)[..len]
    {
      bytes := bytes[..len];
    }

    /** `copy_from_slice` into `[at, at + |s|)`. */
    method Overwrite(at: nat, s: seq<byte>)
      requires at + |s| <= |bytes|
      modifies this
      ensures bytes == old(bytes)[..at] + s + old(bytes)[at + |s|..]
    {
      bytes := bytes[..at] + s + bytes[at + |s|..];
    }

    method WriteStr16(s: Text) returns (ok: bool)
      modifies this
      ensures ok <==> |s| < U16_END
      ensures bytes == old(bytes) + if ok then PutStr16(s) else []
    {
      ok := |s| < U16_END;
      if ok {
        Extend(Le(|s|, 2));
        Extend(s);
      }
    }

    method WriteStr32(s: Text) returns (ok: bool)
      modifies this
      ensures ok <==> |s| < U32_END
      ensures bytes == old(bytes) + if ok then PutStr32(s) else []
    {
      ok := |s| < U32_END;
      if ok {
        Extend(Le(|s|, 4));
        Extend(s);
      }
    }

    method WriteValue(v: Value) returns (ok: bool)
      modifies this
      ensures ok <==> (v.Str? ==> |v.s| < U32_END)
      ensures old(bytes) <= bytes
      ensures ok ==> bytes == old(bytes) + PutValue(v)
    {
      hide Le, PutStr32, I64Bits;
      ok := true;
      match v
      case Null => Extend([0]);
      case Bool(b) =>
        Extend([1]);
        Extend([if b then 1 else 0]);
      case I64(i) =>
        Extend([2]);
        Extend(Le(I64Bits(i), 8));
      case F64(bits) =>
        Extend([3]);
        Extend(Le(bits, 8));
      case Str(s) =>
        Extend([4]);
        ok := WriteStr32(s);
    }

    method WriteKeys(keys: seq<Value>) returns (ok: bool)
      modifies this
      ensures ok <==> forall i :: 0 <= i < |keys| && keys[i].Str? ==> |keys[i].s| < U32_END
      ensures old(bytes) <= bytes
      ensures ok ==> bytes == old(bytes) + PutKeys(keys)
    {
      hide PutValue;
      ok := true;
      var i := 0;
      while i < |keys|
        invariant 0 <= i <= |keys|
        invariant forall j :: 0 <= j < i && keys[j].Str? ==> |keys[j].s| < U32_END
        invariant bytes == old(bytes) + PutKeys(keys[..i])
      {
        ok := WriteValue(keys[i]);
        if !ok { return; }
        assert keys[..i + 1] == keys[..i] + [keys[i]];
        PutKeysAppend(keys[..i], keys[i]);
        i := i + 1;
      }
      assert keys[..i] == keys;
    }

    method WritePair(p: Pair) returns (ok: bool)
      modifies this
      ensures ok <==> |p.0| < U16_END && |p.1| < U16_END
      ensures old(bytes) <= bytes
      ensures ok ==> bytes == old(bytes) + PutStr16(p.0) + PutStr16(p.1)
    {
      ok := WriteStr16(p.0);
      if ok { ok := WriteStr16(p.1); }
    }

    /** The pairs at the given indices, in order; `chosen` names them. */
    method WritePairs(extra: seq<Pair>, order: seq<nat>, ghost chosen: seq<Pair>) returns (ok: bool)
      requires |chosen| == |order|
      requires forall i :: 0 <= i < |order| ==> order[i] < |extra| && chosen[i] == extra[order[i]]
      modifies this
      ensures ok <==> PairLengths(chosen)
      ensures old(bytes) <= bytes
      ensures ok ==> bytes == old(bytes) + PutPairs(chosen)
    {
      hide PutStr16, PutPairs;
      ok := true;
      var i := 0;
      assert PutPairs(chosen[..0]) == [] by { PutNoPairs(); }
      while i < |order|
        invariant 0 <= i <= |order|
        invariant forall j :: 0 <= j < i ==> |chosen[j].0| < U16_END && |chosen[j].1| < U16_END
        invariant bytes == old(bytes) + PutPairs(chosen[..i])
      {
        ok := WritePair(extra[order[i]]);
        if !ok { return; }
        assert chosen[..i + 1] == chosen[..i] + [chosen[i]];
        PutPairsAppend(chosen[..i], chosen[i]);
        i := i + 1;
      }
      assert chosen[..i] == chosen;
    }
  }

  lemma PutNoPairs()
    ensures PutPairs([]) == []
  {
  }

  predicate PairLengths(pairs: seq<Pair>) {
    forall i :: 0 <= i < |pairs| ==> |pairs[i].0| < U16_END && |pairs[i].1| < U16_END
  }

  lemma {:induction false} PutKeysAppend(keys: seq<Value>, v: Value)
    ensures PutKeys(keys + [v]) == PutKeys(keys) + PutValue(v)
  {
    hide PutValue;
    if keys == [] {
      assert [v][1..] == [];
    } else {
      assert (keys + [v])[1..] == keys[1..] + [v];
      PutKeysAppend(keys[1..], v);
    }
  }

  lemma {:induction false} PutPairsAppend(pairs: seq<Pair>, p: Pair)
    ensures PutPairs(pairs + [p]) == PutPairs(pairs) + PutStr16(p.0) + PutStr16(p.1)
  {
    hide PutStr16;
    if pairs == [] {
      assert [p][1..] == [];
    } else {
      assert (pairs + [p])[1..] == pairs[1..] + [p];
      PutPairsAppend(pairs[1..], p);
    }
  }

  /** The `extra` section: the fast path when already canonical, else sort and collapse. */
  method WriteExtra(out: Buffer, extra: seq<Pair>) returns (ok: bool)
    requires |extra| < U16_END
    modifies out
    ensures ok <==> PairLengths(Canonicalise(extra))
    ensures old(out.bytes) <= out.bytes
    ensures ok ==> out.bytes == old(out.bytes) + (Le(|Canonicalise(extra)|, 2) + PutPairs(Canonicalise(extra)))
  {
    hide Le, PutPairs, Canonicalise, PairLengths;
    if IsCanonical(extra) {
      CanonicaliseFixpoint(extra);
      out.Extend(Le(|extra|, 2));
      var all := seq(|extra|, i => i);
      ok := out.WritePairs(extra, all, extra);
    } else {
      var kept := SortAndCollapse(extra);
      out.Extend(Le(|kept|, 2));
      ok := out.WritePairs(extra, kept, Select(extra, kept));
    }
  }

  /** Everything in a payload after its fixed prefix. */
  function PutSections(r: Record): seq<byte> {
    PutKeys(r.row.keys) + (Le(|r.row.extra|, 2) + PutPairs(r.row.extra)) + PutStr32(r.row.data)
  }

  lemma PayloadSplit(r: Record)
    ensures PutPayload(r) == PutPrefix(r) + PutSections(r)
  {
    hide PutPrefix, PutKeys, PutPairs, PutStr32, Le;
  }

  class Encoder {
    constructor () {}

    /** Appends one frame to `out`; on failure `out` is restored to its entry length. */
    method Encode(env: Env, out: Buffer, r: Record) returns (ok: bool)
      requires TextsValid(env, r)
      modifies out
      ensures ok <==> Encodable(env, r)
      ensures out.bytes == old(out.bytes) + if ok then EncodeRecord(env, r) else []
    {
      hide EncodeRecord, Encodable;
      var start := |out.bytes|;
      ok := EncodeInner(env, out, r);
      if !ok { out.Truncate(start); }
    }

    method EncodeInner(env: Env, out: Buffer, r: Record) returns (ok: bool)
      requires TextsValid(env, r)
      modifies out
      ensures ok <==> Encodable(env, r)
      ensures old(out.bytes) <= out.bytes
      ensures ok ==> out.bytes == old(out.bytes) + EncodeRecord(env, r)
    {
      EncodableLengths(env, r);
      hide PutPayload, Canonicalise, FieldLengths, Encodable, TextsValid, PutFrame;
      ghost var c := Canonical(r);
      var start := |out.bytes|;
      out.Extend([0, 0, 0, 0, 0, 0, 0, 0]);
      ok := WritePayload(out, r, c);
      if !ok { return; }
      var payloadLen := |out.bytes| - start - FRAME_HEADER_BYTES;
      ok := payloadLen < U32_END;
      if !ok { return; }
      Backfill(env, out, start, PutPayload(c), old(out.bytes));
    }

    method WritePayload(out: Buffer, r: Record, ghost c: Record) returns (ok: bool)
      requires c == Canonical(r)
      modifies out
      ensures ok <==> FieldLengths(r)
      ensures old(out.bytes) <= out.bytes
      ensures ok ==> out.bytes == old(out.bytes) + PutPayload(c)
    {
      hide PutPrefix, PutSections, PutPayload, Canonicalise, PairLengths;
      ok := WritePrefix(out, r, c);
      if !ok { return; }
      ok := WriteSections(out, r, c);
      PayloadSplit(c);
    }

    /** Keys, `extra` and `data`. */
    method WriteSections(out: Buffer, r: Record, ghost c: Record) returns (ok: bool)
      requires c == Canonical(r)
      modifies out
      ensures ok <==> (forall i :: 0 <= i < |r.row.keys| && r.row.keys[i].Str? ==> |r.row.keys[i].s| < U32_END)
                      && |r.row.extra| < U16_END && PairLengths(c.row.extra) && |r.row.data| < U32_END
      ensures old(out.bytes) <= out.bytes
      ensures ok ==> out.bytes == old(out.bytes) + PutSections(c)
    {
      hide PutKeys, PutStr32, PutPairs, Canonicalise, PairLengths, Le;
      ok := out.WriteKeys(r.row.keys);
      if !ok { return; }
      ok := |r.row.extra| < U16_END;
      if !ok { return; }
      ok := WriteExtra(out, r.row.extra);
      if !ok { return; }
      ok := out.WriteStr32(r.row.data);
    }

    method WritePrefix(out: Buffer, r: Record, ghost c: Record) returns (ok: bool)
      requires c == Canonical(r)
      modifies out
      ensures ok <==> |r.series| < U16_END && |r.row.id| < U16_END
      ensures old(out.bytes) <= out.bytes
      ensures ok ==> out.bytes == old(out.bytes) + PutPrefix(c)
    {
      hide Le, PutStr16, Canonicalise;
      out.Extend(Le(r.row.ts, 8));
      out.Extend(Le(r.epoch, 4));
      ok := out.WriteStr16(r.series);
      if !ok { return; }
      ok := out.WriteStr16(r.row.id);
    }

    /** Fill in `len`, then the CRC over `len` and the payload already in place. */
    method Backfill(env: Env, out: Buffer, start: nat, ghost payload: seq<byte>, ghost base: seq<byte>)
      requires |base| == start && out.bytes == base + [0, 0, 0, 0, 0, 0, 0, 0] + payload
      modifies out
      ensures out.bytes == base + PutFrame(env, payload)
    {
      hide Le;
      var len := Le(|out.bytes| - start - FRAME_HEADER_BYTES, 4);
      out.Overwrite(start, len);
      assert out.bytes == base + len + [0, 0, 0, 0] + payload;
      assert out.bytes[start..start + 4] == len;
      assert out.bytes[start + 8..] == payload;
      var crc := env.crc(out.bytes[start..start + 4] + out.bytes[start + 8..]);
      out.Overwrite(start + 4, Le(crc, 4));
    }
  }

  /** The length tests the encoder makes, field by field. */
  predicate FieldLengths(r: Record) {
    && |r.series| < U16_END && |r.row.id| < U16_END
    && (forall i :: 0 <= i < |r.row.keys| && r.row.keys[i].Str? ==> |r.row.keys[i].s| < U32_END)
    && |r.row.extra| < U16_END && PairLengths(Canonicalise(r.row.extra))
    && |r.row.data| < U32_END
  }

  lemma EncodableLengths(env: Env, r: Record)
    requires TextsValid(env, r)
    ensures Encodable(env, r) <==> FieldLengths(r) && |PutPayload(Canonical(r))| < U32_END
  {
    hide PutPayload, Canonicalise, Kept, IsCanonical;
    var c := Canonicalise(r.row.extra);
    CanonicaliseMeaning(r.row.extra);
    CanonicaliseShrinks(r.row.extra);
    forall i | 0 <= i < |c| ensures env.utf8(c[i].0) && env.utf8(c[i].1) {
      KeptIsPresent(r.row.extra, c[i]);
    }
  }

  // ---- decoding ---------------------------------------------------------------

  /** A bounds-checked reader over one payload; a failed read may leave it anywhere in bounds. */
  class Cursor {
    const buf: seq<byte>
    var pos: nat

    constructor (buf: seq<byte>)
      ensures this.buf == buf && pos == 0
    {
      this.buf := buf;
      pos := 0;
    }

    method Take(n: nat) returns (r: Read<seq<byte>>)
      modifies this
      ensures r == Codec.Take(buf, old(pos), n)
      ensures pos == if r.Got? then r.pos else old(pos)
    {
      r := Codec.Take(buf, pos, n);
      if r.Got? { pos := r.pos; }
    }

    method Number(width: nat) returns (r: Read<nat>)
      modifies this
      ensures r == GetLe(buf, old(pos), width)
      ensures r.Got? ==> pos == r.pos
    {
      var t := Take(width);
      r := if t.Got? then Got(FromLe(t.value), t.pos) else Bad(t.reason);
    }

    method Utf8(env: Env, n: nat) returns (r: Read<Text>)
      modifies this
      ensures r == GetText(env, buf, old(pos), n)
      ensures r.Got? ==> pos == r.pos
    {
      var t := Take(n);
      if t.Bad? { r := Bad(t.reason); }
      else if env.utf8(t.value) { r := t; }
      else { r := Bad(NotUtf8); }
    }

    method Str16(env: Env) returns (r: Read<Text>)
      modifies this
      ensures r == GetStr16(env, buf, old(pos))
      ensures r.Got? ==> pos == r.pos
    {
      var n := Number(2);
      if n.Bad? { return Bad(n.reason); }
      r := Utf8(env, n.value);
    }

    method Str32(env: Env) returns (r: Read<Text>)
      modifies this
      ensures r == GetStr32(env, buf, old(pos))
      ensures r.Got? ==> pos == r.pos
    {
      var n := Number(4);
      if n.Bad? { return Bad(n.reason); }
      r := Utf8(env, n.value);
    }

    method ReadValue(env: Env) returns (r: Read<Value>)
      modifies this
      ensures r == GetValue(env, buf, old(pos))
      ensures r.Got? ==> pos == r.pos
    {
      hide GetStr32, FromLe;
      Limits();
      var tag := Take(1);
      if tag.Bad? { return Bad(tag.reason); }
      if tag.value == [0] { return Got(Null, tag.pos); }
      if tag.value == [1] {
        var b := Take(1);
        if b.Bad? { return Bad(b.reason); }
        if b.value == [0] { return Got(Bool(false), b.pos); }
        if b.value == [1] { return Got(Bool(true), b.pos); }
        return Bad(BadBool);
      }
      if tag.value == [2] || tag.value == [3] {
        var n := Number(8);
        if n.Bad? { return Bad(n.reason); }
        return Got(if tag.value == [2] then I64(I64FromBits(n.value)) else F64(n.value), n.pos);
      }
      if tag.value == [4] {
        var s := Str32(env);
        if s.Bad? { return Bad(s.reason); }
        return Got(Str(s.value), s.pos);
      }
      return Bad(UnknownTag);
    }
  }

  /** Caller scratch: cleared and refilled by each decode, unspecified after an error. */
  class Scratch {
    var keys: seq<Value>
    var extra: seq<Pair>

    constructor () {
      keys, extra := [], [];
    }

    method ReadKeys(env: Env, c: Cursor, count: nat) returns (bad: bool, reason: Reason)
      modifies this, c
      ensures extra == old(extra)
      ensures GetKeys(env, c.buf, old(c.pos), count) == if bad then Bad(reason) else Got(keys, c.pos)
    {
      hide GetValue;
      bad, reason := false, Overrun;
      keys := [];
      var i := 0;
      PrependNone(GetKeys(env, c.buf, c.pos, count));
      while i < count
        invariant 0 <= i <= count && extra == old(extra)
        invariant GetKeys(env, c.buf, old(c.pos), count) == Prepend(keys, GetKeys(env, c.buf, c.pos, count - i))
      {
        var v := c.ReadValue(env);
        if v.Bad? { return true, v.reason; }
        PrependOne(keys, v.value, GetKeys(env, c.buf, v.pos, count - i - 1));
        keys := keys + [v.value];
        i := i + 1;
      }
      assert keys + [] == keys;
    }

    method ReadPairs(env: Env, c: Cursor, count: nat) returns (bad: bool, reason: Reason)
      modifies this, c
      ensures keys == old(keys)
      ensures GetPairs(env, c.buf, old(c.pos), count) == if bad then Bad(reason) else Got(extra, c.pos)
    {
      hide GetStr16;
      bad, reason := false, Overrun;
      extra := [];
      var i := 0;
      PrependNone(GetPairs(env, c.buf, c.pos, count));
      while i < count
        invariant 0 <= i <= count && keys == old(keys)
        invariant GetPairs(env, c.buf, old(c.pos), count) == Prepend(extra, GetPairs(env, c.buf, c.pos, count - i))
      {
        var name := c.Str16(env);
        if name.Bad? { return true, name.reason; }
        var value := c.Str16(env);
        if value.Bad? { return true, value.reason; }
        PrependOne(extra, (name.value, value.value), GetPairs(env, c.buf, value.pos, count - i - 1));
        extra := extra + [(name.value, value.value)];
        i := i + 1;
      }
      assert extra + [] == extra;
    }
  }

  ghost function Prepend<T>(front: seq<T>, rest: Read<seq<T>>): Read<seq<T>> {
    match rest
    case Got(s, p) => Got(front + s, p)
    case Bad(reason) => Bad(reason)
  }

  lemma PrependNone<T>(rest: Read<seq<T>>)
    ensures Prepend([], rest) == rest
  {
    if rest.Got? { assert [] + rest.value == rest.value; }
  }

  lemma PrependOne<T>(front: seq<T>, x: T, rest: Read<seq<T>>)
    ensures Prepend(front, Prepend([x], rest)) == Prepend(front + [x], rest)
  {
    if rest.Got? { assert front + ([x] + rest.value) == front + [x] + rest.value; }
  }

  /** `ts | epoch | series | id`. */
  method ReadPrefix(env: Env, c: Cursor) returns (r: Read<Prefix>)
    requires c.pos == 0
    modifies c
    ensures r == GetPrefix(env, c.buf)
    ensures r.Got? ==> c.pos == r.pos
  {
    hide GetStr16, FromLe;
    Limits();
    var ts := c.Number(8);
    if ts.Bad? { return Bad(ts.reason); }
    var epoch := c.Number(4);
    if epoch.Bad? { return Bad(epoch.reason); }
    var series := c.Str16(env);
    if series.Bad? { return Bad(series.reason); }
    var id := c.Str16(env);
    if id.Bad? { return Bad(id.reason); }
    r := Got(Prefix(ts.value, epoch.value, series.value, id.value), id.pos);
  }

  /** The shared body of `decode` and `decode_verified`. */
  method DecodePayload(env: Env, payload: seq<byte>, keyCount: nat, scratch: Scratch) returns (r: Read<Record>)
    modifies scratch
    ensures r == GetRecord(env, payload, keyCount)
    ensures r.Got? ==> scratch.keys == r.value.row.keys && scratch.extra == r.value.row.extra
  {
    hide GetPrefix, GetKeys, GetPairs, GetStr32, GetLe;
    var c := new Cursor(payload);
    var prefix := ReadPrefix(env, c);
    if prefix.Bad? { return Bad(prefix.reason); }
    var bad, reason := scratch.ReadKeys(env, c, keyCount);
    if bad { return Bad(reason); }
    var n := c.Number(2);
    if n.Bad? { return Bad(n.reason); }
    bad, reason := scratch.ReadPairs(env, c, n.value);
    if bad { return Bad(reason); }
    var data := c.Str32(env);
    if data.Bad? { return Bad(data.reason); }
    if c.pos != |payload| { return Bad(TrailingBytes); }
    var p := prefix.value;
    r := Got(Record(p.series, p.epoch, Row(p.ts, p.id, scratch.keys, scratch.extra, data.value)), c.pos);
  }

  /** `decode` into caller scratch. */
  method DecodeInto(env: Env, buf: seq<byte>, keyCount: nat, maxRecord: nat, scratch: Scratch)
    returns (r: Result<(Record, nat)>)
    modifies scratch
    ensures r == Decode(env, buf, keyCount, maxRecord)
    ensures r.Ok? ==> scratch.keys == r.value.0.row.keys && scratch.extra == r.value.0.row.extra
  {
    hide GetRecord, FramePayload, FromLe;
    var n := FramePayload(env, buf, maxRecord);
    if n.Err? { return Err(n.error); }
    FramePayloadFits(env, buf, maxRecord);
    var got := DecodePayload(env, buf[8..n.value], keyCount, scratch);
    r := if got.Got? then Ok((got.value, n.value)) else Err(Corrupt(got.reason));
  }
}
