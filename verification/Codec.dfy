/**
 * The frame codec (src/codec.rs): byte layout, printer and parser.
 *
 * The CRC-32 and UTF-8 validity are parameters, so every statement holds for any
 * checksum and any validity predicate. `f64` keys are their 64 raw bits.
 */
module Codec {
  import opened Bytes
  import opened Extra

  const MAGIC: u32 := 0x0063_726f
  const FORMAT_VERSION: nat := 1
  const SEGMENT_HEADER_BYTES: nat := 14
  const BATCH_HEADER_BYTES: nat := 10
  const FRAME_HEADER_BYTES: nat := 8
  const MIN_PAYLOAD_BYTES: nat := 22
  const USIZE_MAX: nat := 0xffff_ffff_ffff_ffff

  datatype Env = Env(crc: seq<byte> -> u32, utf8: seq<byte> -> bool)

  datatype Value = Null | Bool(b: bool) | I64(i: i64) | F64(bits: u64) | Str(s: Text)

  /** A record as supplied to `append`. */
  datatype Row = Row(ts: u64, id: Text, keys: seq<Value>, extra: seq<Pair>, data: Text)

  /** A frame's contents: a row stamped with its series and schema epoch. */
  datatype Record = Record(series: Text, epoch: u32, row: Row)

  datatype Reason =
    | BadMagic | UnsupportedVersion
    | LengthTooSmall | LengthOverMax | CrcMismatch
    | Overrun | NotUtf8 | BadBool | UnknownTag | TrailingBytes

  datatype DecodeError = Truncated(needed: nat, got: nat) | Corrupt(reason: Reason)

  datatype Result<+T> = Ok(value: T) | Err(error: DecodeError) {
    predicate IsFailure() { Err? }
    function PropagateFailure<U>(): Result<U>
      requires Err?
    {
      Err(error)
    }
    function Extract(): T
      requires Ok?
    {
      value
    }
  }

  // ---- printing -----------------------------------------------------------

  function PutStr16(s: Text): seq<byte> { Le(|s|, 2) + s }

  function PutStr32(s: Text): seq<byte> { Le(|s|, 4) + s }

  function PutValue(v: Value): seq<byte> {
    match v
    case Null => [0]
    case Bool(b) => [1, if b then 1 else 0]
    case I64(i) => [2] + Le(I64Bits(i), 8)
    case F64(bits) => [3] + Le(bits, 8)
    case Str(s) => [4] + PutStr32(s)
  }

  function PutKeys(keys: seq<Value>): seq<byte> {
    if keys == [] then [] else PutValue(keys[0]) + PutKeys(keys[1..])
  }

  function PutPairs(pairs: seq<Pair>): seq<byte> {
    if pairs == [] then []
    else PutStr16(pairs[0].0) + PutStr16(pairs[0].1) + PutPairs(pairs[1..])
  }

  /** `ts | epoch | series | id`, the part every reader looks at. */
  function PutPrefix(r: Record): seq<byte> {
    Le(r.row.ts, 8) + Le(r.epoch, 4) + PutStr16(r.series) + PutStr16(r.row.id)
  }

  /** The payload of a record, with its `extra` pairs written as they stand. */
  function PutPayload(r: Record): seq<byte> {
    PutPrefix(r) + PutKeys(r.row.keys) + (Le(|r.row.extra|, 2) + PutPairs(r.row.extra)) + PutStr32(r.row.data)
  }

  /** `len | crc32 | payload`; the checksum covers the length field and the payload. */
  function PutFrame(env: Env, payload: seq<byte>): seq<byte> {
    var len := Le(|payload|, 4);
    len + Le(env.crc(len + payload), 4) + payload
  }

  /** What the encoder writes for a row: the record with `extra` in canonical form. */
  function Canonical(r: Record): Record {
    r.(row := r.row.(extra := Canonicalise(r.row.extra)))
  }

  function EncodeRecord(env: Env, r: Record): seq<byte> {
    PutFrame(env, PutPayload(Canonical(r)))
  }

  // ---- what fits the layout -----------------------------------------------

  predicate Text16(env: Env, s: Text) { |s| < U16_END && env.utf8(s) }

  predicate Text32(env: Env, s: Text) { |s| < U32_END && env.utf8(s) }

  predicate ValueFits(env: Env, v: Value) { v.Str? ==> Text32(env, v.s) }

  predicate PairFits(env: Env, p: Pair) { Text16(env, p.0) && Text16(env, p.1) }

  predicate KeysFit(env: Env, keys: seq<Value>) {
    forall i :: 0 <= i < |keys| ==> ValueFits(env, keys[i])
  }

  predicate PairsFit(env: Env, pairs: seq<Pair>) {
    forall i :: 0 <= i < |pairs| ==> PairFits(env, pairs[i])
  }

  /** Every field has a length its length field can carry and is valid text. */
  predicate FieldsFit(env: Env, r: Record) {
    && Text16(env, r.series) && Text16(env, r.row.id)
    && KeysFit(env, r.row.keys)
    && |r.row.extra| < U16_END && PairsFit(env, r.row.extra)
    && Text32(env, r.row.data)
  }

  predicate Fits(env: Env, r: Record) {
    FieldsFit(env, r) && |PutPayload(r)| < U32_END
  }

  // ---- parsing ------------------------------------------------------------

  /** A value read from a payload and the position after it. */
  datatype Read<+T> = Got(value: T, pos: nat) | Bad(reason: Reason) {
    predicate IsFailure() { Bad? }
    function PropagateFailure<U>(): Read<U>
      requires Bad?
    {
      Bad(reason)
    }
    function Extract(): (T, nat)
      requires Got?
    {
      (value, pos)
    }
  }

  function Take(buf: seq<byte>, pos: nat, n: nat): Read<seq<byte>> {
    if pos + n > |buf| then Bad(Overrun) else Got(buf[pos..pos + n], pos + n)
  }

  function GetLe(buf: seq<byte>, pos: nat, width: nat): (r: Read<nat>)
    ensures r.Got? ==> r.value < Limit(width)
  {
    var (s, p) :- Take(buf, pos, width);
    LeOfFromLe(s);
    Got(FromLe(s), p)
  }

  function GetText(env: Env, buf: seq<byte>, pos: nat, n: nat): Read<Text> {
    var (s, p) :- Take(buf, pos, n);
    if env.utf8(s) then Got(s, p) else Bad(NotUtf8)
  }

  function GetStr16(env: Env, buf: seq<byte>, pos: nat): Read<Text> {
    var (n, p) :- GetLe(buf, pos, 2);
    GetText(env, buf, p, n)
  }

  function GetStr32(env: Env, buf: seq<byte>, pos: nat): Read<Text> {
    var (n, p) :- GetLe(buf, pos, 4);
    GetText(env, buf, p, n)
  }

  function GetU32(buf: seq<byte>, pos: nat): Read<u32> {
    var (n, p) :- GetLe(buf, pos, 4);
    Limits();
    Got(n, p)
  }

  function GetU64(buf: seq<byte>, pos: nat): Read<u64> {
    var (n, p) :- GetLe(buf, pos, 8);
    Limits();
    Got(n, p)
  }

  function GetValue(env: Env, buf: seq<byte>, pos: nat): Read<Value> {
    var (tag, p) :- Take(buf, pos, 1);
    if tag == [0] then Got(Null, p)
    else if tag == [1] then
      var (b, q) :- Take(buf, p, 1);
      if b == [0] then Got(Bool(false), q) else if b == [1] then Got(Bool(true), q) else Bad(BadBool)
    else if tag == [2] then
      var (n, q) :- GetU64(buf, p);
      Got(I64(I64FromBits(n)), q)
    else if tag == [3] then
      var (n, q) :- GetU64(buf, p);
      Got(F64(n), q)
    else if tag == [4] then
      var (s, q) :- GetStr32(env, buf, p);
      Got(Str(s), q)
    else Bad(UnknownTag)
  }

  function GetKeys(env: Env, buf: seq<byte>, pos: nat, count: nat): Read<seq<Value>>
    decreases count
  {
    if count == 0 then Got([], pos)
    else
      var (v, p) :- GetValue(env, buf, pos);
      var (vs, q) :- GetKeys(env, buf, p, count - 1);
      Got([v] + vs, q)
  }

  function GetPairs(env: Env, buf: seq<byte>, pos: nat, count: nat): Read<seq<Pair>>
    decreases count
  {
    if count == 0 then Got([], pos)
    else
      var (name, p) :- GetStr16(env, buf, pos);
      var (value, q) :- GetStr16(env, buf, p);
      var (rest, e) :- GetPairs(env, buf, q, count - 1);
      Got([(name, value)] + rest, e)
  }

  datatype Prefix = Prefix(ts: u64, epoch: u32, series: Text, id: Text)

  function GetPrefix(env: Env, buf: seq<byte>): Read<Prefix> {
    var (ts, p0) :- GetU64(buf, 0);
    var (epoch, p1) :- GetU32(buf, p0);
    var (series, p2) :- GetStr16(env, buf, p1);
    var (id, p3) :- GetStr16(env, buf, p2);
    Got(Prefix(ts, epoch, series, id), p3)
  }

  /** `decode_payload`: the whole payload under a given key count, nothing left over. */
  function GetRecord(env: Env, buf: seq<byte>, keyCount: nat): Read<Record> {
    var (prefix, p) :- GetPrefix(env, buf);
    var (keys, q) :- GetKeys(env, buf, p, keyCount);
    var (n, q1) :- GetLe(buf, q, 2);
    var (extra, q2) :- GetPairs(env, buf, q1, n);
    var (data, e) :- GetStr32(env, buf, q2);
    if e != |buf| then Bad(TrailingBytes)
    else Got(Record(prefix.series, prefix.epoch, Row(prefix.ts, prefix.id, keys, extra, data)), e)
  }

  // ---- each reader accepts exactly what its printer writes ------------------

  lemma TakeCodes(buf: seq<byte>, pos: nat, n: nat, s: seq<byte>, end: nat)
    ensures Take(buf, pos, n) == Got(s, end) <==> |s| == n && At(buf, pos, s) && end == pos + n
  {
  }

  lemma GetLeCodes(buf: seq<byte>, pos: nat, width: nat, n: nat, end: nat)
    ensures GetLe(buf, pos, width) == Got(n, end)
       <==> n < Limit(width) && At(buf, pos, Le(n, width)) && end == pos + width
  {
    hide Le, FromLe;
    if pos + width <= |buf| {
      var s := buf[pos..pos + width];
      LeOfFromLe(s);
      if n < Limit(width) { LeCodes(s, n); }
    }
  }

  lemma GetTextCodes(env: Env, buf: seq<byte>, pos: nat, n: nat, s: Text, end: nat)
    ensures GetText(env, buf, pos, n) == Got(s, end)
       <==> |s| == n && env.utf8(s) && At(buf, pos, s) && end == pos + n
  {
    TakeCodes(buf, pos, n, s, end);
  }

  lemma GetStr16Codes(env: Env, buf: seq<byte>, pos: nat, s: Text, end: nat)
    ensures GetStr16(env, buf, pos) == Got(s, end)
       <==> Text16(env, s) && At(buf, pos, PutStr16(s)) && end == pos + 2 + |s|
  {
    hide Le, GetLe, GetText, At;
    Limits();
    GetLeCodes(buf, pos, 2, |s|, pos + 2);
    AtConcat(buf, pos, Le(|s|, 2), s);
    GetTextCodes(env, buf, pos + 2, |s|, s, end);
    if GetStr16(env, buf, pos) == Got(s, end) {
      var r := GetLe(buf, pos, 2);
      GetLeCodes(buf, pos, 2, r.value, r.pos);
      GetTextCodes(env, buf, r.pos, r.value, s, end);
    }
  }

  lemma GetStr32Codes(env: Env, buf: seq<byte>, pos: nat, s: Text, end: nat)
    ensures GetStr32(env, buf, pos) == Got(s, end)
       <==> Text32(env, s) && At(buf, pos, PutStr32(s)) && end == pos + 4 + |s|
  {
    hide Le, GetLe, GetText, At;
    Limits();
    GetLeCodes(buf, pos, 4, |s|, pos + 4);
    AtConcat(buf, pos, Le(|s|, 4), s);
    GetTextCodes(env, buf, pos + 4, |s|, s, end);
    if GetStr32(env, buf, pos) == Got(s, end) {
      var r := GetLe(buf, pos, 4);
      GetLeCodes(buf, pos, 4, r.value, r.pos);
      GetTextCodes(env, buf, r.pos, r.value, s, end);
    }
  }

  lemma GetU32Codes(buf: seq<byte>, pos: nat, n: u32, end: nat)
    ensures GetU32(buf, pos) == Got(n, end) <==> At(buf, pos, Le(n, 4)) && end == pos + 4
  {
    Limits();
    GetLeCodes(buf, pos, 4, n, end);
  }

  lemma GetU64Codes(buf: seq<byte>, pos: nat, n: u64, end: nat)
    ensures GetU64(buf, pos) == Got(n, end) <==> At(buf, pos, Le(n, 8)) && end == pos + 8
  {
    Limits();
    GetLeCodes(buf, pos, 8, n, end);
  }

  lemma I64RoundTrip(i: i64, n: u64)
    ensures I64FromBits(n) == i <==> n == I64Bits(i)
  {
  }

  lemma GetValueCodes(env: Env, buf: seq<byte>, pos: nat, v: Value, end: nat)
    ensures GetValue(env, buf, pos) == Got(v, end)
       <==> ValueFits(env, v) && At(buf, pos, PutValue(v)) && end == pos + |PutValue(v)|
  {
    hide Le, FromLe, GetU64, GetStr32, PutStr32, I64Bits, I64FromBits;
    match v
    case Null =>
    case Bool(b) => AtConcat(buf, pos, [1], [if b then 1 else 0]);
    case I64(i) => GetI64Codes(env, buf, pos, i, end);
    case F64(bits) =>
      AtConcat(buf, pos, [3], Le(bits, 8));
      GetU64Codes(buf, pos + 1, bits, end);
    case Str(s) => GetStrCodes(env, buf, pos, s, end);
  }

  lemma GetI64Codes(env: Env, buf: seq<byte>, pos: nat, i: i64, end: nat)
    ensures GetValue(env, buf, pos) == Got(I64(i), end)
       <==> At(buf, pos, PutValue(I64(i))) && end == pos + 9
  {
    hide Le, FromLe, GetU64, GetStr32, PutStr32, I64Bits, I64FromBits;
    AtConcat(buf, pos, [2], Le(I64Bits(i), 8));
    GetU64Codes(buf, pos + 1, I64Bits(i), end);
    I64RoundTrip(i, I64Bits(i));
    if GetU64(buf, pos + 1).Got? { I64RoundTrip(i, GetU64(buf, pos + 1).value); }
  }

  lemma GetStrCodes(env: Env, buf: seq<byte>, pos: nat, s: Text, end: nat)
    ensures GetValue(env, buf, pos) == Got(Str(s), end)
       <==> Text32(env, s) && At(buf, pos, PutValue(Str(s))) && end == pos + 5 + |s|
    ensures |PutValue(Str(s))| == 5 + |s|
  {
    hide Le, FromLe, GetU64, GetStr32, PutStr32, Text32;
    AtConcat(buf, pos, [4], PutStr32(s));
    GetStr32Codes(env, buf, pos + 1, s, end);
    PutStr32Length(s);
  }

  lemma PutStr32Length(s: Text)
    ensures |PutStr32(s)| == 4 + |s|
  {
  }

  lemma {:induction false} GetKeysCodes(env: Env, buf: seq<byte>, pos: nat, count: nat, keys: seq<Value>, end: nat)
    requires pos <= |buf|
    ensures GetKeys(env, buf, pos, count) == Got(keys, end)
       <==> |keys| == count && KeysFit(env, keys) && At(buf, pos, PutKeys(keys)) && end == pos + |PutKeys(keys)|
    decreases count
  {
    hide GetValue, PutValue, ValueFits;
    if count > 0 && keys != [] {
      var v, rest := keys[0], keys[1..];
      assert keys == [v] + rest;
      var p := pos + |PutValue(v)|;
      GetValueCodes(env, buf, pos, v, p);
      AtConcat(buf, pos, PutValue(v), PutKeys(rest));
      if GetValue(env, buf, pos).Got? {
        GetValueCodes(env, buf, pos, GetValue(env, buf, pos).value, GetValue(env, buf, pos).pos);
      }
      if At(buf, pos, PutValue(v)) { GetKeysCodes(env, buf, p, count - 1, rest, end); }
    }
  }

  lemma {:induction false} GetPairsCodes(env: Env, buf: seq<byte>, pos: nat, count: nat, pairs: seq<Pair>, end: nat)
    requires pos <= |buf|
    ensures GetPairs(env, buf, pos, count) == Got(pairs, end)
       <==> |pairs| == count && PairsFit(env, pairs) && At(buf, pos, PutPairs(pairs)) && end == pos + |PutPairs(pairs)|
    decreases count
  {
    hide GetStr16, PutStr16, Text16;
    if count > 0 && pairs != [] {
      var name, value, rest := pairs[0].0, pairs[0].1, pairs[1..];
      assert pairs == [(name, value)] + rest;
      var p := pos + |PutStr16(name)|;
      var q := p + |PutStr16(value)|;
      GetStr16At(env, buf, pos, name);
      AtConcat(buf, pos, PutStr16(name) + PutStr16(value), PutPairs(rest));
      AtConcat(buf, pos, PutStr16(name), PutStr16(value));
      GetStr16At(env, buf, p, value);
      if At(buf, p, PutStr16(value)) { GetPairsCodes(env, buf, q, count - 1, rest, end); }
    }
  }

  /** `GetStr16Codes` with the end position written as a length. */
  lemma GetStr16At(env: Env, buf: seq<byte>, pos: nat, s: Text)
    ensures GetStr16(env, buf, pos) == Got(s, pos + |PutStr16(s)|) <==> Text16(env, s) && At(buf, pos, PutStr16(s))
    ensures GetStr16(env, buf, pos).Got? && GetStr16(env, buf, pos).value == s
        ==> GetStr16(env, buf, pos).pos == pos + |PutStr16(s)|
  {
    hide GetStr16, Text16;
    GetStr16Codes(env, buf, pos, s, pos + |PutStr16(s)|);
    if GetStr16(env, buf, pos).Got? { GetStr16Codes(env, buf, pos, s, GetStr16(env, buf, pos).pos); }
  }

  function PrefixOf(r: Record): Prefix { Prefix(r.row.ts, r.epoch, r.series, r.row.id) }

  lemma GetPrefixCodes(env: Env, buf: seq<byte>, r: Record, end: nat)
    ensures GetPrefix(env, buf) == Got(PrefixOf(r), end)
       <==> Text16(env, r.series) && Text16(env, r.row.id) && At(buf, 0, PutPrefix(r)) && end == |PutPrefix(r)|
  {
    hide GetU64, GetU32, GetStr16, PutStr16, Text16, At, Le;
    var ts, epoch, series, id := r.row.ts, r.epoch, r.series, r.row.id;
    GetU64Codes(buf, 0, ts, 8);
    GetU32Codes(buf, 8, epoch, 12);
    var p := 12 + |PutStr16(series)|;
    GetStr16At(env, buf, 12, series);
    GetStr16At(env, buf, p, id);
    AtConcat(buf, 0, Le(ts, 8), Le(epoch, 4));
    AtConcat(buf, 0, Le(ts, 8) + Le(epoch, 4), PutStr16(series));
    AtConcat(buf, 0, Le(ts, 8) + Le(epoch, 4) + PutStr16(series), PutStr16(id));
    if GetPrefix(env, buf) == Got(PrefixOf(r), end) {
      GetU64Codes(buf, 0, ts, GetU64(buf, 0).pos);
      GetU32Codes(buf, 8, epoch, GetU32(buf, 8).pos);
    }
  }

  /** The five sections of a payload stand one after the other. */
  predicate SectionsAt(buf: seq<byte>, r: Record) {
    var p := |PutPrefix(r)| + |PutKeys(r.row.keys)|;
    At(buf, 0, PutPrefix(r)) && At(buf, |PutPrefix(r)|, PutKeys(r.row.keys))
    && At(buf, p, Le(|r.row.extra|, 2)) && At(buf, p + 2, PutPairs(r.row.extra))
    && At(buf, p + 2 + |PutPairs(r.row.extra)|, PutStr32(r.row.data))
  }

  lemma PayloadAt(buf: seq<byte>, r: Record)
    ensures At(buf, 0, PutPayload(r)) <==> SectionsAt(buf, r)
  {
    hide PutPrefix, PutKeys, PutPairs, PutStr32, Le, At;
    var a, b, n, c, d := PutPrefix(r), PutKeys(r.row.keys), Le(|r.row.extra|, 2), PutPairs(r.row.extra),
      PutStr32(r.row.data);
    AtConcat(buf, 0, a, b);
    AtConcat(buf, |a| + |b|, n, c);
    AtConcat(buf, 0, a + b, n + c);
    AtConcat(buf, 0, a + b + (n + c), d);
  }

  lemma PayloadLength(r: Record)
    ensures |PutPayload(r)| == |PutPrefix(r)| + |PutKeys(r.row.keys)| + 2 + |PutPairs(r.row.extra)| + 4 + |r.row.data|
    ensures |PutPrefix(r)| == 16 + |r.series| + |r.row.id|
    ensures |PutPayload(r)| >= MIN_PAYLOAD_BYTES
  {
  }

  lemma PayloadParses(env: Env, r: Record)
    requires FieldsFit(env, r)
    ensures GetRecord(env, PutPayload(r), |r.row.keys|) == Got(r, |PutPayload(r)|)
  {
    hide GetPrefix, PutPrefix, GetKeys, PutKeys, KeysFit, GetPairs, PutPairs, PairsFit, GetStr32, PutStr32, Text32,
      Text16, GetLe, Le, PutPayload;
    Limits();
    var buf := PutPayload(r);
    var p := |PutPrefix(r)| + |PutKeys(r.row.keys)|;
    var q := p + 2 + |PutPairs(r.row.extra)|;
    PayloadAt(buf, r);
    PayloadLength(r);
    GetPrefixCodes(env, buf, r, |PutPrefix(r)|);
    GetKeysCodes(env, buf, |PutPrefix(r)|, |r.row.keys|, r.row.keys, p);
    GetLeCodes(buf, p, 2, |r.row.extra|, p + 2);
    GetPairsCodes(env, buf, p + 2, |r.row.extra|, r.row.extra, q);
    GetStr32Codes(env, buf, q, r.row.data, |buf|);
  }

  lemma PayloadPrints(env: Env, buf: seq<byte>, keyCount: nat, r: Record, end: nat)
    requires GetRecord(env, buf, keyCount) == Got(r, end)
    ensures end == |buf| && FieldsFit(env, r) && |r.row.keys| == keyCount && buf == PutPayload(r)
  {
    hide GetPrefix, PutPrefix, GetKeys, PutKeys, KeysFit, GetPairs, PutPairs, PairsFit, GetStr32, PutStr32, Text32,
      Text16, GetLe, Le, PutPayload;
    Limits();
    var prefix := GetPrefix(env, buf);
    GetPrefixCodes(env, buf, r, prefix.pos);
    var keys := GetKeys(env, buf, prefix.pos, keyCount);
    GetKeysCodes(env, buf, prefix.pos, keyCount, r.row.keys, keys.pos);
    var n := GetLe(buf, keys.pos, 2);
    GetLeCodes(buf, keys.pos, 2, n.value, n.pos);
    var pairs := GetPairs(env, buf, n.pos, n.value);
    GetPairsCodes(env, buf, n.pos, n.value, r.row.extra, pairs.pos);
    GetStr32Codes(env, buf, pairs.pos, r.row.data, end);
    PayloadAt(buf, r);
    PayloadLength(r);
    assert buf == PutPayload(r);
  }

  /** The parser accepts exactly the payloads the printer writes, under the right key count. */
  lemma GetRecordCodes(env: Env, buf: seq<byte>, keyCount: nat, r: Record, end: nat)
    ensures GetRecord(env, buf, keyCount) == Got(r, end)
       <==> FieldsFit(env, r) && |r.row.keys| == keyCount && buf == PutPayload(r) && end == |buf|
  {
    hide GetRecord, FieldsFit, PutPayload;
    if GetRecord(env, buf, keyCount) == Got(r, end) { PayloadPrints(env, buf, keyCount, r, end); }
    if FieldsFit(env, r) { PayloadParses(env, r); }
  }

  // ---- frames ---------------------------------------------------------------

  /** `frame_extent`: the length checks; the frame's total size. */
  function FrameExtent(buf: seq<byte>, maxRecord: nat): Result<nat> {
    if |buf| < FRAME_HEADER_BYTES then Err(Truncated(FRAME_HEADER_BYTES, |buf|))
    else
      var len := FromLe(buf[..4]);
      if len < MIN_PAYLOAD_BYTES then Err(Corrupt(LengthTooSmall))
      else if len > maxRecord then Err(Corrupt(LengthOverMax))
      else if |buf| < FRAME_HEADER_BYTES + len then Err(Truncated(FRAME_HEADER_BYTES + len, |buf|))
      else Ok(FRAME_HEADER_BYTES + len)
  }

  /** `frame_payload`: the length checks, then the CRC over `len` and payload. */
  function FramePayload(env: Env, buf: seq<byte>, maxRecord: nat): Result<nat> {
    var n :- FrameExtent(buf, maxRecord);
    if env.crc(buf[..4] + buf[8..n]) == FromLe(buf[4..8]) then Ok(n) else Err(Corrupt(CrcMismatch))
  }

  function Lift<T>(r: Read<T>): Result<T> {
    match r
    case Got(v, _) => Ok(v)
    case Bad(reason) => Err(Corrupt(reason))
  }

  /** `validate_prefix`: checked length and CRC, then only the fixed prefix. */
  function ValidatePrefix(env: Env, buf: seq<byte>, maxRecord: nat): Result<(Prefix, nat)> {
    var n :- FramePayload(env, buf, maxRecord);
    var prefix :- Lift(GetPrefix(env, buf[8..n]));
    Ok((prefix, n))
  }

  /** `decode`: checked length and CRC, then the whole payload. */
  function Decode(env: Env, buf: seq<byte>, keyCount: nat, maxRecord: nat): Result<(Record, nat)> {
    var n :- FramePayload(env, buf, maxRecord);
    var r :- Lift(GetRecord(env, buf[8..n], keyCount));
    Ok((r, n))
  }

  /** `decode_verified`: `decode` without the CRC. */
  function DecodeVerified(env: Env, buf: seq<byte>, keyCount: nat): Result<(Record, nat)> {
    var n :- FrameExtent(buf, USIZE_MAX);
    var r :- Lift(GetRecord(env, buf[8..n], keyCount));
    Ok((r, n))
  }

  /** `verified_sort_key`: `(ts, raw id, frame length)` with neither CRC nor UTF-8 checks. */
  function VerifiedSortKey(buf: seq<byte>): Result<(u64, Text, nat)> {
    var n :- FrameExtent(buf, USIZE_MAX);
    var key :- Lift(GetSortKey(buf[8..n]));
    Ok((key.0, key.1, n))
  }

  function GetSortKey(buf: seq<byte>): Read<(u64, Text)> {
    var (ts, p0) :- GetU64(buf, 0);
    var (_, p1) :- GetU32(buf, p0);
    var (seriesLen, p2) :- GetLe(buf, p1, 2);
    var (_, p3) :- Take(buf, p2, seriesLen);
    var (idLen, p4) :- GetLe(buf, p3, 2);
    var (id, p5) :- Take(buf, p4, idLen);
    Got((ts, id), p5)
  }

  /** A frame stands at the front of `buf` exactly when length and CRC checks find it there. */
  lemma FrameCodes(env: Env, buf: seq<byte>, maxRecord: nat, payload: seq<byte>)
    requires MIN_PAYLOAD_BYTES <= |payload| < U32_END
    ensures FramePayload(env, buf, maxRecord) == Ok(8 + |payload|) && buf[8..8 + |payload|] == payload
       <==> |payload| <= maxRecord && At(buf, 0, PutFrame(env, payload))
  {
    hide Le, FromLe;
    Limits();
    var len := Le(|payload|, 4);
    var crc := Le(env.crc(len + payload), 4);
    AtConcat(buf, 0, len, crc);
    AtConcat(buf, 0, len + crc, payload);
    if |buf| >= 8 {
      LeCodes(buf[..4], |payload|);
      LeCodes(buf[4..8], env.crc(len + payload));
      assert buf[..4] == buf[0..4];
    }
  }

  lemma FramePayloadFits(env: Env, buf: seq<byte>, maxRecord: nat)
    requires FramePayload(env, buf, maxRecord).Ok?
    ensures var n := FramePayload(env, buf, maxRecord).value;
            30 <= n <= |buf| && MIN_PAYLOAD_BYTES <= n - 8 < U32_END && n - 8 <= maxRecord
  {
    hide FromLe;
    Limits();
    LeOfFromLe(buf[..4]);
  }

  /** Where each field of a record lies in its frame, numbers least significant byte first. */
  lemma FieldsInFrame(env: Env, r: Record)
    ensures var f, s, id := PutFrame(env, PutPayload(r)), |r.series|, |r.row.id|;
            var keys := |PutKeys(r.row.keys)|;
            && At(f, 0, Le(|f| - 8, 4)) && At(f, 4, Le(env.crc(f[..4] + f[8..]), 4))
            && At(f, 8, Le(r.row.ts, 8)) && At(f, 16, Le(r.epoch, 4)) && At(f, 20, Le(s, 2)) && At(f, 22, r.series)
            && At(f, 22 + s, Le(id, 2)) && At(f, 24 + s, r.row.id) && At(f, 24 + s + id, PutKeys(r.row.keys))
            && At(f, 24 + s + id + keys, Le(|r.row.extra|, 2)) && At(f, 26 + s + id + keys, PutPairs(r.row.extra))
            && |f| >= |r.row.data| + 4 && At(f, |f| - |r.row.data|, r.row.data)
            && At(f, |f| - |r.row.data| - 4, Le(|r.row.data|, 4))
  {
    hide Le, PutKeys, PutPairs, PutPrefix, At;
    var p := PutPayload(r);
    var f := PutFrame(env, p);
    var len, crc := Le(|p|, 4), Le(env.crc(Le(|p|, 4) + p), 4);
    assert f[..4] == len && f[8..] == p;
    WholeAt(f);
    AtConcat(f, 0, len + crc, p);
    AtConcat(f, 0, len, crc);
    var prefix, keys, extra, data := PutPrefix(r), PutKeys(r.row.keys), PutPairs(r.row.extra), PutStr32(r.row.data);
    var count := Le(|r.row.extra|, 2);
    AtConcat(f, 8, prefix + keys + (count + extra), data);
    AtConcat(f, 8, prefix + keys, count + extra);
    AtConcat(f, 8, prefix, keys);
    PrefixFields(f, 8, r);
    AtConcat(f, 8 + |prefix| + |keys|, count, extra);
    AtConcat(f, |f| - |data|, Le(|r.row.data|, 4), r.row.data);
  }

  lemma WholeAt(f: seq<byte>)
    ensures At(f, 0, f)
  {
  }

  lemma PrefixFields(f: seq<byte>, at: nat, r: Record)
    requires At(f, at, PutPrefix(r))
    ensures var s, id := |r.series|, |r.row.id|;
            && |PutPrefix(r)| == 16 + s + id
            && At(f, at, Le(r.row.ts, 8)) && At(f, at + 8, Le(r.epoch, 4)) && At(f, at + 12, Le(s, 2))
            && At(f, at + 14, r.series) && At(f, at + 14 + s, Le(id, 2)) && At(f, at + 16 + s, r.row.id)
  {
    hide Le, At;
    var ts, epoch, series, id := Le(r.row.ts, 8), Le(r.epoch, 4), PutStr16(r.series), PutStr16(r.row.id);
    AtConcat(f, at, ts + epoch + series, id);
    AtConcat(f, at, ts + epoch, series);
    AtConcat(f, at, ts, epoch);
    AtConcat(f, at + 12, Le(|r.series|, 2), r.series);
    AtConcat(f, at + 14 + |r.series|, Le(|r.row.id|, 2), r.row.id);
  }

  /** Decoding accepts exactly the frames the layout defines, and recovers the record. */
  lemma DecodeCodes(env: Env, buf: seq<byte>, keyCount: nat, maxRecord: nat, r: Record, n: nat)
    ensures Decode(env, buf, keyCount, maxRecord) == Ok((r, n))
       <==> Fits(env, r) && |r.row.keys| == keyCount && |PutPayload(r)| <= maxRecord
            && n == 8 + |PutPayload(r)| && At(buf, 0, PutFrame(env, PutPayload(r)))
  {
    hide PutPayload, FieldsFit, GetRecord, FramePayload, PutFrame, At;
    var payload := PutPayload(r);
    PayloadLength(r);
    if |payload| < U32_END { FrameCodes(env, buf, maxRecord, payload); }
    if FramePayload(env, buf, maxRecord).Ok? {
      FramePayloadFits(env, buf, maxRecord);
      var m := FramePayload(env, buf, maxRecord).value;
      var got := GetRecord(env, buf[8..m], keyCount);
      if got.Got? { GetRecordCodes(env, buf[8..m], keyCount, r, got.pos); }
      GetRecordCodes(env, buf[8..m], keyCount, r, m - 8);
    }
  }

  // ---- consequences -----------------------------------------------------------

  /** Decoding an encoded row returns it with `extra` canonicalised, whatever follows it. */
  lemma RoundTrip(env: Env, r: Record, rest: seq<byte>, maxRecord: nat)
    requires Fits(env, Canonical(r)) && |PutPayload(Canonical(r))| <= maxRecord
    ensures Decode(env, EncodeRecord(env, r) + rest, |r.row.keys|, maxRecord)
         == Ok((Canonical(r), |EncodeRecord(env, r)|))
  {
    hide PutPayload, FieldsFit, Decode, Canonicalise;
    var payload := PutPayload(Canonical(r));
    var buf := EncodeRecord(env, r) + rest;
    assert |EncodeRecord(env, r)| == 8 + |payload|;
    assert buf[..8 + |payload|] == EncodeRecord(env, r);
    DecodeCodes(env, buf, |r.row.keys|, maxRecord, Canonical(r), 8 + |payload|);
  }

  /** Re-encoding a decoded record reproduces its bytes exactly when its `extra` was canonical. */
  lemma ReencodeIsIdentical(env: Env, buf: seq<byte>, keyCount: nat, maxRecord: nat, r: Record, n: nat)
    requires Decode(env, buf, keyCount, maxRecord) == Ok((r, n))
    ensures n <= |buf|
    ensures EncodeRecord(env, r) == buf[..n] <==> IsCanonical(r.row.extra)
  {
    hide PutPayload, FieldsFit, Decode, Canonicalise, IsCanonical, PutFrame;
    DecodeCodes(env, buf, keyCount, maxRecord, r, n);
    CanonicaliseFixpoint(r.row.extra);
    PutFrameInjective(env, PutPayload(r), PutPayload(Canonical(r)));
    assert buf[..n] == buf[0..n];
    if EncodeRecord(env, r) == buf[..n] {
      GetRecordCodes(env, PutPayload(r), |r.row.keys|, r, |PutPayload(r)|);
      CanonicalFieldsFit(env, r);
      GetRecordCodes(env, PutPayload(r), |r.row.keys|, Canonical(r), |PutPayload(r)|);
    }
  }

  lemma PutFrameInjective(env: Env, a: seq<byte>, b: seq<byte>)
    ensures |PutFrame(env, a)| == 8 + |a|
    ensures PutFrame(env, a) == PutFrame(env, b) <==> a == b
  {
    assert PutFrame(env, a)[8..] == a;
    assert PutFrame(env, b)[8..] == b;
  }

  lemma CanonicalFieldsFit(env: Env, r: Record)
    requires FieldsFit(env, r)
    ensures FieldsFit(env, Canonical(r))
  {
    hide Text16, Text32, KeysFit, Canonicalise, Kept, IsCanonical;
    CanonicaliseMeaning(r.row.extra);
    CanonicaliseShrinks(r.row.extra);
    var c := Canonicalise(r.row.extra);
    forall i | 0 <= i < |c| ensures PairFits(env, c[i]) {
      KeptIsPresent(r.row.extra, c[i]);
    }
  }

  lemma KeptIsPresent(extra: seq<Pair>, p: Pair)
    requires Kept(extra, p)
    ensures p in extra
  {
  }

  lemma {:induction false} CanonicaliseShrinks(extra: seq<Pair>)
    ensures |Canonicalise(extra)| <= |extra|
  {
    if extra != [] {
      CanonicaliseShrinks(extra[1..]);
      InsertLength(Canonicalise(extra[1..]), extra[0]);
    }
  }

  lemma {:induction false} InsertLength(c: seq<Pair>, p: Pair)
    ensures |Insert(c, p)| <= |c| + 1
  {
    if c != [] { InsertLength(c[1..], p); }
  }

  /** Encoding does not depend on the order `extra` was supplied in. */
  lemma EncodingIgnoresExtraOrder(env: Env, a: Record, b: Record)
    requires a.(row := a.row.(extra := [])) == b.(row := b.row.(extra := []))
    requires multiset(a.row.extra) == multiset(b.row.extra)
    ensures EncodeRecord(env, a) == EncodeRecord(env, b)
  {
    forall p: Pair ensures p in a.row.extra <==> p in b.row.extra {
      assert p in multiset(a.row.extra) <==> p in multiset(b.row.extra);
    }
    CanonicalisePermutation(a.row.extra, b.row.extra);
  }

  /** On a frame that decodes, the four readers agree. */
  lemma ReadersAgree(env: Env, buf: seq<byte>, keyCount: nat, maxRecord: nat, r: Record, n: nat)
    requires Decode(env, buf, keyCount, maxRecord) == Ok((r, n))
    ensures ValidatePrefix(env, buf, maxRecord) == Ok((PrefixOf(r), n))
    ensures DecodeVerified(env, buf, keyCount) == Ok((r, n))
    ensures VerifiedSortKey(buf) == Ok((r.row.ts, r.row.id, n))
  {
    hide GetKeys, GetPairs, GetStr32, FromLe, GetSortKey, GetPrefix;
    FramePayloadFits(env, buf, maxRecord);
    SortKeyOfPrefix(env, buf[8..n]);
  }

  lemma SortKeyOfPrefix(env: Env, buf: seq<byte>)
    requires GetPrefix(env, buf).Got?
    ensures GetSortKey(buf).Got?
    ensures GetSortKey(buf).value == (GetPrefix(env, buf).value.ts, GetPrefix(env, buf).value.id)
  {
  }

  /** An intact prefix fixes the sort key and the extent without rechecking the CRC. */
  lemma SortKeyAgrees(env: Env, buf: seq<byte>, maxRecord: nat)
    requires ValidatePrefix(env, buf, maxRecord).Ok?
    ensures var (p, n) := ValidatePrefix(env, buf, maxRecord).value;
            VerifiedSortKey(buf) == Ok((p.ts, p.id, n))
  {
    hide GetPrefix, GetSortKey, FromLe;
    FramePayloadFits(env, buf, maxRecord);
    SortKeyOfPrefix(env, buf[8..FramePayload(env, buf, maxRecord).value]);
  }

  /** A frame's verdict depends only on its own bytes, under any length cap that admits it. */
  lemma FrameIsLocal(env: Env, a: seq<byte>, maxA: nat, b: seq<byte>, maxB: nat)
    requires FramePayload(env, a, maxA).Ok?
    requires var n := FramePayload(env, a, maxA).value; n <= |b| && a[..n] == b[..n] && n - 8 <= maxB
    ensures FramePayload(env, b, maxB) == FramePayload(env, a, maxA)
    ensures ValidatePrefix(env, b, maxB) == ValidatePrefix(env, a, maxA)
    ensures forall k: nat :: Decode(env, b, k, maxB) == Decode(env, a, k, maxA)
  {
    hide FromLe, GetPrefix, GetRecord;
    var n := FramePayload(env, a, maxA).value;
    assert a[..4] == a[..n][..4] && b[..4] == b[..n][..4];
    assert a[4..8] == a[..n][4..8] && b[4..8] == b[..n][4..8];
    assert a[8..n] == a[..n][8..n] && b[8..n] == b[..n][8..n];
  }

  /** The bytes end inside a frame: inside its header, or inside the extent a plausible length declares. */
  predicate EndsInside(buf: seq<byte>, maxRecord: nat) {
    || |buf| < 8
    || (22 <= FromLe(buf[..4]) <= maxRecord && |buf| < 8 + FromLe(buf[..4]))
  }

  /** Truncated exactly then, for both readers; every other fault is corruption. */
  lemma TruncatedExactly(env: Env, buf: seq<byte>, keyCount: nat, maxRecord: nat)
    ensures ValidatePrefix(env, buf, maxRecord).Err? && ValidatePrefix(env, buf, maxRecord).error.Truncated? <==>
            EndsInside(buf, maxRecord)
    ensures Decode(env, buf, keyCount, maxRecord).Err? && Decode(env, buf, keyCount, maxRecord).error.Truncated? <==>
            EndsInside(buf, maxRecord)
  {
    hide FromLe, GetPrefix, GetRecord;
  }

  /** How much is needed of a truncated frame, and each fault of a whole one: its length, or its checksum. */
  lemma FrameFaults(env: Env, buf: seq<byte>, maxRecord: nat)
    ensures EndsInside(buf, maxRecord) ==>
              FramePayload(env, buf, maxRecord) ==
                Err(Truncated(if |buf| < 8 then 8 else 8 + FromLe(buf[..4]), |buf|))
    ensures FramePayload(env, buf, maxRecord) == Err(Corrupt(LengthTooSmall)) <==> |buf| >= 8 && FromLe(buf[..4]) < 22
    ensures FramePayload(env, buf, maxRecord) == Err(Corrupt(LengthOverMax)) <==>
            |buf| >= 8 && FromLe(buf[..4]) >= 22 && FromLe(buf[..4]) > maxRecord
    ensures FramePayload(env, buf, maxRecord) == Err(Corrupt(CrcMismatch)) <==>
            && |buf| >= 8 && 22 <= FromLe(buf[..4]) <= maxRecord && 8 + FromLe(buf[..4]) <= |buf|
            && env.crc(buf[..4] + buf[8..8 + FromLe(buf[..4])]) != FromLe(buf[4..8])
  {
    hide FromLe;
  }

  /** A frame cut short is truncated, never corrupt, as long as the cap admits the whole frame. */
  lemma CutFrameIsTruncated(env: Env, f: seq<byte>, maxRecord: nat, cut: nat)
    requires FramePayload(env, f, maxRecord).Ok? && cut < FramePayload(env, f, maxRecord).value
    ensures ValidatePrefix(env, f[..cut], maxRecord).Err?
    ensures ValidatePrefix(env, f[..cut], maxRecord).error.Truncated?
  {
    hide FromLe, GetPrefix;
    if cut >= 8 { assert f[..cut][..4] == f[..4]; }
  }
}
