/**
 * File names the engine writes and recognises: WAL segments (src/wal/mod.rs)
 * and flush output (src/flush/parquet.rs). Directory listings are trusted only
 * through these parsers, so each recognised name must have one spelling.
 */
module Names {
  import opened Decimal

  const SEGMENT_ID_DIGITS: nat := 10
  const U64_MAX: nat := 0xffff_ffff_ffff_ffff
  const U32_MAX: nat := 0xffff_ffff

  function SegmentName(id: nat): string { Pad(id, SEGMENT_ID_DIGITS) + ".wal" }

  function ParseSegmentName(name: string): Option<nat> {
    match StripSuffix(name, ".wal")
    case None => None
    case Some(digits) =>
      if !AllDigits(digits) || digits == "" then None
      else if |digits| != SEGMENT_ID_DIGITS && digits[0] == '0' then None
      else if |digits| < SEGMENT_ID_DIGITS then None
      else ParseNumber(digits, U64_MAX)
  }

  /** The spellings accepted for an id are exactly the one written for it. */
  lemma SegmentNameIsCanonical(name: string, id: nat)
    ensures ParseSegmentName(name) == Some(id) <==> id <= U64_MAX && name == SegmentName(id)
  {
    hide Pad, Value;
    StripSuffixOfConcat(Pad(id, SEGMENT_ID_DIGITS), ".wal");
    SurplusZeros(id, SEGMENT_ID_DIGITS);
    if ParseSegmentName(name) == Some(id) {
      var digits := name[..|name| - 4];
      assert name == digits + ".wal";
      PadOfValue(digits, SEGMENT_ID_DIGITS);
    }
  }

  /** Padding never adds a zero beyond the requested width. */
  lemma {:induction false} SurplusZeros(n: nat, width: nat)
    ensures AllDigits(Pad(n, width)) && |Pad(n, width)| >= 1 && |Pad(n, width)| >= width
    ensures Value(Pad(n, width)) == n
    ensures |Pad(n, width)| > width && |Pad(n, width)| > 1 ==> Pad(n, width)[0] != '0'
    decreases n, width
  {
    ValueOfPad(n, width);
    if n >= 10 || width > 1 {
      SurplusZeros(n / 10, if width > 0 then width - 1 else 0);
      if n < 100 && width <= 1 { assert Pad(n / 10, 0) == [DigitChar(n / 10)]; }
    }
  }

  /**
   * Every segment id named in a directory listing, ascending; foreign names are
   * ignored. `names` lists each file once.
   */
  method ListSegments(names: seq<string>) returns (ids: seq<nat>)
    requires forall i, j :: 0 <= i < j < |names| ==> names[i] != names[j]
    ensures forall i, j :: 0 <= i < j < |ids| ==> ids[i] < ids[j]
    ensures forall id: nat :: id in ids <==> id <= U64_MAX && SegmentName(id) in names
  {
    ids := [];
    var n := 0;
    while n < |names|
      invariant 0 <= n <= |names|
      invariant forall i, j :: 0 <= i < j < |ids| ==> ids[i] < ids[j]
      invariant forall id: nat :: id in ids <==> id <= U64_MAX && SegmentName(id) in names[..n]
    {
      var parsed := ParseSegmentName(names[n]);
      assert names[..n + 1] == names[..n] + [names[n]];
      forall id: nat ensures parsed == Some(id) <==> id <= U64_MAX && names[n] == SegmentName(id) {
        SegmentNameIsCanonical(names[n], id);
      }
      if parsed.Some? {
        assert parsed.value !in ids;
        ids := InsertId(ids, parsed.value);
      }
      n := n + 1;
    }
    assert names[..n] == names;
  }

  /** One step of the final sort: place a new id among sorted ones. */
  function InsertId(ids: seq<nat>, id: nat): (r: seq<nat>)
    requires forall i, j :: 0 <= i < j < |ids| ==> ids[i] < ids[j]
    requires id !in ids
    ensures r != [] && r[0] == if ids == [] || id < ids[0] then id else ids[0]
    ensures forall i, j :: 0 <= i < j < |r| ==> r[i] < r[j]
    ensures forall x: nat :: x in r <==> x == id || x in ids
  {
    if ids == [] || id < ids[0] then [id] + ids
    else
      assert ids[0] in ids && ids == [ids[0]] + ids[1..];
      var rest := InsertId(ids[1..], id);
      [ids[0]] + rest
  }

  // ---- flush output --------------------------------------------------------

  function OutputFileName(first: nat, last: nat, epoch: nat): string {
    Range(first, last) + ".e" + Pad(epoch, 0) + ".parquet"
  }

  function Range(first: nat, last: nat): string {
    Pad(first, SEGMENT_ID_DIGITS) + "-" + Pad(last, SEGMENT_ID_DIGITS)
  }

  /** `str::rsplit_once(".e")`. */
  function SplitAtEpoch(s: string): Option<(string, string)>
    decreases |s|
  {
    if |s| < 2 then None
    else if s[|s| - 2..] == ".e" then Some((s[..|s| - 2], ""))
    else match SplitAtEpoch(s[..|s| - 1])
      case None => None
      case Some((a, b)) => Some((a, b + [s[|s| - 1]]))
  }

  function ParseSegmentField(s: string): Option<nat> {
    if s == "" || !AllDigits(s) then None
    else if |s| < SEGMENT_ID_DIGITS || (|s| != SEGMENT_ID_DIGITS && s[0] == '0') then None
    else ParseNumber(s, U64_MAX)
  }

  function ParseOutputFileName(name: string): Option<(nat, nat, nat)> {
    match StripSuffix(name, ".parquet")
    case None => None
    case Some(rest) =>
      match SplitAtEpoch(rest)
      case None => None
      case Some((range, epoch)) =>
        match SplitOnce(range, '-')
        case None => None
        case Some((first, last)) =>
          match (ParseSegmentField(first), ParseSegmentField(last), ParseNumber(epoch, U32_MAX))
          case (Some(f), Some(l), Some(e)) => Some((f, l, e))
          case _ => None
  }

  lemma {:induction false} SplitAtEpochMeaning(s: string)
    ensures match SplitAtEpoch(s)
            case None => true
            case Some((a, b)) => s == a + ".e" + b
  {
    if |s| >= 2 && s[|s| - 2..] != ".e" { SplitAtEpochMeaning(s[..|s| - 1]); }
    else if |s| >= 2 { assert s == s[..|s| - 2] + s[|s| - 2..]; }
  }

  lemma {:induction false} SplitAtEpochOfConcat(a: string, b: string)
    requires AllDigits(b)
    ensures SplitAtEpoch(a + ".e" + b) == Some((a, b))
    decreases |b|
  {
    if b == "" {
      var s := a + ".e" + b;
      assert s[|s| - 2..] == ".e" && s[..|s| - 2] == a;
    } else {
      hide SplitAtEpoch;
      var init, c := b[..|b| - 1], b[|b| - 1];
      SplitAtEpochOfConcat(a, init);
      SplitAtEpochStep(a + ".e" + init, c);
      assert a + ".e" + b == (a + ".e" + init) + [c] && b == init + [c];
    }
  }

  /** A further character other than `e` does not move the split. */
  lemma SplitAtEpochStep(s: string, c: char)
    requires |s| >= 2 && c != 'e' && SplitAtEpoch(s).Some?
    ensures SplitAtEpoch(s + [c]) == Some((SplitAtEpoch(s).value.0, SplitAtEpoch(s).value.1 + [c]))
  {
    var t := s + [c];
    assert t[..|t| - 1] == s && t[|t| - 2..][1] == c;
  }

  lemma SegmentFieldIsCanonical(s: string, id: nat)
    ensures ParseSegmentField(s) == Some(id) <==> id <= U64_MAX && s == Pad(id, SEGMENT_ID_DIGITS)
  {
    hide Pad, Value;
    SurplusZeros(id, SEGMENT_ID_DIGITS);
    if ParseSegmentField(s) == Some(id) { PadOfValue(s, SEGMENT_ID_DIGITS); }
  }

  lemma OutputNameRoundTrip(first: nat, last: nat, epoch: nat)
    requires first <= U64_MAX && last <= U64_MAX && epoch <= U32_MAX
    ensures ParseOutputFileName(OutputFileName(first, last, epoch)) == Some((first, last, epoch))
  {
    hide Pad, Value, ParseSegmentField, SplitOnce, SplitAtEpoch;
    StripSuffixOfConcat(Range(first, last) + ".e" + Pad(epoch, 0), ".parquet");
    ValueOfPad(epoch, 0);
    SplitAtEpochOfConcat(Range(first, last), Pad(epoch, 0));
    ValueOfPad(first, SEGMENT_ID_DIGITS);
    SplitOnceOfConcat(Pad(first, SEGMENT_ID_DIGITS), '-', Pad(last, SEGMENT_ID_DIGITS));
    SegmentFieldIsCanonical(Pad(first, SEGMENT_ID_DIGITS), first);
    SegmentFieldIsCanonical(Pad(last, SEGMENT_ID_DIGITS), last);
  }

  /** Distinct ranges or epochs never share an output name. */
  lemma OutputNamesDistinct(a: (nat, nat, nat), b: (nat, nat, nat))
    requires a.0 <= U64_MAX && a.1 <= U64_MAX && a.2 <= U32_MAX
    requires b.0 <= U64_MAX && b.1 <= U64_MAX && b.2 <= U32_MAX
    ensures OutputFileName(a.0, a.1, a.2) == OutputFileName(b.0, b.1, b.2) <==> a == b
  {
    OutputNameRoundTrip(a.0, a.1, a.2);
    OutputNameRoundTrip(b.0, b.1, b.2);
  }

  /**
   * A recognised name spells its segment range canonically; only the epoch may
   * carry surplus zeros, and without them the name is the one the flush writes.
   */
  lemma RecognisedOutputName(name: string)
    requires ParseOutputFileName(name).Some?
    ensures var (first, last, epoch) := ParseOutputFileName(name).value;
            exists digits :: AllDigits(digits) && digits != "" && Value(digits) == epoch
                          && name == Range(first, last) + ".e" + digits + ".parquet"
                          && (name == OutputFileName(first, last, epoch) <==> |digits| == 1 || digits[0] != '0')
  {
    hide Pad, Value, SplitOnce, SplitAtEpoch, ParseSegmentField;
    var rest := StripSuffix(name, ".parquet").value;
    var (range, digits) := SplitAtEpoch(rest).value;
    var (f, l) := SplitOnce(range, '-').value;
    var (first, last, epoch) := ParseOutputFileName(name).value;
    assert name == rest + ".parquet";
    SplitAtEpochMeaning(rest);
    SplitOnceMeaning(range, '-');
    SegmentFieldIsCanonical(f, first);
    SegmentFieldIsCanonical(l, last);
    assert range == Range(first, last);
    EpochSpelling(range, digits, epoch);
    assert name == Range(first, last) + ".e" + digits + ".parquet";
  }

  lemma EpochSpelling(range: string, digits: string, epoch: nat)
    requires AllDigits(digits) && digits != "" && Value(digits) == epoch
    ensures range + ".e" + digits + ".parquet" == range + ".e" + Pad(epoch, 0) + ".parquet"
       <==> |digits| == 1 || digits[0] != '0'
  {
    hide Pad, Value;
    SurplusZeros(epoch, 0);
    if range + ".e" + digits + ".parquet" == range + ".e" + Pad(epoch, 0) + ".parquet" {
      StripSuffixOfConcat(range + ".e" + digits, ".parquet");
      StripSuffixOfConcat(range + ".e" + Pad(epoch, 0), ".parquet");
      assert (range + ".e" + digits)[|range| + 2..] == digits;
      assert (range + ".e" + Pad(epoch, 0))[|range| + 2..] == Pad(epoch, 0);
    }
    if |digits| == 1 || digits[0] != '0' { PadOfValue(digits, 0); }
  }
}
