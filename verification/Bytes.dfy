/** Bytes, little-endian integers, byte-string order and slices at a position. */
module Bytes {

  type byte = x: int | 0 <= x < 256
  type u32 = x: int | 0 <= x < 0x1_0000_0000
  type u64 = x: int | 0 <= x < 0x1_0000_0000_0000_0000
  type i64 = x: int | -0x8000_0000_0000_0000 <= x < 0x8000_0000_0000_0000

  /** A Rust `str` is its UTF-8 bytes. */
  type Text = seq<byte>

  const U16_END: nat := 0x1_0000
  const U32_END: nat := 0x1_0000_0000
  const U64_END: nat := 0x1_0000_0000_0000_0000

  // ---- little-endian integers ---------------------------------------------

  function Le(n: nat, width: nat): (s: seq<byte>)
    ensures |s| == width
  {
    if width == 0 then [] else [n % 256] + Le(n / 256, width - 1)
  }

  function FromLe(s: seq<byte>): nat {
    if s == [] then 0 else s[0] + 256 * FromLe(s[1..])
  }

  function Limit(width: nat): (p: nat)
    ensures p >= 1
  {
    if width == 0 then 1 else 256 * Limit(width - 1)
  }

  lemma Limits()
    ensures Limit(2) == U16_END && Limit(4) == U32_END && Limit(8) == U64_END
  {
    assert Limit(3) == 0x100_0000;
    assert Limit(5) == 0x100_0000_0000;
    assert Limit(6) == 0x1_0000_0000_0000;
    assert Limit(7) == 0x100_0000_0000_0000;
  }

  lemma {:induction false} FromLeOfLe(n: nat, width: nat)
    requires n < Limit(width)
    ensures FromLe(Le(n, width)) == n
  {
    if width > 0 {
      FromLeOfLe(n / 256, width - 1);
      assert Le(n, width)[1..] == Le(n / 256, width - 1);
    }
  }

  lemma {:induction false} LeOfFromLe(s: seq<byte>)
    ensures FromLe(s) < Limit(|s|) && Le(FromLe(s), |s|) == s
  {
    if s != [] {
      LeOfFromLe(s[1..]);
      assert FromLe(s) / 256 == FromLe(s[1..]) && FromLe(s) % 256 == s[0];
    }
  }

  /** Least significant byte first: a later byte weighs 256 times the one before. */
  lemma {:induction false} FromLeWeighs(a: seq<byte>, b: seq<byte>)
    ensures FromLe(a + b) == FromLe(a) + Limit(|a|) * FromLe(b)
  {
    if a == [] {
      assert a + b == b;
    } else {
      FromLeWeighs(a[1..], b);
      assert (a + b)[1..] == a[1..] + b && |a[1..]| == |a| - 1;
      Regroup(Limit(|a| - 1), FromLe(b));
    }
  }

  lemma Regroup(l: nat, f: nat)
    ensures 256 * (l * f) == (256 * l) * f
  {
  }

  /** Reading a field and printing it are inverse, for every width in use. */
  lemma LeCodes(s: seq<byte>, n: nat)
    requires n < Limit(|s|)
    ensures FromLe(s) == n <==> s == Le(n, |s|)
  {
    FromLeOfLe(n, |s|);
    LeOfFromLe(s);
  }

  /** Two's complement. */
  function I64Bits(i: i64): u64 { if i < 0 then i + U64_END else i }

  function I64FromBits(n: u64): i64 { if n < 0x8000_0000_0000_0000 then n else n - U64_END }

  /** The bits of an integer are congruent to it, and read back as it. */
  lemma I64BitsMeans(i: i64)
    ensures (I64Bits(i) - i) % U64_END == 0 && I64FromBits(I64Bits(i)) == i
  {
  }

  // ---- order --------------------------------------------------------------

  /** Byte order, which is `str` order. */
  predicate Less(a: Text, b: Text) {
    b != [] && (a == [] || a[0] < b[0] || (a[0] == b[0] && Less(a[1..], b[1..])))
  }

  /** `b` continues `a`, or is greater at the first byte where they differ. */
  ghost predicate Precedes(a: Text, b: Text) {
    || (|a| < |b| && a == b[..|a|])
    || exists k :: 0 <= k < |a| && k < |b| && a[..k] == b[..k] && a[k] < b[k]
  }

  /** Byte order by bytes: what every sort here goes by. */
  lemma LessMeans(a: Text, b: Text)
    ensures Less(a, b) <==> Precedes(a, b)
  {
    if Less(a, b) { LessPrecedes(a, b); }
    if |a| < |b| && a == b[..|a|] { PrefixLess(a, b); }
    if k :| 0 <= k < |a| && k < |b| && a[..k] == b[..k] && a[k] < b[k] { FirstDiffers(a, b, k); }
  }

  lemma {:induction false} LessPrecedes(a: Text, b: Text)
    requires Less(a, b)
    ensures Precedes(a, b)
    decreases |a|
  {
    if a == [] || a[0] < b[0] {
      assert a[..0] == b[..0];
    } else {
      var s, t := a[1..], b[1..];
      LessPrecedes(s, t);
      if |s| < |t| && s == t[..|s|] {
        assert a == [a[0]] + s && b[..|a|] == [b[0]] + t[..|s|];
      } else {
        var k :| 0 <= k < |s| && k < |t| && s[..k] == t[..k] && s[k] < t[k];
        assert a[..k + 1] == [a[0]] + s[..k] && b[..k + 1] == [b[0]] + t[..k] && a[k + 1] < b[k + 1];
      }
    }
  }

  lemma {:induction false} PrefixLess(a: Text, b: Text)
    requires |a| < |b| && a == b[..|a|]
    ensures Less(a, b)
    decreases |a|
  {
    if a != [] { PrefixLess(a[1..], b[1..]); }
  }

  lemma {:induction false} FirstDiffers(a: Text, b: Text, k: nat)
    requires k < |a| && k < |b| && a[..k] == b[..k] && a[k] < b[k]
    ensures Less(a, b)
    decreases k
  {
    if k > 0 {
      assert a[0] == a[..k][0] == b[..k][0] == b[0];
      assert a[1..][..k - 1] == a[..k][1..] && b[1..][..k - 1] == b[..k][1..];
      FirstDiffers(a[1..], b[1..], k - 1);
    }
  }

  lemma {:induction false} LessIrreflexive(a: Text)
    ensures !Less(a, a)
  {
    if a != [] { LessIrreflexive(a[1..]); }
  }

  lemma {:induction false} LessTransitive(a: Text, b: Text, c: Text)
    requires Less(a, b) && Less(b, c)
    ensures Less(a, c)
  {
    if a != [] && a[0] == b[0] && b[0] == c[0] { LessTransitive(a[1..], b[1..], c[1..]); }
  }

  lemma {:induction false} LessTotal(a: Text, b: Text)
    ensures a == b || Less(a, b) || Less(b, a)
  {
    if a != [] && b != [] && a[0] == b[0] {
      LessTotal(a[1..], b[1..]);
      assert a == [a[0]] + a[1..] && b == [b[0]] + b[1..];
    }
  }

  /** Byte order is a strict total order. */
  lemma LessOrder()
    ensures forall a: Text :: !Less(a, a)
    ensures forall a: Text, b: Text, c: Text :: Less(a, b) && Less(b, c) ==> Less(a, c)
    ensures forall a: Text, b: Text :: a == b || Less(a, b) || Less(b, a)
  {
    forall a: Text ensures !Less(a, a) { LessIrreflexive(a); }
    forall a: Text, b: Text, c: Text | Less(a, b) && Less(b, c) ensures Less(a, c) { LessTransitive(a, b, c); }
    forall a: Text, b: Text ensures a == b || Less(a, b) || Less(b, a) { LessTotal(a, b); }
  }

  // ---- slices -------------------------------------------------------------

  /** `s` stands at position `pos` of `buf`. */
  predicate At(buf: seq<byte>, pos: nat, s: seq<byte>) {
    pos + |s| <= |buf| && buf[pos..pos + |s|] == s
  }

  lemma AtConcat(buf: seq<byte>, pos: nat, a: seq<byte>, b: seq<byte>)
    ensures At(buf, pos, a + b) <==> At(buf, pos, a) && At(buf, pos + |a|, b)
  {
    if pos + |a| + |b| <= |buf| {
      var whole := buf[pos..pos + |a| + |b|];
      assert whole[..|a|] == buf[pos..pos + |a|];
      assert whole[|a|..] == buf[pos + |a|..pos + |a| + |b|];
      assert whole == whole[..|a|] + whole[|a|..];
    }
  }
}
