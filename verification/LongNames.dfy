/**
 * Series names of 65512 bytes or more, which the config admits (src/config.rs, `check_series_name`).
 * The batch keeps the offset of a record's id in 16 bits (src/flush/merge.rs, `push`), so behind such a
 * name it sorts and deduplicates by other bytes of the frame.
 */
module LongNames {
  import opened Bytes
  import opened Codec
  import opened Arrivals
  import opened Groups
  import opened Batch
  import opened SegmentRows

  /** The id the batch takes for a record. */
  function IdTaken(env: Env, r: Record): Text
    requires Fits(env, r)
  {
    IdInFrame(env, r); BatchedId(PutFrame(env, PutPayload(r)), IdOffset(r), |r.row.id|)
  }

  // ---- two functions that agree ---------------------------------------------------------------

  /** More numbers than values: two of them have one value. */
  lemma {:induction false} Pigeonhole(f: nat -> nat, m: nat) returns (i: nat, j: nat)
    requires m > 0 && forall k :: 0 <= k <= m ==> f(k) < m
    ensures i < j <= m && f(i) == f(j)
  {
    if k :| 0 <= k < m && f(k) == f(m) {
      i, j := k, m;
    } else if m == 1 {
      i, j := 0, 1;
    } else {
      var g := (k: nat) => if f(k) == m - 1 then f(m) else f(k);
      i, j := Pigeonhole(g, m - 1);
    }
  }

  // ---- records that differ only in their id -----------------------------------------------------

  /** UTF-8 includes ASCII. */
  ghost predicate TakesAscii(env: Env) {
    forall s: seq<byte> :: (forall i :: 0 <= i < |s| ==> s[i] < 128) ==> env.utf8(s)
  }

  /** A number as `width` ASCII characters. */
  function Ascii(n: nat, width: nat): (s: Text)
    ensures |s| == width && forall i :: 0 <= i < |s| ==> s[i] < 128
  {
    if width == 0 then [] else [n % 128] + Ascii(n / 128, width - 1)
  }

  lemma {:induction false} AsciiInjective(a: nat, b: nat, width: nat)
    requires Ascii(a, width) == Ascii(b, width) && a < Power(width) && b < Power(width)
    ensures a == b
  {
    if width > 0 {
      assert Ascii(a, width)[1..] == Ascii(a / 128, width - 1) && Ascii(b, width)[1..] == Ascii(b / 128, width - 1);
      assert Ascii(a, width)[0] == a % 128 && Ascii(b, width)[0] == b % 128;
      AsciiInjective(a / 128, b / 128, width - 1);
    }
  }

  function Power(width: nat): nat { if width == 0 then 1 else 128 * Power(width - 1) }

  lemma FiveSuffice()
    ensures Power(5) > U32_END
  {
    assert Power(3) == 0x20_0000;
  }

  function Name(n: nat): (s: Text)
    ensures |s| == n && forall i :: 0 <= i < |s| ==> s[i] == 97
  {
    seq(n, i => 97)
  }

  /** One of a family of records of one series, epoch and timestamp. */
  function Numbered(n: nat, k: nat): Record { Record(Name(n), 0, Row(0, Ascii(k, 5), [], [], [])) }

  /** Everything of the payload before the id. */
  function Front(n: nat): seq<byte> { Le(0, 8) + Le(0, 4) + PutStr16(Name(n)) + Le(5, 2) }

  lemma NumberedPayload(n: nat, k: nat)
    ensures PutPayload(Numbered(n, k)) == Front(n) + (Ascii(k, 5) + (Le(0, 2) + Le(0, 4)))
    ensures |Front(n)| == 16 + n && |PutPayload(Numbered(n, k))| == n + 27
  {
    hide Le, Ascii, Name;
    assert PutKeys([]) == [] && PutPairs([]) == [];
  }

  lemma NumberedFits(env: Env, n: nat, k: nat)
    requires TakesAscii(env) && n < U16_END
    ensures Fits(env, Numbered(n, k))
  {
    hide PutPayload;
    NumberedPayload(n, k);
  }

  function Checksum(env: Env, n: nat, k: nat): (c: nat)
    ensures c < U32_END
  {
    var p := PutPayload(Numbered(n, k));
    env.crc(Le(|p|, 4) + p)
  }

  /** With one checksum, frames of the family are the same up to the id. */
  lemma SameFront(env: Env, n: nat, j: nat, k: nat)
    requires Checksum(env, n, j) == Checksum(env, n, k)
    ensures var f, g := PutFrame(env, PutPayload(Numbered(n, j))), PutFrame(env, PutPayload(Numbered(n, k)));
            |f| == |g| == n + 35 && f[..24 + n] == g[..24 + n]
  {
    hide Le, Front, Ascii, PutPayload;
    NumberedPayload(n, j);
    NumberedPayload(n, k);
    var a, b := PutPayload(Numbered(n, j)), PutPayload(Numbered(n, k));
    var head := Le(|a|, 4) + Le(env.crc(Le(|a|, 4) + a), 4);
    assert PutFrame(env, a)[..24 + n] == head + Front(n) && PutFrame(env, b)[..24 + n] == head + Front(n);
  }

  /** Two records with one series, epoch and timestamp and different ids, which the batch takes for one. */
  ghost predicate Collide(env: Env, r: Record, q: Record) {
    && Fits(env, r) && Fits(env, q) && r.series == q.series && r.epoch == q.epoch && r.row.ts == q.row.ts
    && r.row.id != q.row.id && IdTaken(env, r) == IdTaken(env, q)
  }

  /** Behind every name that is too long some records collide, whatever the checksum is. */
  lemma LongNamesCollide(env: Env, n: nat) returns (j: nat, k: nat)
    requires TakesAscii(env) && U16_END <= 24 + n < U16_END + 24
    ensures Collide(env, Numbered(n, j), Numbered(n, k))
  {
    hide PutPayload, PutFrame, Le, Fits, Power;
    j, k := Pigeonhole((k: nat) => Checksum(env, n, k), U32_END);
    FiveSuffice();
    if Ascii(j, 5) == Ascii(k, 5) { AsciiInjective(j, k, 5); }
    NumberedFits(env, n, j);
    NumberedFits(env, n, k);
    SameFront(env, n, j, k);
    SameWindow(env, n, j, k);
  }

  lemma SamePart(f: seq<byte>, g: seq<byte>, cut: nat, at: nat)
    requires at + 5 <= cut <= |f| == |g| && f[..cut] == g[..cut]
    ensures f[at..at + 5] == g[at..at + 5]
  {
    assert f[at..at + 5] == f[..cut][at..at + 5] && g[at..at + 5] == g[..cut][at..at + 5];
  }

  lemma SameWindow(env: Env, n: nat, j: nat, k: nat)
    requires U16_END <= 24 + n < U16_END + 24 && Fits(env, Numbered(n, j)) && Fits(env, Numbered(n, k))
    requires var f, g := PutFrame(env, PutPayload(Numbered(n, j))), PutFrame(env, PutPayload(Numbered(n, k)));
             |f| == |g| == n + 35 && f[..24 + n] == g[..24 + n]
    ensures IdTaken(env, Numbered(n, j)) == IdTaken(env, Numbered(n, k))
  {
    hide PutPayload, PutFrame, Fits;
    Wraps(24 + n);
    TakenAt(env, n, j);
    TakenAt(env, n, k);
    SamePart(PutFrame(env, PutPayload(Numbered(n, j))), PutFrame(env, PutPayload(Numbered(n, k))), 24 + n,
      24 + n - U16_END);
  }

  lemma Wraps(offset: nat)
    requires U16_END <= offset < U16_END + 24
    ensures offset % U16_END == offset - U16_END
  {
  }

  lemma TakenAt(env: Env, n: nat, k: nat)
    requires Fits(env, Numbered(n, k))
    ensures var f, at := PutFrame(env, PutPayload(Numbered(n, k))), (24 + n) % U16_END;
            at + 5 <= |f| && IdTaken(env, Numbered(n, k)) == f[at..at + 5]
  {
    hide PutPayload, PutFrame, Fits;
    IdInFrame(env, Numbered(n, k));
  }

  // ---- exactly when ----------------------------------------------------------------------------

  ghost predicate KeepsIds(env: Env, n: nat) {
    forall r :: Fits(env, r) && |r.series| == n ==> IdTaken(env, r) == r.row.id
  }

  ghost predicate KeepsApart(env: Env, n: nat) {
    forall r, q :: Collide(env, r, q) ==> |r.series| != n
  }

  /**
   * The batch takes every record of an n-byte series for its id, and never takes two for one, exactly
   * when the name leaves the id's offset in 16 bits.
   */
  lemma IdsKeptExactlyWhen(env: Env, n: nat)
    requires TakesAscii(env) && n < U16_END
    ensures KeepsIds(env, n) <==> 24 + n < U16_END
    ensures KeepsApart(env, n) <==> 24 + n < U16_END
  {
    hide Fits, PutPayload, PutFrame, IdTaken, Numbered;
    if 24 + n < U16_END {
      forall r | Fits(env, r) && |r.series| == n ensures IdTaken(env, r) == r.row.id { ShortNameTakesId(env, r); }
    } else {
      var j, k := LongNamesCollide(env, n);
      NumberedSeries(n, j);
      NumberedSeries(n, k);
      assert !KeepsApart(env, n);
    }
  }

  lemma NumberedSeries(n: nat, k: nat)
    ensures |Numbered(n, k).series| == n
  {
  }

  lemma ShortNameTakesId(env: Env, r: Record)
    requires Fits(env, r) && IdOffset(r) < U16_END
    ensures IdTaken(env, r) == r.row.id
  {
    hide Fits, PutPayload, PutFrame;
    ShortNameKeepsId(env, r);
  }

  // ---- what it costs ------------------------------------------------------------------------------

  /** The row the batch makes of a record's frame. */
  function BatchedRow(env: Env, r: Record, arrival: (nat, nat)): Tagged
    requires Fits(env, r)
  {
    ((r.series, r.epoch), Entry(r.row.ts, IdTaken(env, r), arrival, PutFrame(env, PutPayload(r))))
  }

  /** Of two rows with one key one is kept. */
  lemma OneIsDropped(x: Tagged, y: Tagged, order: seq<Tagged>)
    requires SameRow(x, y) && multiset(order) == multiset{x, y}
    ensures |DropRows(order)| == 1
  {
    assert |order| == |multiset(order)| == 2;
    assert order[0] in multiset(order) && order[1] in multiset(order);
    assert order[..1] == [order[0]];
  }

  /** Two colliding records in one batch: sorting it drops one as a duplicate of the other. */
  method BatchLosesOne(env: Env, r: Record, q: Record, a: (nat, nat), b: (nat, nat))
    returns (kept: nat, deduplicated: nat)
    requires Collide(env, r, q) && |PutPayload(r)| < U32_END - 8 && |PutPayload(q)| < U32_END - 8
    ensures r.row.id != q.row.id && kept == 1 && deduplicated == 1
  {
    hide PutPayload, PutFrame, FieldsFit, DropRows, SortedRows;
    var batch := new Batch();
    Framed(env, r);
    Framed(env, q);
    var f, g := PutFrame(env, PutPayload(r)), PutFrame(env, PutPayload(q));
    batch.Push((r.series, r.epoch), r.row.ts, IdOffset(r), |r.row.id|, a, f);
    batch.Push((q.series, q.epoch), q.row.ts, IdOffset(q), |q.row.id|, b, g);
    ghost var x, y := BatchedRow(env, r, a), BatchedRow(env, q, b);
    assert batch.rows == [x, y];
    var order := batch.Sort();
    OneIsDropped(x, y, order);
    batch.SameLength();
    kept, deduplicated := |batch.entries|, batch.deduplicated;
  }

  lemma Framed(env: Env, r: Record)
    requires Fits(env, r)
    ensures var f := PutFrame(env, PutPayload(r));
            |f| == 8 + |PutPayload(r)| && IdOffset(r) + |r.row.id| <= |f| && |r.row.id| < U16_END
  {
    hide PutPayload, PutFrame;
    FrameLength(env, PutPayload(r));
    IdInFrame(env, r);
    IdFits(env, r);
  }
}
