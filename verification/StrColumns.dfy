/** A string column: all bytes in one buffer plus end offsets (src/flush/parquet.rs). */
module StrColumns {
  import opened Bytes

  datatype StrColumn = StrColumn(bytes: seq<byte>, ends: seq<nat>)

  const EMPTY: StrColumn := StrColumn([], [])

  function Push(c: StrColumn, s: Text): StrColumn { StrColumn(c.bytes + s, c.ends + [|c.bytes + s|]) }

  function Start(c: StrColumn, i: nat): nat
    requires i <= |c.ends|
  {
    if i == 0 then 0 else c.ends[i - 1]
  }

  function Cat(texts: seq<Text>): seq<byte> {
    if texts == [] then [] else Cat(texts[..|texts| - 1]) + texts[|texts| - 1]
  }

  /** The column stands for these strings: the buffer is their concatenation, cut where each ends. */
  ghost predicate Holds(c: StrColumn, texts: seq<Text>) {
    && |c.ends| == |texts| && c.bytes == Cat(texts)
    && forall i :: 0 <= i < |texts| ==> c.ends[i] == |Cat(texts[..i + 1])|
  }

  lemma PushHolds(c: StrColumn, texts: seq<Text>, s: Text)
    requires Holds(c, texts)
    ensures Holds(Push(c, s), texts + [s])
  {
    var t := texts + [s];
    assert t[..|t| - 1] == texts;
    forall i | 0 <= i < |t| ensures Push(c, s).ends[i] == |Cat(t[..i + 1])| {
      if i < |texts| { assert t[..i + 1] == texts[..i + 1]; } else { assert t[..i + 1] == t; }
    }
  }

  lemma EmptyHolds()
    ensures Holds(EMPTY, [])
  {
  }

  lemma {:induction false} CatPrefix(texts: seq<Text>, i: nat)
    requires i <= |texts|
    ensures Cat(texts[..i]) <= Cat(texts)
  {
    if i < |texts| {
      CatPrefix(texts[..|texts| - 1], i);
      assert texts[..|texts| - 1][..i] == texts[..i];
    } else {
      assert texts[..i] == texts;
    }
  }

  /** Between two ends lies one string. */
  lemma SliceIs(c: StrColumn, texts: seq<Text>, i: nat)
    requires Holds(c, texts) && i < |texts|
    ensures Start(c, i) == |Cat(texts[..i])| <= c.ends[i] <= |c.bytes| && c.bytes[Start(c, i)..c.ends[i]] == texts[i]
  {
    CatPrefix(texts, i + 1);
    assert texts[..i + 1][..i] == texts[..i];
    assert texts[..0] == [];
  }

  lemma StartsAscend(c: StrColumn, texts: seq<Text>, i: nat, j: nat)
    requires Holds(c, texts) && i <= j <= |texts|
    ensures Start(c, i) == |Cat(texts[..i])| <= Start(c, j) <= |c.bytes|
  {
    CatPrefix(texts[..j], i);
    CatPrefix(texts, j);
    assert texts[..j][..i] == texts[..i] && texts[..0] == [];
  }

  /** Values `[from, to)`, cut from one shared copy of their bytes. */
  method Arrays(c: StrColumn, from: nat, to: nat, ghost texts: seq<Text>) returns (vals: seq<Text>)
    requires Holds(c, texts) && from <= to <= |texts|
    ensures vals == texts[from..to]
  {
    if from == to { return []; }
    var base := Start(c, from);
    StartsAscend(c, texts, from, to);
    var shared := c.bytes[base..c.ends[to - 1]];
    vals := [];
    for i := from to to
      invariant vals == texts[from..i]
    {
      hide Cat, Holds;
      SliceIs(c, texts, i);
      StartsAscend(c, texts, from, i);
      StartsAscend(c, texts, i + 1, to);
      assert shared[Start(c, i) - base..c.ends[i] - base] == c.bytes[Start(c, i)..c.ends[i]];
      vals := vals + [shared[Start(c, i) - base..c.ends[i] - base]];
    }
  }
}
