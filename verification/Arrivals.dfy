/**
 * What the flush's sort promises: records in `(ts, id)` order, each `(ts, id)`
 * represented by its first arrival. Stated on sets, so that it says nothing
 * about budgets, runs or merge order.
 */
module Arrivals {
  import opened Bytes

  /** One WAL record on its way to Parquet; `arrival` is `(segment id, offset)`. */
  datatype Entry = Entry(ts: u64, id: Text, arrival: (nat, nat), frame: seq<byte>)

  predicate SameKey(a: Entry, b: Entry) { a.ts == b.ts && a.id == b.id }

  predicate KeyLess(a: Entry, b: Entry) { a.ts < b.ts || (a.ts == b.ts && Less(a.id, b.id)) }

  predicate ArrivalLess(a: (nat, nat), b: (nat, nat)) { a.0 < b.0 || (a.0 == b.0 && a.1 < b.1) }

  /** `(ts, id, arrival)` order. */
  predicate Before(a: Entry, b: Entry) {
    KeyLess(a, b) || (SameKey(a, b) && ArrivalLess(a.arrival, b.arrival))
  }

  lemma KeyOrder()
    ensures forall a: Entry, b: Entry, c: Entry :: KeyLess(a, b) && KeyLess(b, c) ==> KeyLess(a, c)
    ensures forall a: Entry, b: Entry :: SameKey(a, b) || KeyLess(a, b) || KeyLess(b, a)
    ensures forall a: Entry, b: Entry :: KeyLess(a, b) ==> !SameKey(a, b) && !KeyLess(b, a)
  {
    LessOrder();
  }

  lemma BeforeOrder()
    ensures forall a: Entry, b: Entry, c: Entry :: !Before(b, a) && !Before(c, b) ==> !Before(c, a)
    ensures forall a: Entry, b: Entry :: Before(a, b) ==> !Before(b, a)
    ensures forall a: Entry :: !Before(a, a)
  {
    LessOrder();
  }

  function Elements(s: seq<Entry>): set<Entry> { set e | e in s }

  predicate Sorted(s: seq<Entry>) { forall i, j :: 0 <= i < j < |s| ==> !Before(s[j], s[i]) }

  predicate StrictKeys(s: seq<Entry>) { forall i, j :: 0 <= i < j < |s| ==> KeyLess(s[i], s[j]) }

  /** The order of a stream in numbers and bytes: by timestamp, then by id. */
  lemma StrictKeysMeans(s: seq<Entry>)
    ensures StrictKeys(s) <==>
            forall i, j :: 0 <= i < j < |s| ==>
              s[i].ts < s[j].ts || (s[i].ts == s[j].ts && Precedes(s[i].id, s[j].id))
  {
    hide Less, Precedes;
    forall i, j | 0 <= i < j < |s| ensures Less(s[i].id, s[j].id) <==> Precedes(s[i].id, s[j].id) {
      LessMeans(s[i].id, s[j].id);
    }
  }

  /** Arrivals identify records. */
  ghost predicate Distinct(all: set<Entry>) {
    forall e, f :: e in all && f in all && e.arrival == f.arrival ==> e == f
  }

  /** The records that survive: no other record of the same `(ts, id)` arrived earlier. */
  ghost predicate Survives(all: set<Entry>, e: Entry) {
    e in all && forall f :: f in all && SameKey(f, e) ==> !ArrivalLess(f.arrival, e.arrival)
  }

  ghost function First(all: set<Entry>): set<Entry> { set e | e in all && Survives(all, e) }

  /** `out` is the stream the specification asks for: survivors, in strict `(ts, id)` order. */
  ghost predicate IsStreamOf(out: seq<Entry>, all: set<Entry>) {
    StrictKeys(out) && Elements(out) == First(all)
  }

  /** The specification admits one stream. */
  lemma {:induction false} StreamUnique(a: seq<Entry>, b: seq<Entry>)
    requires StrictKeys(a) && StrictKeys(b) && Elements(a) == Elements(b)
    ensures a == b
  {
    FirstMember(a);
    FirstMember(b);
    if a != [] {
      KeyOrder();
      assert a[0] in Elements(b) && b[0] in Elements(a);
      assert a[0] == b[0];
      TailElements(a);
      TailElements(b);
      StreamUnique(a[1..], b[1..]);
      assert a == [a[0]] + a[1..] && b == [b[0]] + b[1..];
    }
  }

  lemma FirstMember(a: seq<Entry>)
    ensures a != [] ==> a[0] in Elements(a)
  {
  }

  lemma TailElements(a: seq<Entry>)
    requires StrictKeys(a) && a != []
    ensures Elements(a[1..]) == Elements(a) - {a[0]}
  {
    KeyOrder();
    assert a == [a[0]] + a[1..];
  }

  /** Every record has a survivor of its `(ts, id)` that arrived no later. */
  lemma {:induction false} SurvivorOf(all: set<Entry>, e: Entry) returns (f: Entry)
    requires e in all
    ensures f in First(all) && SameKey(f, e) && !ArrivalLess(e.arrival, f.arrival)
    decreases |all|
  {
    if Survives(all, e) {
      f := e;
    } else {
      var g :| g in all && SameKey(g, e) && ArrivalLess(g.arrival, e.arrival);
      f := SurvivorOf(all - {e}, g);
      assert Survives(all, f);
    }
  }

  /** Deduplicating part of the input early never changes the survivors. */
  lemma FirstOfFirst(a: set<Entry>, b: set<Entry>)
    ensures First(First(a) + b) == First(a + b)
  {
    forall e ensures e in First(First(a) + b) <==> e in First(a + b) {
      if e in First(First(a) + b) {
        forall f | f in a + b && SameKey(f, e) ensures !ArrivalLess(f.arrival, e.arrival) {
          if f in a { var g := SurvivorOf(a, f); }
        }
      }
    }
  }

  /** Drop every entry whose key repeats the one before it: `dedup_by` and the merge's `last`. */
  function DropRepeats(s: seq<Entry>): seq<Entry> {
    if |s| <= 1 then s
    else
      var d := DropRepeats(s[..|s| - 1]);
      if SameKey(s[|s| - 1], s[|s| - 2]) then d else d + [s[|s| - 1]]
  }

  /** On sorted input, dropping repeats is exactly the specified stream. */
  lemma {:induction false} DropRepeatsIsStream(s: seq<Entry>)
    requires Sorted(s) && Distinct(Elements(s))
    ensures IsStreamOf(DropRepeats(s), Elements(s))
    ensures s != [] ==> DropRepeats(s) != [] && SameKey(DropRepeats(s)[|DropRepeats(s)| - 1], s[|s| - 1])
    ensures |DropRepeats(s)| <= |s|
  {
    hide Before, First, Sorted, Distinct, StrictKeys, Elements;
    if |s| <= 1 {
      StreamOfAtMostOne(s);
    } else {
      var init, e, p := s[..|s| - 1], s[|s| - 1], s[|s| - 2];
      assert s == init + [e] && p == init[|init| - 1];
      SortedInit(init, e);
      ElementsOfLast(init, e);
      DropRepeatsIsStream(init);
      FirstOfLast(init, e);
      StrictKeysOfLast(DropRepeats(init), p, e);
      ElementsOfLast(DropRepeats(init), e);
    }
  }

  lemma SortedInit(init: seq<Entry>, e: Entry)
    requires Sorted(init + [e]) && Distinct(Elements(init + [e]))
    ensures Sorted(init) && Distinct(Elements(init))
    ensures init != [] ==> !Before(e, init[|init| - 1])
  {
    hide Before;
    var s := init + [e];
    assert forall i :: 0 <= i < |init| ==> s[i] == init[i];
    assert Elements(init) <= Elements(s);
    assert e == s[|init|];
  }

  lemma StreamOfAtMostOne(s: seq<Entry>)
    requires |s| <= 1
    ensures IsStreamOf(s, Elements(s))
  {
    if |s| == 1 { assert Elements(s) == {s[0]}; }
  }

  lemma ElementsOfLast(d: seq<Entry>, e: Entry)
    ensures Elements(d + [e]) == Elements(d) + {e}
  {
  }

  /** Appending the greatest entry: it survives exactly when its key is new. */
  lemma FirstOfLast(init: seq<Entry>, e: Entry)
    requires init != [] && Sorted(init + [e]) && Distinct(Elements(init + [e]))
    ensures var all := Elements(init);
            First(all + {e}) == if SameKey(e, init[|init| - 1]) then First(all) else First(all) + {e}
  {
    hide First, Sorted, Distinct;
    var p, all := init[|init| - 1], Elements(init);
    forall f | f in all && SameKey(f, e) ensures SameKey(p, e) && (f == e || ArrivalLess(f.arrival, e.arrival)) {
      var i :| 0 <= i < |init| && init[i] == f;
      EarlierOfSameKey(init, e, i);
    }
    if SameKey(e, p) { RepeatedKey(all, p, e); } else { NewKey(all, e); }
  }

  lemma EarlierOfSameKey(init: seq<Entry>, e: Entry, i: nat)
    requires Sorted(init + [e]) && Distinct(Elements(init + [e])) && i < |init| && SameKey(init[i], e)
    ensures SameKey(init[|init| - 1], e) && (init[i] == e || ArrivalLess(init[i].arrival, e.arrival))
  {
    KeyOrder();
    hide KeyLess;
    var s, n := init + [e], |init|;
    assert s[i] == init[i] && s[n] == e && s[n - 1] == init[n - 1];
    assert s[i] in Elements(s) && s[n] in Elements(s);
    assert !Before(s[n], s[i]) && !Before(s[n], s[n - 1]) && (i < n - 1 ==> !Before(s[n - 1], s[i]));
  }

  lemma RepeatedKey(all: set<Entry>, p: Entry, e: Entry)
    requires p in all && SameKey(p, e)
    requires forall f :: f in all && SameKey(f, e) ==> f == e || ArrivalLess(f.arrival, e.arrival)
    ensures First(all + {e}) == First(all)
  {
    if e !in all {
      assert p in all + {e} && SameKey(p, e) && ArrivalLess(p.arrival, e.arrival);
      assert !Survives(all + {e}, e);
    } else {
      assert all + {e} == all;
    }
    forall x | x in all ensures Survives(all + {e}, x) <==> Survives(all, x) {}
  }

  lemma NewKey(all: set<Entry>, e: Entry)
    requires forall f :: f in all ==> !SameKey(f, e)
    ensures First(all + {e}) == First(all) + {e}
  {
    assert Survives(all + {e}, e);
    forall x | x in all ensures Survives(all + {e}, x) <==> Survives(all, x) {}
  }

  lemma StrictKeysOfLast(d: seq<Entry>, p: Entry, e: Entry)
    requires d != [] && StrictKeys(d) && SameKey(d[|d| - 1], p) && !Before(e, p)
    ensures !SameKey(e, p) ==> StrictKeys(d + [e])
  {
    KeyOrder();
  }
}
