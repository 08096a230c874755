/**
 * The durable side of the flush protocol, record by record: the segments of
 * `wal/`, the quarantined ones, the watermark of the committed manifest, and
 * what each commit said became of every record. `Good` is the accounting every
 * operation on it keeps: no record is in two places, and no record that was
 * ever durable is in none.
 */
module Ledger {
  /**
   * One WAL frame. `born` is the birth number of the segment it was written to and `serial` its own, so
   * two records of one segment are in `serial` order. `key` is the `(series, epoch, ts, id)`; `accepted`
   * says the frame passes the schema its epoch names.
   */
  datatype Rec = Rec(serial: nat, born: nat, key: nat, accepted: bool)

  /** `Short`: no whole header. `Foreign`: another format version. */
  datatype Header = Sound | Short | Damaged | Foreign

  /** Whether a flush has read the segment, and how many leading records it took. */
  datatype Reading = Unread | Took(count: nat)

  /** `synced` survives a crash, any prefix of `volatile` may. An id can recur, a birth number cannot. */
  datatype Segment = Segment(header: Header, born: nat, synced: seq<Rec>, volatile: seq<Rec>, read: Reading)

  function Recs(g: Segment): seq<Rec> { g.synced + g.volatile }

  /** An output file: `part` is its series, epoch and hour; `first` and `last` the segment range in its name. */
  datatype Key = Key(part: nat, first: nat, last: nat)

  /** What a flush makes of the records it consumes. */
  datatype Plan = Plan(files: map<Key, set<Rec>>, rejected: set<Rec>, skipped: set<Rec>, duplicates: set<Rec>)

  /**
   * `files`, `rejected`, `skipped` and `duplicates` accumulate committed plans. The rest is history:
   * `durable` every record ever synced, `damaged` every record hit by storage damage, `overwritten`
   * every record of a quarantined segment that a later quarantine of the same id replaced.
   */
  datatype Log = Log(wal: map<nat, Segment>, quarantined: map<nat, Segment>, watermark: nat, done: Plan,
                     next: nat, durable: set<Rec>, damaged: set<Rec>, overwritten: set<Rec>)

  datatype Place = InWal(id: nat) | InQuarantine(id: nat) | InFile(key: Key) | AsRejected | AsSkipped | AsDuplicate
      | AsOverwritten

  predicate PlanAt(p: Plan, r: Rec, at: Place) {
    match at
    case InFile(k) => k in p.files && r in p.files[k]
    case AsRejected => r in p.rejected
    case AsSkipped => r in p.skipped
    case AsDuplicate => r in p.duplicates
    case _ => false
  }

  predicate At(g: Log, r: Rec, at: Place) {
    match at
    case InWal(id) => id in g.wal && id > g.watermark && r in Recs(g.wal[id])
    case InQuarantine(id) => id in g.quarantined && r in Recs(g.quarantined[id])
    case AsOverwritten => r in g.overwritten
    case _ => PlanAt(g.done, r, at)
  }

  ghost predicate Once(g: Log) { forall r, p, q :: At(g, r, p) && At(g, r, q) ==> p == q }

  ghost predicate Somewhere(g: Log, r: Rec) { exists p :: At(g, r, p) }

  ghost predicate Kept(g: Log) { forall r :: r in g.durable ==> Somewhere(g, r) }

  /** A commit said what became of the record. */
  ghost predicate Resolved(p: Plan, r: Rec) { exists at :: PlanAt(p, r, at) }

  /** A segment at or below the watermark was read, and commits resolved each of its records. */
  ghost predicate Settled(g: Log) {
    forall id :: id in g.wal && id <= g.watermark ==>
      g.wal[id].read.Took? && forall r :: r in Recs(g.wal[id]) ==> Resolved(g.done, r)
  }

  ghost predicate Fresh(g: Log) {
    && (forall r, p :: At(g, r, p) ==> r.serial < g.next)
    && (forall r :: r in g.durable ==> r.serial < g.next)
    && (forall id, r :: id in g.wal && r in Recs(g.wal[id]) ==> r.serial < g.next)
  }

  /** A record not yet synced is not promised, and a segment without a header holds nothing. */
  ghost predicate SegmentsOk(g: Log) {
    forall id :: id in g.wal ==>
      && (forall r :: r in g.wal[id].volatile ==> r !in g.durable)
      && (g.wal[id].header == Short ==> Recs(g.wal[id]) == [])
  }

  /** The segment holds its own records, in the order they were written. */
  ghost predicate InOrder(seg: Segment) {
    && (forall r :: r in Recs(seg) ==> r.born == seg.born)
    && (forall i, j :: 0 <= i < j < |Recs(seg)| ==> Recs(seg)[i].serial < Recs(seg)[j].serial)
  }

  /** Birth numbers tell the segments of `wal/` apart, and a record says which one it was written to. */
  ghost predicate Births(g: Log) {
    && (forall id :: id in g.wal ==> g.wal[id].born < g.next && InOrder(g.wal[id]))
    && (forall i, j :: i in g.wal && j in g.wal && g.wal[i].born == g.wal[j].born ==> i == j)
  }

  /** A damaged record of the same segment lies at or before `r`. */
  ghost predicate Behind(damaged: set<Rec>, r: Rec) {
    exists w :: w in damaged && w.born == r.born && w.serial <= r.serial
  }

  /** A duplicate has a twin in a file; only unaccepted records are rejected; only records behind damage are skipped. */
  ghost predicate Justified(p: Plan, damaged: set<Rec>) {
    && (forall r :: r in p.rejected ==> !r.accepted)
    && (forall r :: r in p.skipped ==> Behind(damaged, r))
    && (forall r :: r in p.duplicates ==> HasTwin(p.files, r))
  }

  ghost predicate HasTwin(files: map<Key, set<Rec>>, r: Rec) {
    exists k, w :: k in files && w in files[k] && w.key == r.key && w != r
  }

  /** A committed name lies at or below the watermark. */
  ghost predicate Covered(g: Log) { forall k :: k in g.done.files ==> k.last <= g.watermark }

  ghost predicate Good(g: Log) {
    && Once(g) && Kept(g) && Settled(g) && Fresh(g) && SegmentsOk(g) && Births(g)
    && Justified(g.done, g.damaged) && Covered(g)
  }

  // ---- writing ------------------------------------------------------------------

  function AppendRec(g: Log, id: nat, r: Rec): Log
    requires id in g.wal
  {
    g.(wal := g.wal[id := g.wal[id].(volatile := g.wal[id].volatile + [r])], next := g.next + 1)
  }

  lemma AppendKeeps(g: Log, id: nat, r: Rec)
    requires Good(g) && id in g.wal && id > g.watermark && g.wal[id].header != Short
    requires r.serial == g.next && r.born == g.wal[id].born
    ensures Good(AppendRec(g, id, r))
  {
    AppendInOrder(g, id, r);
    hide Justified, Births;
    var h := AppendRec(g, id, r);
    assert forall x, p :: At(h, x, p) <==> At(g, x, p) || (x == r && p == InWal(id));
    forall x | x in g.durable ensures Somewhere(h, x) { StillSomewhere(g, h, x); }
  }

  lemma AppendInOrder(g: Log, id: nat, r: Rec)
    requires Births(g) && Fresh(g) && id in g.wal && r.serial == g.next && r.born == g.wal[id].born
    ensures Births(AppendRec(g, id, r))
  {
    var h := AppendRec(g, id, r);
    assert Recs(h.wal[id]) == Recs(g.wal[id]) + [r];
    assert InOrder(h.wal[id]);
  }

  /** A segment's order is kept by keeping a prefix of its records. */
  lemma PrefixInOrder(a: Segment, b: Segment)
    requires InOrder(a) && b.born == a.born && Recs(b) <= Recs(a)
    ensures InOrder(b)
  {
    forall i | 0 <= i < |Recs(b)| ensures Recs(b)[i] == Recs(a)[i] {}
  }

  /** Births survive whatever keeps each segment's birth number and a prefix of its records. */
  lemma BirthsKept(g: Log, h: Log)
    requires Births(g) && h.next >= g.next
    requires forall id :: id in h.wal ==>
               id in g.wal && h.wal[id].born == g.wal[id].born && Recs(h.wal[id]) <= Recs(g.wal[id])
    ensures Births(h)
  {
    hide InOrder;
    forall id | id in h.wal
      ensures h.wal[id].born < h.next && InOrder(h.wal[id])
    {
      PrefixInOrder(g.wal[id], h.wal[id]);
    }
  }

  /** Records keep a place when every place is kept. */
  lemma StillSomewhere(g: Log, h: Log, r: Rec)
    requires Somewhere(g, r) && forall x, p :: At(g, x, p) ==> At(h, x, p)
    ensures Somewhere(h, r)
  {
    hide At;
    var p :| At(g, r, p);
    assert At(h, r, p);
  }

  function Set(s: seq<Rec>): set<Rec> { set r | r in s }

  /** The first `upto` records become durable: a group commit may cover fewer than have been appended since. */
  function SyncUpTo(g: Log, id: nat, upto: nat): Log
    requires id in g.wal && |g.wal[id].synced| <= upto <= |Recs(g.wal[id])|
  {
    var seg := g.wal[id];
    g.(wal := g.wal[id := seg.(synced := Recs(seg)[..upto], volatile := Recs(seg)[upto..])],
       durable := if id > g.watermark then g.durable + Set(Recs(seg)[..upto]) else g.durable)
  }

  function SyncSegment(g: Log, id: nat): Log
    requires id in g.wal
  {
    var seg := g.wal[id];
    g.(wal := g.wal[id := seg.(synced := Recs(seg), volatile := [])],
       durable := if id > g.watermark then g.durable + Set(Recs(seg)) else g.durable)
  }

  lemma SyncKeeps(g: Log, id: nat)
    requires Good(g) && id in g.wal
    ensures Good(SyncSegment(g, id))
  {
    hide Good;
    var recs := Recs(g.wal[id]);
    SyncUpToKeeps(g, id, |recs|);
    assert recs[..|recs|] == recs && recs[|recs|..] == [];
    assert SyncUpTo(g, id, |recs|) == SyncSegment(g, id);
  }

  lemma SyncUpToKeeps(g: Log, id: nat, upto: nat)
    requires Good(g) && id in g.wal && |g.wal[id].synced| <= upto <= |Recs(g.wal[id])|
    ensures Good(SyncUpTo(g, id, upto))
  {
    hide Justified, Births;
    var h := SyncUpTo(g, id, upto);
    assert Recs(h.wal[id]) == Recs(g.wal[id]);
    BirthsKept(g, h);
    assert forall x, p :: At(h, x, p) <==> At(g, x, p);
    forall x | x in h.durable ensures Somewhere(h, x) {
      if x in g.durable { StillSomewhere(g, h, x); } else { assert At(h, x, InWal(id)); }
    }
    SyncSegmentsOk(g, id, upto);
  }

  lemma SyncSegmentsOk(g: Log, id: nat, upto: nat)
    requires Good(g) && id in g.wal && |g.wal[id].synced| <= upto <= |Recs(g.wal[id])|
    ensures SegmentsOk(SyncUpTo(g, id, upto))
  {
    hide Justified, Settled, Fresh, Kept;
    var h := SyncUpTo(g, id, upto);
    forall r | r in Recs(g.wal[id])[..upto] ensures r !in Recs(g.wal[id])[upto..] { OneSide(g.wal[id], r, upto); }
    forall i, r | i in h.wal && r in h.wal[i].volatile ensures r !in h.durable {
      assert r in g.wal[i].volatile;
      if At(g, r, InWal(id)) { SegmentsApart(g, i, id, r); }
    }
  }

  lemma OneSide(seg: Segment, r: Rec, upto: nat)
    requires InOrder(seg) && upto <= |Recs(seg)| && r in Recs(seg)[..upto]
    ensures r !in Recs(seg)[upto..]
  {
    var i :| 0 <= i < upto && Recs(seg)[..upto][i] == r;
    assert Recs(seg)[i] == r;
    forall k | 0 <= k < |Recs(seg)[upto..]| ensures Recs(seg)[upto..][k] != r {
      assert Recs(seg)[upto..][k] == Recs(seg)[upto + k];
    }
  }

  /** A record of a live segment is in no other segment of `wal/`, not even a settled one. */
  lemma SegmentsApart(g: Log, i: nat, id: nat, r: Rec)
    requires Once(g) && Settled(g) && i in g.wal && r in Recs(g.wal[i]) && At(g, r, InWal(id))
    ensures i == id
  {
    if i <= g.watermark {
      var at :| PlanAt(g.done, r, at);
      assert At(g, r, at);
    } else {
      assert At(g, r, InWal(i));
    }
  }

  /** A new, empty segment; `Short` when the crash came before its header was whole. */
  function CreateSegment(g: Log, id: nat, header: Header): Log {
    g.(wal := g.wal[id := Segment(header, g.next, [], [], Unread)], next := g.next + 1)
  }

  lemma CreateKeeps(g: Log, id: nat, header: Header)
    requires Good(g) && id !in g.wal && id > g.watermark
    ensures Good(CreateSegment(g, id, header))
  {
    hide Justified, Births, Resolved, At;
    var h := CreateSegment(g, id, header);
    CreateBirths(g, id, header);
    forall x, p ensures At(h, x, p) <==> At(g, x, p) { CreatePlaces(g, id, header, x, p); }
    forall x | x in g.durable ensures Somewhere(h, x) { StillSomewhere(g, h, x); }
  }

  /** A new segment is no place yet. */
  lemma CreatePlaces(g: Log, id: nat, header: Header, x: Rec, p: Place)
    requires id !in g.wal
    ensures At(CreateSegment(g, id, header), x, p) <==> At(g, x, p)
  {
  }

  lemma CreateBirths(g: Log, id: nat, header: Header)
    requires Births(g) && id !in g.wal
    ensures Births(CreateSegment(g, id, header))
  {
    hide InOrder;
    var h := CreateSegment(g, id, header);
    assert InOrder(h.wal[id]) by { EmptyInOrder(h.wal[id]); }
  }

  lemma EmptyInOrder(seg: Segment)
    requires seg.synced == [] && seg.volatile == []
    ensures InOrder(seg)
  {
  }

  // ---- damage and crashes ---------------------------------------------------------

  /** The header becomes unreadable, or turns out to be another version's. */
  function DamageHeader(g: Log, id: nat, header: Header): Log
    requires id in g.wal
  {
    g.(wal := g.wal[id := g.wal[id].(header := header)])
  }

  function DamageRec(g: Log, r: Rec): Log { g.(damaged := g.damaged + {r}) }

  lemma DamageHeaderKeeps(g: Log, id: nat, header: Header)
    requires Good(g) && id in g.wal && header != Short
    ensures Good(DamageHeader(g, id, header))
  {
    hide Justified, Births;
    var h := DamageHeader(g, id, header);
    assert Recs(h.wal[id]) == Recs(g.wal[id]);
    BirthsKept(g, h);
    assert forall x, p :: At(h, x, p) <==> At(g, x, p);
    forall x | x in g.durable ensures Somewhere(h, x) { StillSomewhere(g, h, x); }
  }

  lemma DamageRecKeeps(g: Log, r: Rec)
    requires Good(g)
    ensures Good(DamageRec(g, r))
  {
    hide HasTwin, Births;
    var h := DamageRec(g, r);
    BirthsKept(g, h);
    assert forall x, p :: At(h, x, p) <==> At(g, x, p);
    forall x | x in g.done.skipped ensures Behind(h.damaged, x) { BehindMore(g.damaged, h.damaged, x); }
    forall x | x in g.durable ensures Somewhere(h, x) { StillSomewhere(g, h, x); }
  }

  lemma BehindMore(a: set<Rec>, b: set<Rec>, r: Rec)
    requires Behind(a, r) && a <= b
    ensures Behind(b, r)
  {
  }

  /** A crash keeps what was synced and some prefix of the rest of every segment. */
  ghost predicate CrashOf(g: Log, h: Log) {
    && h == g.(wal := h.wal) && h.wal.Keys == g.wal.Keys
    && (forall id :: id in g.wal ==> h.wal[id] == g.wal[id].(volatile := h.wal[id].volatile))
    && (forall id :: id in g.wal ==> h.wal[id].volatile <= g.wal[id].volatile)
  }

  lemma CrashKeeps(g: Log, h: Log)
    requires Good(g) && CrashOf(g, h)
    ensures Good(h)
  {
    hide Justified, Births;
    assert forall id :: id in h.wal ==> Recs(h.wal[id]) <= Recs(g.wal[id]);
    BirthsKept(g, h);
    assert forall id, r :: id in h.wal && r in Recs(h.wal[id]) ==> id in g.wal && r in Recs(g.wal[id]);
    assert forall x, p :: At(h, x, p) ==> At(g, x, p);
    forall x | x in h.durable ensures Somewhere(h, x) {
      var p :| At(g, x, p);
      if p.InWal? { assert x in g.wal[p.id].synced; }
      assert At(h, x, p);
    }
  }

  // ---- quarantine, removal, the tail ------------------------------------------------

  /** Rename to `<id>.wal.corrupt`, replacing whatever had that name. */
  function QuarantineSegment(g: Log, id: nat): Log
    requires id in g.wal
  {
    g.(wal := g.wal - {id}, quarantined := g.quarantined[id := g.wal[id]],
       overwritten := g.overwritten + if id in g.quarantined then Set(Recs(g.quarantined[id])) else {})
  }

  lemma QuarantineKeeps(g: Log, id: nat)
    requires Good(g) && id in g.wal && id > g.watermark
    ensures Good(QuarantineSegment(g, id))
  {
    hide Justified, Births;
    var h := QuarantineSegment(g, id);
    BirthsKept(g, h);
    QuarantinePlaces(g, id);
    forall x | x in h.durable ensures Somewhere(h, x) {
      var p :| At(g, x, p);
      assert At(h, x, AfterQuarantine(g, id, p));
    }
    QuarantineOnce(g, id);
  }

  /** Where a place goes when `id` is quarantined. */
  function AfterQuarantine(g: Log, id: nat, p: Place): Place {
    if p == InWal(id) then InQuarantine(id)
    else if p == InQuarantine(id) then AsOverwritten
    else p
  }

  lemma QuarantinePlaces(g: Log, id: nat)
    requires id in g.wal && id > g.watermark
    ensures var h := QuarantineSegment(g, id);
            && (forall x, p :: At(g, x, p) ==> At(h, x, AfterQuarantine(g, id, p)))
            && (forall x, q :: At(h, x, q) ==> exists p :: At(g, x, p) && q == AfterQuarantine(g, id, p))
  {
    var h := QuarantineSegment(g, id);
    forall x, q | At(h, x, q) ensures exists p :: At(g, x, p) && q == AfterQuarantine(g, id, p) {
      var p := if q == InQuarantine(id) then InWal(id)
               else if q == AsOverwritten && x !in g.overwritten then InQuarantine(id) else q;
      assert At(g, x, p) && q == AfterQuarantine(g, id, p);
    }
  }

  lemma QuarantineOnce(g: Log, id: nat)
    requires Once(g) && Fresh(g) && id in g.wal && id > g.watermark
    ensures Once(QuarantineSegment(g, id))
    ensures forall x, p :: At(QuarantineSegment(g, id), x, p) ==> x.serial < g.next
  {
    hide At;
    var h := QuarantineSegment(g, id);
    QuarantinePlaces(g, id);
    forall x, p, q | At(h, x, p) && At(h, x, q) ensures p == q {
      var a :| At(g, x, a) && p == AfterQuarantine(g, id, a);
      var b :| At(g, x, b) && q == AfterQuarantine(g, id, b);
    }
  }

  function RemoveSegment(g: Log, id: nat): Log { g.(wal := g.wal - {id}) }

  /** Unlinking a settled segment, or one too short to hold anything. */
  lemma RemoveKeeps(g: Log, id: nat)
    requires Good(g) && (id in g.wal ==> id <= g.watermark || g.wal[id].header == Short)
    ensures Good(RemoveSegment(g, id))
  {
    hide Justified, Births;
    var h := RemoveSegment(g, id);
    BirthsKept(g, h);
    assert forall x, p :: At(h, x, p) <==> At(g, x, p);
    forall x | x in h.durable ensures Somewhere(h, x) { StillSomewhere(g, h, x); }
  }

  /** Truncate and sync a segment at a damaged record. */
  function CutTail(g: Log, id: nat, k: nat): Log
    requires id in g.wal && k < |Recs(g.wal[id])|
  {
    var recs := Recs(g.wal[id]);
    g.(wal := g.wal[id := g.wal[id].(synced := recs[..k], volatile := [])],
       durable := g.durable + Set(recs[..k]),
       done := g.done.(skipped := g.done.skipped + (Set(recs[k..]) - Set(recs[..k]))))
  }

  lemma CutPlaces(g: Log, id: nat, k: nat)
    requires id in g.wal && id > g.watermark && k < |Recs(g.wal[id])|
    ensures var h, recs := CutTail(g, id, k), Recs(g.wal[id]);
            && (forall x, p :: p != InWal(id) && p != AsSkipped ==> (At(h, x, p) <==> At(g, x, p)))
            && (forall x :: At(h, x, InWal(id)) <==> x in recs[..k])
            && (forall x :: At(h, x, AsSkipped) <==> At(g, x, AsSkipped) || (x in recs && x !in recs[..k]))
            && (forall x :: At(g, x, InWal(id)) <==> x in recs)
  {
    var h, recs := CutTail(g, id, k), Recs(g.wal[id]);
    assert recs == recs[..k] + recs[k..];
    assert Recs(h.wal[id]) == recs[..k];
  }

  lemma CutKeeps(g: Log, id: nat, k: nat)
    requires Good(g) && id in g.wal && id > g.watermark && k < |Recs(g.wal[id])|
    requires Recs(g.wal[id])[k] in g.damaged
    ensures Good(CutTail(g, id, k))
  {
    hide At, HasTwin, Behind, Births;
    var h, recs := CutTail(g, id, k), Recs(g.wal[id]);
    CutPlaces(g, id, k);
    CutBirths(g, id, k);
    forall x | x in h.done.skipped ensures Behind(h.damaged, x) {
      if x !in g.done.skipped { CutIsBehind(g, id, k, x); }
    }
    forall x | x in h.durable ensures Somewhere(h, x) {
      if x in g.durable {
        var p :| At(g, x, p);
        assert At(h, x, p) || At(h, x, AsSkipped);
      } else {
        assert At(h, x, InWal(id));
      }
    }
    CutOnce(g, id, k);
    CutSegments(g, id, k);
    CutSettled(g, id, k);
  }

  lemma CutBirths(g: Log, id: nat, k: nat)
    requires Births(g) && id in g.wal && k < |Recs(g.wal[id])|
    ensures Births(CutTail(g, id, k))
  {
    hide Births;
    var h := CutTail(g, id, k);
    assert Recs(h.wal[id]) == Recs(g.wal[id])[..k];
    BirthsKept(g, h);
  }

  /** What is cut off lies at or behind the damaged record. */
  lemma CutIsBehind(g: Log, id: nat, k: nat, x: Rec)
    requires Births(g) && id in g.wal && k < |Recs(g.wal[id])|
    requires Recs(g.wal[id])[k] in g.damaged && x in Recs(g.wal[id])[k..]
    ensures Behind(g.damaged, x)
  {
    var recs := Recs(g.wal[id]);
    assert InOrder(g.wal[id]);
    var i :| 0 <= i < |recs[k..]| && recs[k..][i] == x;
    assert recs[k + i] == x && recs[k] in recs && x in recs;
  }

  lemma CutOnce(g: Log, id: nat, k: nat)
    requires Once(g) && id in g.wal && id > g.watermark && k < |Recs(g.wal[id])|
    ensures Once(CutTail(g, id, k))
  {
    hide At;
    var h := CutTail(g, id, k);
    CutPlaces(g, id, k);
    forall x, p, q | At(h, x, p) && At(h, x, q) ensures p == q {
      var a := if At(g, x, p) then p else InWal(id);
      var b := if At(g, x, q) then q else InWal(id);
      assert At(g, x, a) && At(g, x, b);
    }
  }

  lemma CutSettled(g: Log, id: nat, k: nat)
    requires Settled(g) && id in g.wal && id > g.watermark && k < |Recs(g.wal[id])|
    ensures Settled(CutTail(g, id, k))
  {
    var h := CutTail(g, id, k);
    forall r | Resolved(g.done, r) ensures Resolved(h.done, r) {
      var at :| PlanAt(g.done, r, at);
      assert PlanAt(h.done, r, at);
    }
  }

  lemma CutSegments(g: Log, id: nat, k: nat)
    requires Good(g) && id in g.wal && id > g.watermark && k < |Recs(g.wal[id])|
    ensures SegmentsOk(CutTail(g, id, k)) && Fresh(CutTail(g, id, k))
  {
    hide Justified, Kept, Births;
    var h, recs := CutTail(g, id, k), Recs(g.wal[id]);
    CutPlaces(g, id, k);
    assert recs == recs[..k] + recs[k..] && Recs(h.wal[id]) == recs[..k];
    forall i, r | i in g.wal && r in Recs(g.wal[i]) && At(g, r, InWal(id)) ensures i == id {
      SegmentsApart(g, i, id, r);
    }
    assert forall i, r :: i in h.wal && r in h.wal[i].volatile ==> i != id && r in Recs(g.wal[i]) && r !in g.durable;
    assert forall r :: r in h.durable ==> r in g.durable || At(g, r, InWal(id));
  }

  /** How many leading records pass the scan. */
  function FirstBad(recs: seq<Rec>, damaged: set<Rec>): nat {
    if recs == [] || recs[0] in damaged then 0 else 1 + FirstBad(recs[1..], damaged)
  }

  lemma {:induction false} FirstBadIs(recs: seq<Rec>, damaged: set<Rec>)
    ensures var n := FirstBad(recs, damaged);
            && n <= |recs| && (n < |recs| ==> recs[n] in damaged)
            && forall r :: r in recs[..n] ==> r !in damaged
  {
    if recs != [] && recs[0] !in damaged {
      FirstBadIs(recs[1..], damaged);
      var n := FirstBad(recs[1..], damaged);
      assert recs[..n + 1] == [recs[0]] + recs[1..][..n];
    }
  }

  /** A flush reads the segment: the records before the first damaged one are what it takes. */
  function MarkRead(g: Log, id: nat): Log
    requires id in g.wal
  {
    g.(wal := g.wal[id := g.wal[id].(read := Took(FirstBad(Recs(g.wal[id]), g.damaged)))])
  }

  lemma MarkReadKeeps(g: Log, id: nat)
    requires Good(g) && id in g.wal
    ensures Good(MarkRead(g, id))
  {
    hide Justified, Births;
    var h := MarkRead(g, id);
    assert Recs(h.wal[id]) == Recs(g.wal[id]);
    BirthsKept(g, h);
    assert forall x, p :: At(h, x, p) <==> At(g, x, p);
    forall x | x in h.durable ensures Somewhere(h, x) { StillSomewhere(g, h, x); }
  }
}
