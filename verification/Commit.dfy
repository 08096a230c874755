/**
 * The commit point of a flush: one write of the watermark turns a plan for the
 * segments it passes into what became of their records.
 */
module Commit {
  import opened Ledger

  function Join(a: Plan, b: Plan): Plan {
    Plan(a.files + b.files, a.rejected + b.rejected, a.skipped + b.skipped, a.duplicates + b.duplicates)
  }

  const NOTHING: Plan := Plan(map[], {}, {}, {})

  /** The record is in a segment of `wal/` after `lo`, up to `hi`. */
  ghost predicate Between(g: Log, r: Rec, lo: nat, hi: nat) {
    exists id :: id in g.wal && lo < id <= hi && r in Recs(g.wal[id])
  }

  ghost predicate PlanOnce(p: Plan) { forall r, a, b :: PlanAt(p, r, a) && PlanAt(p, r, b) ==> a == b }

  /**
   * The plan accounts for exactly the records of the segments after `lo`, up to `hi`: each has one
   * verdict and nothing else has any. All of those segments were read, and the files carry names of
   * that range.
   */
  ghost predicate PlanFor(g: Log, p: Plan, lo: nat, hi: nat) {
    && PlanOnce(p)
    && (forall r :: Between(g, r, lo, hi) <==> Resolved(p, r))
    && (forall id :: id in g.wal && lo < id <= hi ==> g.wal[id].read.Took?)
    && (forall k :: k in p.files ==> lo < k.last <= hi)
    && Justified(p, g.damaged)
  }

  function CommitPlan(g: Log, w: nat, p: Plan): Log { g.(watermark := w, done := Join(g.done, p)) }

  /** File names of the two plans differ, so joining them keeps both. */
  ghost predicate NamesApart(a: Plan, b: Plan) { forall k :: k in a.files ==> k !in b.files }

  lemma JoinPlaces(a: Plan, b: Plan, r: Rec, at: Place)
    requires NamesApart(a, b)
    ensures PlanAt(Join(a, b), r, at) <==> PlanAt(a, r, at) || PlanAt(b, r, at)
  {
  }

  lemma JoinResolves(a: Plan, b: Plan, r: Rec)
    requires NamesApart(a, b)
    ensures Resolved(Join(a, b), r) <==> Resolved(a, r) || Resolved(b, r)
  {
    hide PlanAt;
    forall at ensures PlanAt(Join(a, b), r, at) <==> PlanAt(a, r, at) || PlanAt(b, r, at) { JoinPlaces(a, b, r, at); }
  }

  lemma JoinJustified(a: Plan, b: Plan, damaged: set<Rec>)
    requires NamesApart(a, b) && Justified(a, damaged) && Justified(b, damaged)
    ensures Justified(Join(a, b), damaged)
  {
    var j := Join(a, b);
    forall r | r in j.duplicates ensures HasTwin(j.files, r) {
      if r in a.duplicates {
        var k, w :| k in a.files && w in a.files[k] && w.key == r.key && w != r;
        assert k in j.files && w in j.files[k];
      } else {
        var k, w :| k in b.files && w in b.files[k] && w.key == r.key && w != r;
        assert k in j.files && w in j.files[k];
      }
    }
  }

  /** Plans over adjacent ranges join into a plan over both. */
  lemma JoinPlans(g: Log, a: Plan, b: Plan, lo: nat, mid: nat, hi: nat)
    requires Once(g) && g.watermark <= lo <= mid <= hi && PlanFor(g, a, lo, mid) && PlanFor(g, b, mid, hi)
    ensures PlanFor(g, Join(a, b), lo, hi) && NamesApart(a, b)
  {
    hide PlanAt, Justified, Join, At;
    assert NamesApart(a, b);
    JoinJustified(a, b, g.damaged);
    forall r ensures Between(g, r, lo, hi) <==> Resolved(Join(a, b), r) {
      JoinResolves(a, b, r);
      SplitRange(g, r, lo, mid, hi);
    }
    JoinOnce(g, a, b, lo, mid, hi);
    assert forall k :: k in Join(a, b).files ==> k in a.files || k in b.files by { JoinNames(a, b); }
  }

  lemma JoinNames(a: Plan, b: Plan)
    ensures forall k :: k in Join(a, b).files <==> k in a.files || k in b.files
  {
  }

  lemma SplitRange(g: Log, r: Rec, lo: nat, mid: nat, hi: nat)
    requires lo <= mid <= hi
    ensures Between(g, r, lo, hi) <==> Between(g, r, lo, mid) || Between(g, r, mid, hi)
  {
    hide Recs;
  }

  /** A record lies on one side of `mid`. */
  lemma SidesApart(g: Log, r: Rec, lo: nat, mid: nat, hi: nat)
    requires Once(g) && g.watermark <= lo <= mid <= hi
    ensures !(Between(g, r, lo, mid) && Between(g, r, mid, hi))
  {
    if Between(g, r, lo, mid) && Between(g, r, mid, hi) {
      var i :| i in g.wal && lo < i <= mid && r in Recs(g.wal[i]);
      var j :| j in g.wal && mid < j <= hi && r in Recs(g.wal[j]);
      BothLive(g, r, i, j);
    }
  }

  lemma BothLive(g: Log, r: Rec, i: nat, j: nat)
    requires Once(g) && i in g.wal && j in g.wal && i > g.watermark && j > g.watermark
    requires r in Recs(g.wal[i]) && r in Recs(g.wal[j])
    ensures i == j
  {
    assert At(g, r, InWal(i)) && At(g, r, InWal(j));
  }

  lemma JoinOnce(g: Log, a: Plan, b: Plan, lo: nat, mid: nat, hi: nat)
    requires Once(g) && g.watermark <= lo <= mid <= hi && PlanFor(g, a, lo, mid) && PlanFor(g, b, mid, hi)
    ensures PlanOnce(Join(a, b))
  {
    hide PlanAt, Justified, Join, At, Between;
    assert NamesApart(a, b);
    forall r, p, q | PlanAt(Join(a, b), r, p) && PlanAt(Join(a, b), r, q) ensures p == q {
      JoinPlaces(a, b, r, p);
      JoinPlaces(a, b, r, q);
      assert Between(g, r, lo, mid) <==> Resolved(a, r);
      assert Between(g, r, mid, hi) <==> Resolved(b, r);
      SidesApart(g, r, lo, mid, hi);
    }
  }

  /** Committing a plan for everything after the old watermark keeps the accounting. */
  lemma CommitKeeps(g: Log, w: nat, p: Plan)
    requires Good(g) && g.watermark <= w && PlanFor(g, p, g.watermark, w)
    ensures Good(CommitPlan(g, w, p))
  {
    hide PlanAt, Justified, Join, At, Between, Once, Kept, Settled, Fresh, Births;
    assert NamesApart(g.done, p);
    JoinJustified(g.done, p, g.damaged);
    JoinNames(g.done, p);
    BirthsKept(g, CommitPlan(g, w, p));
    CommitPlaces(g, w, p);
    CommitOnce(g, w, p);
    CommitHolds(g, w, p);
  }

  /** After the commit: old places above the new watermark, old verdicts, and the plan's. */
  lemma CommitPlaces(g: Log, w: nat, p: Plan)
    requires g.watermark <= w && NamesApart(g.done, p)
    ensures forall r, at :: At(CommitPlan(g, w, p), r, at) <==>
              (At(g, r, at) && !(at.InWal? && at.id <= w)) || PlanAt(p, r, at)
  {
    hide Join;
    forall r, at
      ensures At(CommitPlan(g, w, p), r, at) <==> (At(g, r, at) && !(at.InWal? && at.id <= w)) || PlanAt(p, r, at)
    {
      JoinPlaces(g.done, p, r, at);
    }
  }

  /** What the plan gives a verdict was live, in a segment the commit passes. */
  lemma PlannedWasLive(g: Log, w: nat, p: Plan, r: Rec, at: Place) returns (id: nat)
    requires PlanFor(g, p, g.watermark, w) && PlanAt(p, r, at)
    ensures id <= w && At(g, r, InWal(id))
  {
    assert Resolved(p, r);
    assert Between(g, r, g.watermark, w);
    id :| id in g.wal && g.watermark < id <= w && r in Recs(g.wal[id]);
  }

  lemma CommitOnce(g: Log, w: nat, p: Plan)
    requires Once(g) && g.watermark <= w && PlanFor(g, p, g.watermark, w) && NamesApart(g.done, p)
    ensures Once(CommitPlan(g, w, p))
  {
    hide PlanAt, Justified, Join, At, Between;
    CommitPlaces(g, w, p);
    var h := CommitPlan(g, w, p);
    forall r, a, b | At(h, r, a) && At(h, r, b) ensures a == b {
      if PlanAt(p, r, a) { var i := PlannedWasLive(g, w, p, r, a); }
      if PlanAt(p, r, b) { var j := PlannedWasLive(g, w, p, r, b); }
    }
  }

  lemma CommitHolds(g: Log, w: nat, p: Plan)
    requires Good(g) && g.watermark <= w && PlanFor(g, p, g.watermark, w) && NamesApart(g.done, p)
    ensures Kept(CommitPlan(g, w, p)) && Settled(CommitPlan(g, w, p)) && Fresh(CommitPlan(g, w, p))
  {
    hide PlanAt, Justified, Join, At, Recs;
    CommitPlaces(g, w, p);
    var h := CommitPlan(g, w, p);
    forall r | r in h.durable ensures Somewhere(h, r) {
      var at :| At(g, r, at);
      if at.InWal? && at.id <= w {
        LiveBetween(g, r, at.id, w);
        var v :| PlanAt(p, r, v);
        assert At(h, r, v);
      } else {
        assert At(h, r, at);
      }
    }
    CommitSettles(g, w, p);
    forall r, at | At(h, r, at) ensures r.serial < g.next {
      if PlanAt(p, r, at) { var i := PlannedWasLive(g, w, p, r, at); }
    }
  }

  lemma LiveBetween(g: Log, r: Rec, id: nat, w: nat)
    requires At(g, r, InWal(id)) && id <= w
    ensures Between(g, r, g.watermark, w)
  {
  }

  lemma CommitSettles(g: Log, w: nat, p: Plan)
    requires Settled(g) && g.watermark <= w && PlanFor(g, p, g.watermark, w) && NamesApart(g.done, p)
    ensures Settled(CommitPlan(g, w, p))
  {
    hide PlanAt, Justified, Join, Recs, Resolved;
    var h := CommitPlan(g, w, p);
    forall id, r | id in h.wal && id <= w && r in Recs(h.wal[id]) ensures Resolved(h.done, r) {
      JoinResolves(g.done, p, r);
      assert id <= g.watermark || Between(g, r, g.watermark, w);
    }
  }

  /** A name committed now was never committed before. */
  lemma NamesNeverRepeat(g: Log, w: nat, p: Plan, k: Key)
    requires Good(g) && PlanFor(g, p, g.watermark, w) && k in p.files
    ensures k !in g.done.files && k.last <= w
  {
  }
}
