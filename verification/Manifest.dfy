/** The schema history of each series and how a config is folded into it (src/manifest.rs). */
module Manifest {
  import opened Bytes
  import opened Decimal
  import opened Columns

  datatype KeyDef = KeyDef(name: Text, ty: KeyType, nullable: bool)

  datatype EpochSchema = EpochSchema(epoch: nat, keys: seq<KeyDef>)

  /** Oldest first. */
  type History = seq<EpochSchema>

  datatype SeriesConfig = SeriesConfig(name: Text, keys: seq<KeyDef>)

  const EPOCH_MAX: nat := 0xffff_ffff

  // ---- what a config may contain --------------------------------------------------------

  ghost predicate KeysOnce(keys: seq<KeyDef>) {
    forall i, j :: 0 <= i < j < |keys| ==> keys[i].name != keys[j].name
  }

  ghost predicate ValidConfig(config: seq<SeriesConfig>) {
    && (forall i, j :: 0 <= i < j < |config| ==> config[i].name != config[j].name)
    && (forall i :: 0 <= i < |config| ==> KeysOnce(config[i].keys))
  }

  // ---- layouts ------------------------------------------------------------------------------

  predicate SameLayout(a: seq<KeyDef>, b: seq<KeyDef>) {
    |a| == |b| && forall i :: 0 <= i < |a| ==> a[i].name == b[i].name && a[i].ty == b[i].ty
  }

  ghost predicate Agree(a: seq<KeyDef>, b: seq<KeyDef>) {
    forall i, j :: 0 <= i < |a| && 0 <= j < |b| && a[i].name == b[j].name ==> a[i].ty == b[j].ty
  }

  /** No key of `keys` had another type in any epoch. */
  ghost predicate NoRetype(h: History, keys: seq<KeyDef>) {
    forall e :: 0 <= e < |h| ==> Agree(h[e].keys, keys)
  }

  /** Epochs are `0..n-1`, and a key name has one type across all of them. */
  ghost predicate HistoryOk(h: History) {
    && |h| <= EPOCH_MAX + 1 && (forall i :: 0 <= i < |h| ==> h[i].epoch == i)
    && (forall i, j :: 0 <= i < |h| && 0 <= j < |h| ==> Agree(h[i].keys, h[j].keys))
  }

  /** Every epoch of `a` is in `b` with its names, order and types. */
  ghost predicate HistoryExtends(a: History, b: History) {
    |a| <= |b| && forall i :: 0 <= i < |a| ==> a[i].epoch == b[i].epoch && SameLayout(a[i].keys, b[i].keys)
  }

  // ---- folding one series' keys --------------------------------------------------------------

  /** The keys are not the newest epoch's, name by name and type by type; whether a key may be null does not count. */
  ghost predicate NewLayout(h: History, keys: seq<KeyDef>) {
    || h == []
    || |h[|h| - 1].keys| != |keys|
    || exists i :: 0 <= i < |keys| && (h[|h| - 1].keys[i].name != keys[i].name || h[|h| - 1].keys[i].ty != keys[i].ty)
  }

  /** A layout that needs an epoch where the last one possible is taken. */
  function Exhausts(h: History, keys: seq<KeyDef>): (r: bool)
    ensures r <==> h != [] && NewLayout(h, keys) && h[|h| - 1].epoch >= 0xffff_ffff
  {
    h != [] && !SameLayout(h[|h| - 1].keys, keys) && h[|h| - 1].epoch >= EPOCH_MAX
  }

  /** The same layout keeps its epoch, whatever became nullable; another layout mints one. */
  function Fold(h: History, keys: seq<KeyDef>): History {
    if h != [] && SameLayout(h[|h| - 1].keys, keys) then h[..|h| - 1] + [h[|h| - 1].(keys := keys)]
    else h + [EpochSchema(if h == [] then 0 else h[|h| - 1].epoch + 1, keys)]
  }

  lemma AgreeSymmetric(a: seq<KeyDef>, b: seq<KeyDef>)
    ensures Agree(a, b) <==> Agree(b, a)
  {
  }

  lemma AgreeWithItself(keys: seq<KeyDef>)
    requires KeysOnce(keys)
    ensures Agree(keys, keys)
  {
  }

  /** Folding accepted keys keeps a good history good, changes no epoch's layout, and ends in those keys. */
  lemma FoldKeeps(h: History, keys: seq<KeyDef>)
    requires HistoryOk(h) && KeysOnce(keys) && NoRetype(h, keys) && !Exhausts(h, keys)
    ensures var r := Fold(h, keys);
            HistoryOk(r) && HistoryExtends(h, r) && r != [] && r[|r| - 1].keys == keys
  {
    hide Agree, KeysOnce;
    var r := Fold(h, keys);
    AgreeWithItself(keys);
    forall i | 0 <= i < |r| ensures Agree(r[i].keys, keys) && Agree(keys, r[i].keys) {
      if i < |h| && r[i] == h[i] { assert Agree(h[i].keys, keys); }
      AgreeSymmetric(r[i].keys, keys);
    }
    forall i, j | 0 <= i < |r| && 0 <= j < |r| ensures Agree(r[i].keys, r[j].keys) {
      if r[i].keys != keys && r[j].keys != keys { assert Agree(h[i].keys, h[j].keys); }
    }
  }

  /** Folding the same keys again changes nothing. */
  lemma FoldTwice(h: History, keys: seq<KeyDef>)
    ensures Fold(Fold(h, keys), keys) == Fold(h, keys)
  {
    var r := Fold(h, keys);
    assert r[..|r| - 1] + [r[|r| - 1]] == r;
  }

  lemma ExtendsTransitive(a: History, b: History, c: History)
    requires HistoryExtends(a, b) && HistoryExtends(b, c)
    ensures HistoryExtends(a, c)
  {
    forall i | 0 <= i < |a| ensures a[i].epoch == c[i].epoch && SameLayout(a[i].keys, c[i].keys) {
      assert SameLayout(a[i].keys, b[i].keys) && SameLayout(b[i].keys, c[i].keys);
    }
  }

  // ---- lookups ----------------------------------------------------------------------------------

  type Histories = map<Text, History>

  function CurrentEpoch(m: Histories, series: Text): Option<nat> {
    if series in m && m[series] != [] then Some(m[series][|m[series]| - 1].epoch) else None
  }

  function FindEpoch(h: History, epoch: nat): Option<seq<KeyDef>> {
    if h == [] then None else if h[0].epoch == epoch then Some(h[0].keys) else FindEpoch(h[1..], epoch)
  }

  function Schema(m: Histories, series: Text, epoch: nat): Option<seq<KeyDef>> {
    if series in m then FindEpoch(m[series], epoch) else None
  }

  lemma {:induction false} FindAt(h: History, epoch: nat, base: nat)
    requires forall i :: 0 <= i < |h| ==> h[i].epoch == base + i
    ensures FindEpoch(h, epoch) == if base <= epoch < base + |h| then Some(h[epoch - base].keys) else None
    decreases |h|
  {
    if h != [] { FindAt(h[1..], epoch, base + 1); }
  }

  ghost predicate AllOk(m: Histories) { forall s :: s in m ==> HistoryOk(m[s]) }

  /** An epoch has a schema exactly when it is not past the current one. */
  lemma KnownUpToCurrent(m: Histories, series: Text, epoch: nat)
    requires AllOk(m)
    ensures Schema(m, series, epoch).Some? <==> CurrentEpoch(m, series).Some? && epoch <= CurrentEpoch(m, series).value
    ensures Schema(m, series, epoch).Some? ==>
              epoch < |m[series]| && Schema(m, series, epoch).value == m[series][epoch].keys
  {
    hide Agree;
    if series in m { FindAt(m[series], epoch, 0); }
  }

  // ---- reconcile -----------------------------------------------------------------------------------

  function HistoryOf(m: Histories, series: Text): History { if series in m then m[series] else [] }

  /** Every series of the config folded in. */
  function FoldAll(m: Histories, config: seq<SeriesConfig>): Histories {
    if config == [] then m
    else
      var n := |config| - 1;
      var f := FoldAll(m, config[..n]);
      f[config[n].name := Fold(HistoryOf(f, config[n].name), config[n].keys)]
  }

  ghost predicate Retypes(m: Histories, config: seq<SeriesConfig>) {
    exists i :: 0 <= i < |config| && !NoRetype(HistoryOf(m, config[i].name), config[i].keys)
  }

  /** A config naming each series once folds each from the history it had before. */
  lemma {:induction false} FoldAllUntouched(m: Histories, config: seq<SeriesConfig>, name: Text)
    requires forall i :: 0 <= i < |config| ==> config[i].name != name
    ensures HistoryOf(FoldAll(m, config), name) == HistoryOf(m, name)
    ensures name in FoldAll(m, config) <==> name in m
  {
    if config != [] { FoldAllUntouched(m, config[..|config| - 1], name); }
  }

  lemma {:induction false} FoldAllAt(m: Histories, config: seq<SeriesConfig>, i: nat)
    requires ValidConfig(config) && i < |config|
    ensures var f := FoldAll(m, config);
            config[i].name in f && f[config[i].name] == Fold(HistoryOf(m, config[i].name), config[i].keys)
    decreases |config|
  {
    hide Fold, KeysOnce;
    var init := config[..|config| - 1];
    assert ValidConfig(init);
    if i == |config| - 1 {
      FoldAllUntouched(m, init, config[i].name);
    } else {
      FoldAllAt(m, init, i);
      assert init[i] == config[i];
    }
  }

  /** What an accepted config makes of one history: `keys` in its newest epoch, minted exactly for a new layout. */
  ghost predicate Took(h: History, keys: seq<KeyDef>, r: History) {
    && r != [] && r[|r| - 1].keys == keys
    && (NewLayout(h, keys) ==> r[..|r| - 1] == h && r[|r| - 1].epoch == if h == [] then 0 else h[|h| - 1].epoch + 1)
    && (!NewLayout(h, keys) ==>
          |r| == |h| && r[..|r| - 1] == h[..|h| - 1] && r[|r| - 1].epoch == h[|h| - 1].epoch)
  }

  lemma FoldTook(h: History, keys: seq<KeyDef>)
    ensures Took(h, keys, Fold(h, keys))
  {
    var r := Fold(h, keys);
    if h != [] { assert SameLayout(h[|h| - 1].keys, keys) <==> !NewLayout(h, keys); }
    assert r[..|r| - 1] == if NewLayout(h, keys) then h else h[..|h| - 1];
  }

  /** Every series of the config took its keys, and no other changed. */
  ghost predicate AllTook(m: Histories, config: seq<SeriesConfig>, f: Histories) {
    && (forall i :: 0 <= i < |config| ==>
          config[i].name in f && Took(HistoryOf(m, config[i].name), config[i].keys, f[config[i].name]))
    && (forall s :: (forall i :: 0 <= i < |config| ==> config[i].name != s) ==>
          (s in f <==> s in m) && HistoryOf(f, s) == HistoryOf(m, s))
  }

  lemma FoldAllTook(m: Histories, config: seq<SeriesConfig>)
    requires ValidConfig(config)
    ensures AllTook(m, config, FoldAll(m, config))
  {
    hide Took, FoldAll, Fold, KeysOnce;
    forall i | 0 <= i < |config|
      ensures config[i].name in FoldAll(m, config)
      ensures Took(HistoryOf(m, config[i].name), config[i].keys, FoldAll(m, config)[config[i].name])
    {
      FoldAllAt(m, config, i);
      FoldTook(HistoryOf(m, config[i].name), config[i].keys);
    }
    forall s | forall i :: 0 <= i < |config| ==> config[i].name != s
      ensures (s in FoldAll(m, config) <==> s in m) && HistoryOf(FoldAll(m, config), s) == HistoryOf(m, s)
    {
      FoldAllUntouched(m, config, s);
    }
  }

  /** The series is new, or its keys are not those of its newest epoch. */
  predicate Alters(m: Histories, s: SeriesConfig) {
    var h := HistoryOf(m, s.name);
    h == [] || h[|h| - 1].keys != s.keys
  }

  /** The first series with no epoch left for its new layout. */
  ghost predicate FirstExhausted(m: Histories, config: seq<SeriesConfig>, at: nat) {
    && at < |config| && Exhausts(HistoryOf(m, config[at].name), config[at].keys)
    && (forall k :: 0 <= k < at ==> !Exhausts(HistoryOf(m, config[k].name), config[k].keys))
  }

  lemma NothingFolded(m: Histories)
    ensures FoldAll(m, []) == m
  {
  }

  lemma FoldAllStep(m: Histories, config: seq<SeriesConfig>, n: nat)
    requires n < |config|
    ensures var f, s := FoldAll(m, config[..n]), config[n];
            FoldAll(m, config[..n + 1]) == f[s.name := Fold(HistoryOf(f, s.name), s.keys)]
  {
    hide Fold;
    assert config[..n + 1][..n] == config[..n];
  }

  lemma FoldedNotEmpty(h: History, keys: seq<KeyDef>)
    ensures Fold(h, keys) != []
  {
  }

  /** Folding changes a history exactly when the config alters the series. */
  lemma FoldChanges(m: Histories, s: SeriesConfig)
    ensures Fold(HistoryOf(m, s.name), s.keys) != HistoryOf(m, s.name) <==> Alters(m, s)
  {
    var h := HistoryOf(m, s.name);
    if h != [] && h[|h| - 1].keys == s.keys { assert h[..|h| - 1] + [h[|h| - 1]] == h; }
  }

  /** Folding the first series of a config changes something exactly when it alters one of them. */
  lemma PartialFoldChanges(m: Histories, config: seq<SeriesConfig>, at: nat)
    requires ValidConfig(config) && at <= |config|
    ensures FoldAll(m, config[..at]) != m <==> exists k :: 0 <= k < at && Alters(m, config[k])
  {
    hide Fold, Alters, KeysOnce;
    var part, f := config[..at], FoldAll(m, config[..at]);
    assert ValidConfig(part);
    forall k | 0 <= k < at
      ensures part[k] == config[k] && config[k].name in f
      ensures f[config[k].name] == Fold(HistoryOf(m, config[k].name), config[k].keys)
    {
      FoldAllAt(m, part, k);
    }
    if k :| 0 <= k < at && Alters(m, config[k]) {
      FoldChanges(m, config[k]);
      assert HistoryOf(f, config[k].name) != HistoryOf(m, config[k].name);
    } else {
      forall s ensures (s in f <==> s in m) && HistoryOf(f, s) == HistoryOf(m, s) { UnalteredSeries(m, config, at, s); }
      assert f == m;
    }
  }

  lemma UnalteredSeries(m: Histories, config: seq<SeriesConfig>, at: nat, s: Text)
    requires ValidConfig(config) && at <= |config| && forall k :: 0 <= k < at ==> !Alters(m, config[k])
    ensures var f := FoldAll(m, config[..at]); (s in f <==> s in m) && HistoryOf(f, s) == HistoryOf(m, s)
  {
    hide Fold, FoldAll, KeysOnce;
    var part := config[..at];
    assert ValidConfig(part) && forall k :: 0 <= k < at ==> part[k] == config[k];
    if k :| 0 <= k < at && config[k].name == s {
      FoldAllAt(m, part, k);
      FoldChanges(m, config[k]);
    } else {
      FoldAllUntouched(m, part, s);
    }
  }

  datatype Reconciled = Done(changed: bool) | Retyped | Exhausted(at: nat)

  /** Look every past key up in the new ones. */
  method CheckNoRetype(h: History, keys: seq<KeyDef>) returns (ok: bool)
    ensures ok <==> NoRetype(h, keys)
  {
    for e := 0 to |h|
      invariant forall k :: 0 <= k < e ==> Agree(h[k].keys, keys)
    {
      for i := 0 to |h[e].keys|
        invariant forall a, b :: 0 <= a < i && 0 <= b < |keys| && h[e].keys[a].name == keys[b].name ==>
                    h[e].keys[a].ty == keys[b].ty
      {
        var past := h[e].keys[i];
        for j := 0 to |keys|
          invariant forall b :: 0 <= b < j && past.name == keys[b].name ==> past.ty == keys[b].ty
        {
          if keys[j].name == past.name && keys[j].ty != past.ty {
            assert !Agree(h[e].keys, keys);
            return false;
          }
        }
      }
    }
    ok := true;
  }

  class Manifest {
    var series: Histories
    var lastFlushedSegment: nat

    /**
     * Fold a config into the history. A refused retype leaves everything as it was; running out of
     * epochs is noticed at the first such series, with the ones before it already folded. So an error
     * leaves the histories changed exactly when nothing retypes and the config alters a series before
     * the first exhausted one.
     */
    method Reconcile(config: seq<SeriesConfig>) returns (r: Reconciled)
      requires ValidConfig(config)
      modifies `series
      ensures r.Retyped? <==> Retypes(old(series), config)
      ensures r.Retyped? ==> series == old(series)
      ensures r.Done? ==> series == FoldAll(old(series), config) && AllTook(old(series), config, series)
      ensures r.Done? ==> forall i :: 0 <= i < |config| ==>
                !Exhausts(HistoryOf(old(series), config[i].name), config[i].keys)
      ensures r.Exhausted? <==> !Retypes(old(series), config) && exists at :: FirstExhausted(old(series), config, at)
      ensures r.Exhausted? ==> FirstExhausted(old(series), config, r.at)
      ensures r.Exhausted? ==> series == FoldAll(old(series), config[..r.at])
      ensures r.Exhausted? ==> AllTook(old(series), config[..r.at], series)
      ensures !r.Done? ==>
                (series != old(series) <==>
                 !Retypes(old(series), config)
                 && exists at, k :: FirstExhausted(old(series), config, at) && 0 <= k < at
                      && Alters(old(series), config[k]))
      ensures r.Done? ==> (r.changed <==> series != old(series))
    {
      hide NoRetype, Fold, FoldAll, SameLayout, KeysOnce, Exhausts, Alters, AllTook, NewLayout;
      for i := 0 to |config|
        invariant forall k :: 0 <= k < i ==> NoRetype(HistoryOf(series, config[k].name), config[k].keys)
        invariant series == old(series)
      {
        var ok := CheckNoRetype(HistoryOf(series, config[i].name), config[i].keys);
        if !ok { return Retyped; }
      }
      var changed := false;
      NothingFolded(series);
      assert config[..0] == [];
      for n := 0 to |config|
        invariant series == FoldAll(old(series), config[..n])
        invariant !Retypes(old(series), config)
        invariant forall k :: 0 <= k < n ==> !Exhausts(HistoryOf(old(series), config[k].name), config[k].keys)
        invariant changed <==> exists k :: 0 <= k < n && Alters(old(series), config[k])
      {
        var name, keys := config[n].name, config[n].keys;
        FoldAllUntouched(old(series), config[..n], name);
        FoldAllStep(old(series), config, n);
        var h := HistoryOf(series, name);
        if Exhausts(h, keys) {
          PartialFoldChanges(old(series), config, n);
          FoldAllTook(old(series), config[..n]);
          assert FirstExhausted(old(series), config, n);
          return Exhausted(n);
        }
        var folded := Fold(h, keys);
        FoldChanges(old(series), config[n]);
        FoldedNotEmpty(h, keys);
        assert name !in series || folded != h <==> Alters(old(series), config[n]);
        if name !in series || folded != h { changed := true; }
        series := series[name := folded];
      }
      assert config[..|config|] == config;
      PartialFoldChanges(old(series), config, |config|);
      FoldAllTook(old(series), config);
      r := Done(changed);
    }
  }

  /**
   * "All or nothing" fails: a config that first adds a series and then gives a new layout to one whose
   * epochs are used up is refused, with the new series already in the histories.
   */
  lemma PartialFold() returns (m: Histories, config: seq<SeriesConfig>)
    ensures AllOk(m) && ValidConfig(config) && !Retypes(m, config)
    ensures FirstExhausted(m, config, 1) && FoldAll(m, config[..1]) != m
  {
    hide FoldAll, Fold;
    var key := KeyDef([7], BoolKey, true);
    var h := seq(EPOCH_MAX + 1, i requires 0 <= i <= EPOCH_MAX => EpochSchema(i, if i % 2 == 0 then [] else [key]));
    m, config := map[[2] := h], [SeriesConfig([1], []), SeriesConfig([2], [])];
    assert h[EPOCH_MAX].keys == [key];
    assert Alters(m, config[0]);
    PartialFoldChanges(m, config, 1);
  }

  // ---- over many configs ------------------------------------------------------------------------------

  ghost predicate Extends(a: Histories, b: Histories) {
    forall s :: s in a ==> s in b && HistoryExtends(a[s], b[s])
  }

  /** What an accepted config does to every series, named in it or not. */
  lemma AcceptedKeeps(m: Histories, config: seq<SeriesConfig>)
    requires AllOk(m) && ValidConfig(config) && !Retypes(m, config)
    requires forall i :: 0 <= i < |config| ==> !Exhausts(HistoryOf(m, config[i].name), config[i].keys)
    ensures AllOk(FoldAll(m, config)) && Extends(m, FoldAll(m, config))
    ensures forall i :: 0 <= i < |config| ==>
              var h := HistoryOf(FoldAll(m, config), config[i].name); h != [] && h[|h| - 1].keys == config[i].keys
  {
    hide FoldAll, Fold, HistoryOk, HistoryExtends, NoRetype, Exhausts, KeysOnce;
    var f := FoldAll(m, config);
    forall i | 0 <= i < |config|
      ensures config[i].name in f && HistoryOk(f[config[i].name])
      ensures HistoryExtends(HistoryOf(m, config[i].name), f[config[i].name])
      ensures var h := HistoryOf(f, config[i].name); h != [] && h[|h| - 1].keys == config[i].keys
    {
      FoldAllAt(m, config, i);
      EmptyHistoryOk();
      FoldKeeps(HistoryOf(m, config[i].name), config[i].keys);
    }
    forall s | s in m || s in f ensures s in f && HistoryOk(f[s]) && (s in m ==> HistoryExtends(m[s], f[s])) {
      if i :| 0 <= i < |config| && config[i].name == s {
      } else {
        FoldAllUntouched(m, config, s);
        ExtendsItself(m[s]);
      }
    }
  }

  lemma EmptyHistoryOk()
    ensures HistoryOk([])
  {
  }

  lemma ExtendsItself(h: History)
    ensures HistoryExtends(h, h)
  {
  }

  /** The histories after each of a sequence of accepted configs. */
  ghost predicate AcceptedRun(states: seq<Histories>, configs: seq<seq<SeriesConfig>>) {
    && |states| == |configs| + 1 && states[0] == map[]
    && forall n :: 0 <= n < |configs| ==>
         && ValidConfig(configs[n]) && !Retypes(states[n], configs[n])
         && (forall i :: 0 <= i < |configs[n]| ==>
              !Exhausts(HistoryOf(states[n], configs[n][i].name), configs[n][i].keys))
         && states[n + 1] == FoldAll(states[n], configs[n])
  }

  lemma {:induction false} RunOk(states: seq<Histories>, configs: seq<seq<SeriesConfig>>, n: nat)
    requires AcceptedRun(states, configs) && n <= |configs|
    ensures AllOk(states[n])
  {
    hide ValidConfig, Retypes, Exhausts, FoldAll, HistoryOk;
    if n > 0 {
      RunOk(states, configs, n - 1);
      AcceptedKeeps(states[n - 1], configs[n - 1]);
    }
  }

  /** Over every sequence of accepted configs: an epoch once minted keeps its names, order and types. */
  lemma {:induction false} HistoryOnlyGrows(states: seq<Histories>, configs: seq<seq<SeriesConfig>>, m: nat, n: nat)
    requires AcceptedRun(states, configs) && m <= n <= |configs|
    ensures AllOk(states[m]) && AllOk(states[n]) && Extends(states[m], states[n])
    decreases n
  {
    hide ValidConfig, Retypes, Exhausts, FoldAll, HistoryOk, HistoryExtends;
    RunOk(states, configs, m);
    RunOk(states, configs, n);
    if m == n {
      forall s | s in states[m] ensures HistoryExtends(states[m][s], states[n][s]) { ExtendsItself(states[m][s]); }
    } else {
      HistoryOnlyGrows(states, configs, m, n - 1);
      AcceptedKeeps(states[n - 1], configs[n - 1]);
      forall s | s in states[m] ensures s in states[n] && HistoryExtends(states[m][s], states[n][s]) {
        ExtendsTransitive(states[m][s], states[n - 1][s], states[n][s]);
      }
    }
  }

  /** An epoch known to a manifest has the same layout in every later one. */
  lemma SchemaKept(m: Histories, later: Histories, series: Text, epoch: nat)
    requires AllOk(m) && AllOk(later) && Extends(m, later) && Schema(m, series, epoch).Some?
    ensures Schema(later, series, epoch).Some?
    ensures SameLayout(Schema(m, series, epoch).value, Schema(later, series, epoch).value)
  {
    hide Agree, SameLayout;
    FindAt(m[series], epoch, 0);
    FindAt(later[series], epoch, 0);
  }

  /** The same config again is accepted and changes nothing. */
  lemma ReconcileTwice(m: Histories, config: seq<SeriesConfig>)
    requires AllOk(m) && ValidConfig(config) && !Retypes(m, config)
    requires forall i :: 0 <= i < |config| ==> !Exhausts(HistoryOf(m, config[i].name), config[i].keys)
    ensures var f := FoldAll(m, config); !Retypes(f, config) && FoldAll(f, config) == f
  {
    hide FoldAll, Fold, NoRetype, Exhausts, KeysOnce;
    var f := FoldAll(m, config);
    AcceptedKeeps(m, config);
    forall i | 0 <= i < |config| ensures NoRetype(HistoryOf(f, config[i].name), config[i].keys) {
      LastAgrees(HistoryOf(f, config[i].name), config[i].keys);
    }
    forall s ensures (s in FoldAll(f, config) <==> s in f) && HistoryOf(FoldAll(f, config), s) == HistoryOf(f, s) {
      if i :| 0 <= i < |config| && config[i].name == s {
        FoldAllAt(m, config, i);
        FoldAllAt(f, config, i);
        FoldTwice(HistoryOf(m, s), config[i].keys);
      } else {
        FoldAllUntouched(f, config, s);
      }
    }
    assert FoldAll(f, config) == f;
  }

  lemma LastAgrees(h: History, keys: seq<KeyDef>)
    requires HistoryOk(h) && h != [] && h[|h| - 1].keys == keys
    ensures NoRetype(h, keys)
  {
    hide Agree;
  }
}
