/** Properties of the metric store of prometheus/metric.go, stated over the
    value model: what an update does to the series it targets and to every
    other series, the invariant entries keep, what a run of observations
    accumulates, and what collection emits. */
module Properties {
  import opened Kinds
  import opened Model
  import Naming

  // ---------------------------------------------------------------------------
  // Series

  /** The state a lookup starts from: the existing one, or a fresh one. */
  function Prior(o: Option<StateVal>, l: Labels): (r: StateVal)
    ensures r.labels == (if o.Some? then o.value.labels else l)
  {
    match o
    case Some(s) => s
    case None => NewState(l)
  }

  /** The position of `l` after appending `x`: where it was, or at the end
      when only `x` holds it. */
  lemma PositionSnoc(ls: seq<Labels>, x: Labels, l: Labels)
    ensures Position(ls + [x], l) ==
      if Position(ls, l).Some? then Position(ls, l) else if x == l then Some(|ls|) else None
  {
    var ls' := ls + [x];
    assert forall j :: 0 <= j < |ls| ==> ls'[j] == ls[j];
    match Position(ls, l)
    case Some(i) =>
      assert ls'[i] == l;
    case None =>
      if x == l {
        assert ls'[|ls|] == l;
      }
  }

  /** The chain under the hash of `m.labels` after `update(m)`, defined
      directly: the state of `m.labels` stepped where it is, or a stepped
      fresh state chained at the end. */
  function Stepped(c: seq<StateVal>, m: Metric, bounds: seq<real>, ftoa: real -> string): (r: seq<StateVal>)
    ensures Position(LabelsOf(c), m.labels).Some? ==> LabelsOf(r) == LabelsOf(c)
    ensures Position(LabelsOf(c), m.labels).None? ==> LabelsOf(r) == LabelsOf(c) + [m.labels]
    ensures forall j :: 0 <= j < |c| && c[j].labels != m.labels ==> r[j] == c[j]
  {
    match Position(LabelsOf(c), m.labels)
    case Some(i) =>
      var s := StateStep(c[i], m.kind, m.value, m.time, bounds, ftoa);
      assert LabelsOf(c[i := s]) == LabelsOf(c) by {
        assert forall j :: 0 <= j < |c| ==> c[i := s][j].labels == c[j].labels;
      }
      c[i := s]
    case None =>
      var s := StateStep(NewState(m.labels), m.kind, m.value, m.time, bounds, ftoa);
      assert LabelsOf(c + [s]) == LabelsOf(c) + [m.labels] by {
        assert forall j :: 0 <= j < |c| ==> (c + [s])[j] == c[j];
      }
      c + [s]
  }

  /** `update(m)` replaces the chain under the hash of `m.labels` by its
      `Stepped` form and changes nothing else of the entry. */
  lemma UpdateIsStepped(e: EntryVal, hash: Labels -> Hash, ftoa: real -> string, m: Metric, bounds: seq<real>)
    ensures EntryUpdate(e, hash, ftoa, m, bounds)
      == e.(chains := e.chains[hash(m.labels) := Stepped(Chain(e, hash(m.labels)), m, bounds, ftoa)])
  {
    var k := hash(m.labels);
    var c0 := Chain(e, k);
    var i := LookupIndex(e, hash, m.labels);
    var s := StateStep(EntryLookup(e, hash, m.labels).chains[k][i], m.kind, m.value, m.time, bounds, ftoa);
    match Position(LabelsOf(c0), m.labels)
    case Some(j) =>
      assert EntryLookup(e, hash, m.labels) == e && i == j && k in e.chains;
    case None =>
      var n := NewState(m.labels);
      assert EntryLookup(e, hash, m.labels).chains == e.chains[k := c0 + [n]];
      assert (c0 + [n])[|c0| := s] == c0 + [s];
      assert e.chains[k := c0 + [n]][k := c0 + [s]] == e.chains[k := c0 + [s]];
  }

  /** After `update(m)` the series of `m.labels` holds the update applied to
      what it held before, or to a fresh state when it did not exist. */
  lemma SeriesAfterUpdate(e: EntryVal, hash: Labels -> Hash, ftoa: real -> string, m: Metric, bounds: seq<real>)
    ensures Series(EntryUpdate(e, hash, ftoa, m, bounds), hash, m.labels)
      == Some(StateStep(Prior(Series(e, hash, m.labels), m.labels), m.kind, m.value, m.time, bounds, ftoa))
  {
    UpdateIsStepped(e, hash, ftoa, m, bounds);
    var c0 := Chain(e, hash(m.labels));
    var r := Stepped(c0, m, bounds, ftoa);
    assert Chain(EntryUpdate(e, hash, ftoa, m, bounds), hash(m.labels)) == r;
    match Position(LabelsOf(c0), m.labels)
    case Some(i) =>
      assert r[i] == StateStep(c0[i], m.kind, m.value, m.time, bounds, ftoa);
    case None =>
      PositionSnoc(LabelsOf(c0), m.labels, m.labels);
      assert r[|c0|] == StateStep(NewState(m.labels), m.kind, m.value, m.time, bounds, ftoa);
  }

  /** `update(m)` leaves every other series of the entry as it was, also one
      whose labels hash like `m.labels`. */
  lemma OtherSeriesUnchanged(e: EntryVal, hash: Labels -> Hash, ftoa: real -> string, m: Metric, bounds: seq<real>, l: Labels)
    requires l != m.labels
    ensures Series(EntryUpdate(e, hash, ftoa, m, bounds), hash, l) == Series(e, hash, l)
  {
    UpdateIsStepped(e, hash, ftoa, m, bounds);
    var k := hash(m.labels);
    var u := EntryUpdate(e, hash, ftoa, m, bounds);
    if hash(l) == k {
      var c0 := Chain(e, k);
      var r := Stepped(c0, m, bounds, ftoa);
      assert Chain(u, k) == r;
      if Position(LabelsOf(c0), m.labels).None? {
        PositionSnoc(LabelsOf(c0), m.labels, l);
      }
      match Position(LabelsOf(c0), l)
      case None =>
      case Some(j) =>
        assert r[j] == c0[j];
    } else {
      assert Chain(u, hash(l)) == Chain(e, hash(l));
    }
  }

  /** `update` keeps the entry invariant: every state in the chain of its
      own hash and no label set twice in a chain. */
  lemma UpdateKeepsWellFormed(e: EntryVal, hash: Labels -> Hash, ftoa: real -> string, m: Metric, bounds: seq<real>)
    requires WellFormed(e, hash)
    ensures WellFormed(EntryUpdate(e, hash, ftoa, m, bounds), hash)
  {
    UpdateIsStepped(e, hash, ftoa, m, bounds);
    var k := hash(m.labels);
    var c0 := Chain(e, k);
    var r := Stepped(c0, m, bounds, ftoa);
    var u := EntryUpdate(e, hash, ftoa, m, bounds);
    assert u.chains == e.chains[k := r];
    forall kk, j | kk in u.chains && 0 <= j < |u.chains[kk]|
      ensures hash(u.chains[kk][j].labels) == kk
    {
      if kk == k {
        assert u.chains[kk][j].labels == LabelsOf(r)[j];
        if j < |c0| {
          assert LabelsOf(r)[j] == e.chains[k][j].labels;
        }
      }
    }
    forall kk, j1, j2 | kk in u.chains && 0 <= j1 < j2 < |u.chains[kk]|
      ensures u.chains[kk][j1].labels != u.chains[kk][j2].labels
    {
      if kk == k {
        assert u.chains[kk][j1].labels == LabelsOf(r)[j1] && u.chains[kk][j2].labels == LabelsOf(r)[j2];
        if j2 < |c0| {
          assert LabelsOf(r)[j1] == e.chains[k][j1].labels && LabelsOf(r)[j2] == e.chains[k][j2].labels;
        } else {
          assert LabelsOf(r)[j1] == LabelsOf(c0)[j1];
        }
      }
    }
  }

  /** In a well-formed entry two states with the same labels are the same
      state: at most one state per series, whatever the hash collides. */
  lemma WellFormedUnique(e: EntryVal, hash: Labels -> Hash, k1: Hash, i1: nat, k2: Hash, i2: nat)
    requires WellFormed(e, hash)
    requires k1 in e.chains && i1 < |e.chains[k1]| && k2 in e.chains && i2 < |e.chains[k2]|
    requires e.chains[k1][i1].labels == e.chains[k2][i2].labels
    ensures k1 == k2 && i1 == i2
  {
    assert hash(e.chains[k1][i1].labels) == k1 && hash(e.chains[k2][i2].labels) == k2;
  }

  /** Two label sets with the same hash, updated one after the other in a new
      counter entry, land in one chain as two separate series. */
  lemma CollidingSeries(name: string, help: string, hash: Labels -> Hash, ftoa: real -> string,
                        l1: Labels, l2: Labels, v1: real, v2: real, t: int)
    requires l1 != l2 && hash(l1) == hash(l2)
    ensures
      var m1 := Metric(Counter, name, help, v1, t, l1);
      var m2 := Metric(Counter, name, help, v2, t, l2);
      var e := EntryUpdate(EntryUpdate(NewEntry(Counter, name, help), hash, ftoa, m1, []), hash, ftoa, m2, []);
      && Series(e, hash, l1) == Some(StateVal(l1, [], v1, 0.0, 0, t))
      && Series(e, hash, l2) == Some(StateVal(l2, [], v2, 0.0, 0, t))
      && |Chain(e, hash(l1))| == 2
  {
    var m1 := Metric(Counter, name, help, v1, t, l1);
    var m2 := Metric(Counter, name, help, v2, t, l2);
    var e0 := NewEntry(Counter, name, help);
    var e1 := EntryUpdate(e0, hash, ftoa, m1, []);
    var e := EntryUpdate(e1, hash, ftoa, m2, []);
    assert Series(e0, hash, l1) == None && Series(e0, hash, l2) == None;
    SeriesAfterUpdate(e0, hash, ftoa, m1, []);
    OtherSeriesUnchanged(e0, hash, ftoa, m1, [], l2);
    SeriesAfterUpdate(e1, hash, ftoa, m2, []);
    OtherSeriesUnchanged(e1, hash, ftoa, m2, [], l1);
    assert Chain(e1, hash(l1)) == [StateStep(NewState(l1), Counter, v1, t, [], ftoa)];
    assert Chain(e, hash(l1)) == Chain(e1, hash(l1)) + [StateStep(NewState(l2), Counter, v2, t, [], ftoa)];
  }

  // ---------------------------------------------------------------------------
  // The store

  /** The series of labels `l` under metric name `name`, if any. */
  function StoreSeries(v: StoreVal, hash: Labels -> Hash, name: string, l: Labels): (r: Option<StateVal>)
    ensures r.Some? ==> name in v && r.value.labels == l
    ensures name !in v ==> r.None?
    ensures name in v ==> r == Series(v[name], hash, l)
  {
    if name in v then Series(v[name], hash, l) else None
  }

  /** `metricStore.update(m)` applies `m` to the series of `m.name` and
      `m.labels`: to what it held while the stored kind is `m.kind`, to a
      fresh state when the name is new or had another kind. */
  lemma StoreUpdateTarget(v: StoreVal, hash: Labels -> Hash, ftoa: real -> string, m: Metric, bounds: seq<real>)
    ensures
      var kept := if m.name in v && v[m.name].kind == m.kind then StoreSeries(v, hash, m.name, m.labels) else None;
      StoreSeries(StoreUpdate(v, hash, ftoa, m, bounds), hash, m.name, m.labels)
        == Some(StateStep(Prior(kept, m.labels), m.kind, m.value, m.time, bounds, ftoa))
    ensures StoreUpdate(v, hash, ftoa, m, bounds)[m.name].kind == m.kind
  {
    var v1 := StoreLookup(v, m.kind, m.name, m.help);
    if !(m.name in v && v[m.name].kind == m.kind) {
      assert Series(v1[m.name], hash, m.labels) == None;
    }
    SeriesAfterUpdate(v1[m.name], hash, ftoa, m, bounds);
  }

  /** Every other series is untouched by `metricStore.update(m)`, except that
      a change of kind under `m.name` discards that name's other series. */
  lemma StoreUpdateOthers(v: StoreVal, hash: Labels -> Hash, ftoa: real -> string, m: Metric, bounds: seq<real>,
                          name: string, l: Labels)
    requires name != m.name || l != m.labels
    ensures var r := StoreUpdate(v, hash, ftoa, m, bounds);
      && (name != m.name ==> StoreSeries(r, hash, name, l) == StoreSeries(v, hash, name, l))
      && (name == m.name && m.name in v && v[m.name].kind == m.kind ==>
            StoreSeries(r, hash, name, l) == StoreSeries(v, hash, name, l))
      && (name == m.name && !(m.name in v && v[m.name].kind == m.kind) ==>
            StoreSeries(r, hash, name, l) == None)
  {
    var v1 := StoreLookup(v, m.kind, m.name, m.help);
    if name == m.name {
      OtherSeriesUnchanged(v1[m.name], hash, ftoa, m, bounds, l);
      if !(m.name in v && v[m.name].kind == m.kind) {
        assert Series(v1[m.name], hash, l) == None;
      }
    }
  }

  /** A change of kind leaves exactly one series under the name: the fresh
      one `m` went to. */
  lemma KindChangeDiscards(v: StoreVal, hash: Labels -> Hash, ftoa: real -> string, m: Metric, bounds: seq<real>)
    requires m.name in v && v[m.name].kind != m.kind
    ensures var e := StoreUpdate(v, hash, ftoa, m, bounds)[m.name];
      && e.chains == map[hash(m.labels) := [StateStep(NewState(m.labels), m.kind, m.value, m.time, bounds, ftoa)]]
      && e.kind == m.kind && e.help == m.help
  {
    var k := hash(m.labels);
    var e0 := NewEntry(m.kind, m.name, m.help);
    assert StoreLookup(v, m.kind, m.name, m.help)[m.name] == e0;
    UpdateIsStepped(e0, hash, ftoa, m, bounds);
    assert e0.chains == map[] && Chain(e0, k) == [];
    var x := StateStep(NewState(m.labels), m.kind, m.value, m.time, bounds, ftoa);
    assert Stepped([], m, bounds, ftoa) == [x];
    assert map[][k := [x]] == map[k := [x]];
  }

  /** Every entry of an updated store is well formed when every entry was. */
  lemma StoreUpdateKeepsWellFormed(v: StoreVal, hash: Labels -> Hash, ftoa: real -> string, m: Metric, bounds: seq<real>)
    requires forall n | n in v :: WellFormed(v[n], hash)
    ensures var r := StoreUpdate(v, hash, ftoa, m, bounds);
      forall n | n in r :: WellFormed(r[n], hash)
  {
    var v1 := StoreLookup(v, m.kind, m.name, m.help);
    assert WellFormed(v1[m.name], hash);
    UpdateKeepsWellFormed(v1[m.name], hash, ftoa, m, bounds);
  }

  // ---------------------------------------------------------------------------
  // A run of observations on one series

  /** The state after observing `obs` (value, time) in order, all of kind `kind`. */
  function Replay(s: StateVal, kind: Kind, obs: seq<(real, int)>, bounds: seq<real>, ftoa: real -> string): StateVal
    decreases |obs|
  {
    if obs == [] then s
    else
      var o := obs[|obs| - 1];
      StateStep(Replay(s, kind, obs[..|obs| - 1], bounds, ftoa), kind, o.0, o.1, bounds, ftoa)
  }

  /** The sum of the observed values. */
  function ObservedSum(obs: seq<(real, int)>): real
    decreases |obs|
  {
    if obs == [] then 0.0 else ObservedSum(obs[..|obs| - 1]) + obs[|obs| - 1].0
  }

  /** A counter accumulates every value; nothing but value and time moves. */
  lemma {:induction false} CounterReplay(s: StateVal, obs: seq<(real, int)>, bounds: seq<real>, ftoa: real -> string)
    ensures var r := Replay(s, Counter, obs, bounds, ftoa);
      && r.value == s.value + ObservedSum(obs)
      && r.labels == s.labels && r.sum == s.sum && r.count == s.count && r.buckets == s.buckets
    decreases |obs|
  {
    if obs != [] {
      CounterReplay(s, obs[..|obs| - 1], bounds, ftoa);
    }
  }

  /** A gauge holds the last value and time; sum, count and buckets stay. */
  lemma {:induction false} GaugeReplay(s: StateVal, obs: seq<(real, int)>, bounds: seq<real>, ftoa: real -> string)
    requires obs != []
    ensures var r := Replay(s, Gauge, obs, bounds, ftoa);
      && r.value == obs[|obs| - 1].0 && r.time == obs[|obs| - 1].1
      && r.labels == s.labels && r.sum == s.sum && r.count == s.count && r.buckets == s.buckets
    decreases |obs|
  {
    if |obs| > 1 {
      GaugeReplay(s, obs[..|obs| - 1], bounds, ftoa);
    }
  }

  /** `c` incremented `k` times, each increment wrapping like `count++`. */
  function IncTimes(c: U64, k: nat): U64
    decreases k
  {
    if k == 0 then c else Inc(IncTimes(c, k - 1))
  }

  /** Incrementing `k` times adds `k` modulo 2^64. */
  lemma {:induction false} IncTimesWraps(c: U64, k: nat)
    ensures IncTimes(c, k) == (c + k) % U64_LIMIT
    decreases k
  {
    if k > 0 {
      IncTimesWraps(c, k - 1);
      CountStep(IncTimes(c, k - 1), c + (k - 1), c + k);
    }
  }

  /** Each histogram observation adds its value to the sum and increments
      the count once. */
  lemma {:induction false} HistogramAccumulates(s: StateVal, obs: seq<(real, int)>, bounds: seq<real>, ftoa: real -> string)
    ensures var r := Replay(s, Histogram, obs, bounds, ftoa);
      && r.sum == s.sum + ObservedSum(obs)
      && r.count == IncTimes(s.count, |obs|)
      && r.value == s.value && r.labels == s.labels
      && (obs != [] ==> |r.buckets| == |bounds|)
    decreases |obs|
  {
    if obs != [] {
      var n := |obs| - 1;
      HistogramAccumulates(s, obs[..n], bounds, ftoa);
      assert |obs[..n]| == n;
    }
  }

  /** A histogram adds every value to its sum and counts every observation
      (modulo 2^64); its value stays. */
  lemma {:induction false} HistogramReplay(s: StateVal, obs: seq<(real, int)>, bounds: seq<real>, ftoa: real -> string)
    ensures var r := Replay(s, Histogram, obs, bounds, ftoa);
      && r.sum == s.sum + ObservedSum(obs)
      && r.count == (s.count + |obs|) % U64_LIMIT
      && r.value == s.value && r.labels == s.labels
      && (obs != [] ==> |r.buckets| == |bounds|)
  {
    HistogramAccumulates(s, obs, bounds, ftoa);
    IncTimesWraps(s.count, |obs|);
  }

  /** A count that stands for `x` observations, modulo 2^64, stands for
      `y`, one more, once incremented. */
  lemma CountStep(c: U64, x: nat, y: nat)
    requires c == x % U64_LIMIT && y == x + 1
    ensures Inc(c) == y % U64_LIMIT
  {
    ModSucc(x);
  }

  /** Counting one more after a wrap-around is counting one more before it. */
  lemma ModSucc(x: nat)
    ensures (x % U64_LIMIT + 1) % U64_LIMIT == (x + 1) % U64_LIMIT
  {
    var q := x / U64_LIMIT;
    assert x == q * U64_LIMIT + x % U64_LIMIT;
    if x % U64_LIMIT + 1 == U64_LIMIT {
      assert x + 1 == (q + 1) * U64_LIMIT;
    } else {
      assert x + 1 == q * U64_LIMIT + (x % U64_LIMIT + 1);
    }
  }

  /** Untyped and summary series only record the time of the last observation. */
  lemma {:induction false} TimeOnlyReplay(s: StateVal, kind: Kind, obs: seq<(real, int)>, bounds: seq<real>, ftoa: real -> string)
    requires kind == Untyped || kind == Summary
    requires obs != []
    ensures Replay(s, kind, obs, bounds, ftoa) == s.(time := obs[|obs| - 1].1)
    decreases |obs|
  {
    if |obs| > 1 {
      TimeOnlyReplay(s, kind, obs[..|obs| - 1], bounds, ftoa);
    }
  }

  /** The store after observing `obs` (value, time) in order, each as a
      metric of kind `kind`, name `name`, help `help` and labels `l`. */
  function StoreReplay(v: StoreVal, hash: Labels -> Hash, ftoa: real -> string, kind: Kind, name: string,
                       help: string, l: Labels, obs: seq<(real, int)>, bounds: seq<real>): StoreVal
    decreases |obs|
  {
    if obs == [] then v
    else
      var o := obs[|obs| - 1];
      StoreUpdate(StoreReplay(v, hash, ftoa, kind, name, help, l, obs[..|obs| - 1], bounds), hash, ftoa,
                  Metric(kind, name, help, o.0, o.1, l), bounds)
  }

  /** A run of `metricStore.update`s of one series is a `Replay` of that
      series: from what it held while the stored kind is `kind`, from a fresh
      state otherwise. The name then holds an entry of kind `kind`. */
  lemma {:induction false} StoreReplaySeries(v: StoreVal, hash: Labels -> Hash, ftoa: real -> string, kind: Kind,
                                             name: string, help: string, l: Labels, obs: seq<(real, int)>,
                                             bounds: seq<real>)
    requires obs != []
    ensures var r := StoreReplay(v, hash, ftoa, kind, name, help, l, obs, bounds);
      var kept := if name in v && v[name].kind == kind then StoreSeries(v, hash, name, l) else None;
      && name in r && r[name].kind == kind
      && StoreSeries(r, hash, name, l) == Some(Replay(Prior(kept, l), kind, obs, bounds, ftoa))
    decreases |obs|
  {
    var n := |obs| - 1;
    var m := Metric(kind, name, help, obs[n].0, obs[n].1, l);
    var v0 := StoreReplay(v, hash, ftoa, kind, name, help, l, obs[..n], bounds);
    assert StoreReplay(v, hash, ftoa, kind, name, help, l, obs, bounds) == StoreUpdate(v0, hash, ftoa, m, bounds);
    StoreUpdateTarget(v0, hash, ftoa, m, bounds);
    var kept := if name in v && v[name].kind == kind then StoreSeries(v, hash, name, l) else None;
    if n == 0 {
      assert obs[..n] == [] && v0 == v;
      assert Replay(Prior(kept, l), kind, obs, bounds, ftoa)
        == StateStep(Prior(kept, l), kind, obs[n].0, obs[n].1, bounds, ftoa);
    } else {
      StoreReplaySeries(v, hash, ftoa, kind, name, help, l, obs[..n], bounds);
      assert Replay(Prior(kept, l), kind, obs, bounds, ftoa)
        == StateStep(Replay(Prior(kept, l), kind, obs[..n], bounds, ftoa), kind, obs[n].0, obs[n].1, bounds, ftoa);
    }
  }

  /** A counter series that a run of updates creates (under a new name, or
      a new label set under a name already in the store) holds the sum of the
      observed values and the time of the last one. */
  lemma NewCounterSeries(v: StoreVal, hash: Labels -> Hash, ftoa: real -> string, name: string, help: string,
                         l: Labels, obs: seq<(real, int)>, bounds: seq<real>)
    requires obs != [] && StoreSeries(v, hash, name, l).None?
    ensures var r := StoreSeries(StoreReplay(v, hash, ftoa, Counter, name, help, l, obs, bounds), hash, name, l);
      r.Some? && r.value.value == ObservedSum(obs) && r.value.time == obs[|obs| - 1].1
  {
    StoreReplaySeries(v, hash, ftoa, Counter, name, help, l, obs, bounds);
    CounterReplay(NewState(l), obs, bounds, ftoa);
    assert Replay(NewState(l), Counter, obs, bounds, ftoa).time == obs[|obs| - 1].1;
  }

  /** A histogram series that a run of updates creates (under a new name, or
      a new label set under a name already in the store) has one bucket per
      boundary, sums the observed values and counts them modulo 2^64. */
  lemma NewHistogramSeries(v: StoreVal, hash: Labels -> Hash, ftoa: real -> string, name: string, help: string,
                           l: Labels, obs: seq<(real, int)>, bounds: seq<real>)
    requires obs != [] && StoreSeries(v, hash, name, l).None?
    ensures var r := StoreSeries(StoreReplay(v, hash, ftoa, Histogram, name, help, l, obs, bounds), hash, name, l);
      && r.Some? && r.value.sum == ObservedSum(obs) && r.value.count == |obs| % U64_LIMIT
      && |r.value.buckets| == |bounds|
  {
    StoreReplaySeries(v, hash, ftoa, Histogram, name, help, l, obs, bounds);
    HistogramReplay(NewState(l), obs, bounds, ftoa);
  }

  /** A latency histogram with boundaries 10, 50 and 100: the observations 5,
      30, 75 and 150 put one in each bucket (150 fits none), sum to 260 and
      count 4. */
  lemma LatencyScenario(labels: Labels, ftoa: real -> string)
    ensures
      var b := [10.0, 50.0, 100.0];
      var s1 := StateStep(NewState(labels), Histogram, 5.0, 1, b, ftoa);
      var s2 := StateStep(s1, Histogram, 30.0, 2, b, ftoa);
      var s3 := StateStep(s2, Histogram, 75.0, 3, b, ftoa);
      var s4 := StateStep(s3, Histogram, 150.0, 4, b, ftoa);
      && |s4.buckets| == 3 && s4.buckets[0].count == 1 && s4.buckets[1].count == 1 && s4.buckets[2].count == 1
      && s4.sum == 260.0 && s4.count == 4 && s4.time == 4
  {
    var b := [10.0, 50.0, 100.0];
    var t := BucketTable(b, labels, ftoa);
    assert t[0].limit == 10.0 && t[1].limit == 50.0 && t[2].limit == 100.0;
    var s1 := StateStep(NewState(labels), Histogram, 5.0, 1, b, ftoa);
    assert FirstFit(t, 5.0) == Some(0);
    var t1 := t[0 := t[0].(count := 1)];
    assert s1.buckets == t1;
    var s2 := StateStep(s1, Histogram, 30.0, 2, b, ftoa);
    assert FirstFit(t1, 30.0) == Some(1);
    var t2 := t1[1 := t1[1].(count := 1)];
    assert s2.buckets == t2;
    var s3 := StateStep(s2, Histogram, 75.0, 3, b, ftoa);
    assert FirstFit(t2, 75.0) == Some(2);
    var t3 := t2[2 := t2[2].(count := 1)];
    assert s3.buckets == t3;
    var s4 := StateStep(s3, Histogram, 150.0, 4, b, ftoa);
    assert FirstFit(t3, 150.0) == None;
    assert s4.buckets == t3;
  }

  // ---------------------------------------------------------------------------
  // Bucket totals

  /** The number of observations a bucket table has counted. */
  function BucketTotal(bs: seq<Bucket>): int
    decreases |bs|
  {
    if bs == [] then 0 else bs[0].count + BucketTotal(bs[1..])
  }

  /** An observation adds one to the table's total when some limit holds it
      and nothing otherwise, as long as no count wraps. */
  lemma {:induction false} CreditTotal(bs: seq<Bucket>, v: real)
    requires forall i :: 0 <= i < |bs| ==> bs[i].count + 1 < U64_LIMIT
    ensures BucketTotal(Credit(bs, v)) == BucketTotal(bs) + (if FirstFit(bs, v).Some? then 1 else 0)
    decreases |bs|
  {
    if bs != [] {
      var r := Credit(bs, v);
      if v <= bs[0].limit {
        assert r[1..] == bs[1..];
      } else {
        CreditTotal(bs[1..], v);
        var r1 := Credit(bs[1..], v);
        assert forall j :: 0 <= j < |r1| ==> r[j + 1] == r1[j];
        assert r[1..] == r1;
      }
    }
  }

  // ---------------------------------------------------------------------------
  // Collection

  /** What one state contributes to a collection: `len(buckets)` `_bucket`
      samples carrying the bucket counts and labels, then `_sum` and `_count`
      with the state's labels, for a histogram; one sample carrying the value
      for every other kind. All carry the state's time. */
  lemma StateSamplesShape(s: StateVal, kind: Kind, name: string, help: string,
                          bucketName: string, sumName: string, countName: string)
    ensures var r := StateSamples(s, kind, name, help, bucketName, sumName, countName);
      && (kind == Histogram ==>
            && |r| == |s.buckets| + 2
            && (forall i :: 0 <= i < |s.buckets| ==>
                  r[i] == Metric(kind, bucketName, help, s.buckets[i].count as real, s.time, s.buckets[i].labels))
            && r[|s.buckets|] == Metric(kind, sumName, help, s.sum, s.time, s.labels)
            && r[|s.buckets| + 1] == Metric(kind, countName, help, s.count as real, s.time, s.labels))
      && (kind != Histogram ==> r == [Metric(kind, name, help, s.value, s.time, s.labels)])
  {
  }

  /** Every sample an entry emits leads back, through `rootName`, to the
      entry's name. */
  lemma SamplesLeadToEntry(s: StateVal, kind: Kind, name: string, help: string)
    ensures var e := NewEntry(kind, name, help);
      var r := StateSamples(s, kind, name, help, e.bucketName, e.sumName, e.countName);
      forall i :: 0 <= i < |r| ==> Naming.RootName(r[i]) == Some(name)
  {
    var e := NewEntry(kind, name, help);
    var r := StateSamples(s, kind, name, help, e.bucketName, e.sumName, e.countName);
    if kind == Histogram {
      forall i | 0 <= i < |r|
        ensures Naming.RootName(r[i]) == Some(name)
      {
        Naming.HistogramRootName(name, help, r[i].value, r[i].time, r[i].labels);
      }
    }
  }
}
