/** Value-level model of the metric store of prometheus/metric.go: the data a
    `metricStore`, `metricEntry` and `metricState` hold, and the functions that
    say what `update`, `lookup` and `collect` do to that data. The classes in
    state.dfy, entry.dfy and store.dfy are proved against these functions. */
module Model {
  import opened Kinds

  datatype Option<T> = None | Some(value: T)

  /** Go's uint64: every count in the source has this type. */
  const U64_LIMIT: int := 0x1_0000_0000_0000_0000
  type U64 = x: int | 0 <= x < U64_LIMIT

  /** Label hashes are uint64 values. */
  type Hash = U64

  /** `x++` on a uint64 wraps past the largest value. */
  function Inc(x: U64): (r: U64)
    ensures r == (x + 1) % U64_LIMIT
    ensures x + 1 < U64_LIMIT ==> r == x + 1
  {
    if x + 1 == U64_LIMIT then 0 else x + 1
  }

  datatype Label = Label(name: string, value: string)

  /** Label sets are ordered; two sets are the same series only when they are
      equal as sequences. */
  type Labels = seq<Label>

  /** The source's `metric` record: an observation going in, a sample coming out. */
  datatype Metric = Metric(kind: Kind, name: string, help: string, value: real, time: int, labels: Labels)

  /** One row of a histogram's bucket table (`metricBucket`). */
  datatype Bucket = Bucket(limit: real, count: U64, labels: Labels)

  /** What one `metricState` holds. */
  datatype StateVal = StateVal(labels: Labels, buckets: seq<Bucket>, value: real, sum: real, count: U64, time: int)

  /** What one `metricEntry` holds: its immutable header and its states grouped
      in collision chains under the hash of their labels (`metricStateMap`). */
  datatype EntryVal = EntryVal(
    kind: Kind, name: string, help: string,
    bucketName: string, sumName: string, countName: string,
    chains: map<Hash, seq<StateVal>>)

  /** What a `metricStore` holds: one entry per metric name. */
  type StoreVal = map<string, EntryVal>

  // ---------------------------------------------------------------------------
  // States

  /** `newMetricState`: zero value, sum, count and time, no bucket table. */
  function NewState(labels: Labels): StateVal
  {
    StateVal(labels, [], 0.0, 0.0, 0, 0)
  }

  /** The label set of a histogram bucket: the state's labels followed by `le`. */
  function BucketLabels(labels: Labels, limit: real, ftoa: real -> string): Labels
  {
    labels + [Label("le", ftoa(limit))]
  }

  /** The bucket table `makeMetricBuckets` builds. */
  function BucketTable(bounds: seq<real>, labels: Labels, ftoa: real -> string): (r: seq<Bucket>)
    ensures |r| == |bounds|
    ensures forall i :: 0 <= i < |r| ==>
      r[i].limit == bounds[i] && r[i].count == 0 && r[i].labels == labels + [Label("le", ftoa(bounds[i]))]
  {
    seq(|bounds|, i requires 0 <= i < |bounds| => Bucket(bounds[i], 0, BucketLabels(labels, bounds[i], ftoa)))
  }

  /** The index of the first bucket whose limit is at least `v`, if any. */
  function FirstFit(bs: seq<Bucket>, v: real): (r: Option<nat>)
    ensures r.Some? ==> r.value < |bs| && v <= bs[r.value].limit
    ensures r.Some? ==> forall j :: 0 <= j < r.value ==> bs[j].limit < v
    ensures r.None? <==> forall j :: 0 <= j < |bs| ==> bs[j].limit < v
    decreases |bs|
  {
    if |bs| == 0 then None
    else if v <= bs[0].limit then Some(0)
    else match FirstFit(bs[1..], v)
      case None => None
      case Some(i) => Some(i + 1)
  }

  /** The bucket table after `metricBuckets.update(v)`: only the first bucket
      that can hold `v` gains one observation. */
  function Credit(bs: seq<Bucket>, v: real): (r: seq<Bucket>)
    ensures |r| == |bs|
    ensures forall j :: 0 <= j < |bs| ==>
      r[j] == if FirstFit(bs, v) == Some(j) then bs[j].(count := Inc(bs[j].count)) else bs[j]
  {
    match FirstFit(bs, v)
    case None => bs
    case Some(i) => bs[i := bs[i].(count := Inc(bs[i].count))]
  }

  /** The state after `metricState.update(kind, v, t, bounds)`. */
  function StateStep(s: StateVal, kind: Kind, v: real, t: int, bounds: seq<real>, ftoa: real -> string): (r: StateVal)
    ensures r.labels == s.labels && r.time == t
    ensures kind == Counter ==>
      r.value == s.value + v && r.sum == s.sum && r.count == s.count && r.buckets == s.buckets
    ensures kind == Gauge ==>
      r.value == v && r.sum == s.sum && r.count == s.count && r.buckets == s.buckets
    ensures kind == Histogram ==>
      r.value == s.value && r.sum == s.sum + v && r.count == Inc(s.count) && |r.buckets| == |bounds|
    ensures kind == Histogram && |s.buckets| == |bounds| ==> r.buckets == Credit(s.buckets, v)
    ensures kind == Histogram && |s.buckets| != |bounds| ==> r.buckets == Credit(BucketTable(bounds, s.labels, ftoa), v)
    ensures kind == Untyped || kind == Summary ==> r == s.(time := t)
  {
    match kind
    case Counter => s.(value := s.value + v, time := t)
    case Gauge => s.(value := v, time := t)
    case Histogram =>
      var table := if |s.buckets| != |bounds| then BucketTable(bounds, s.labels, ftoa) else s.buckets;
      s.(buckets := Credit(table, v), sum := s.sum + v, count := Inc(s.count), time := t)
    case _ => s.(time := t)
  }

  /** The `<name>_bucket` samples of a histogram state, one per bucket. */
  function BucketSamples(bs: seq<Bucket>, kind: Kind, bucketName: string, help: string, t: int): (r: seq<Metric>)
    ensures |r| == |bs|
    ensures forall i :: 0 <= i < |bs| ==> r[i] == Metric(kind, bucketName, help, bs[i].count as real, t, bs[i].labels)
  {
    seq(|bs|, i requires 0 <= i < |bs| => Metric(kind, bucketName, help, bs[i].count as real, t, bs[i].labels))
  }

  /** The samples `metricState.collect` appends for one state. */
  function StateSamples(s: StateVal, kind: Kind, name: string, help: string,
                        bucketName: string, sumName: string, countName: string): seq<Metric>
  {
    if kind == Histogram then
      BucketSamples(s.buckets, kind, bucketName, help, s.time)
      + [Metric(kind, sumName, help, s.sum, s.time, s.labels),
         Metric(kind, countName, help, s.count as real, s.time, s.labels)]
    else
      [Metric(kind, name, help, s.value, s.time, s.labels)]
  }

  // ---------------------------------------------------------------------------
  // Entries

  /** `newMetricEntry`: no states yet; histograms get their three sample names. */
  function NewEntry(kind: Kind, name: string, help: string): EntryVal
  {
    if kind == Histogram then
      EntryVal(kind, name, help, name + "_bucket", name + "_sum", name + "_count", map[])
    else
      EntryVal(kind, name, help, "", "", "", map[])
  }

  /** The first index of `l` in `ls`. */
  function Position(ls: seq<Labels>, l: Labels): (r: Option<nat>)
    ensures r.Some? ==> r.value < |ls| && ls[r.value] == l
    ensures r.Some? ==> forall j :: 0 <= j < r.value ==> ls[j] != l
    ensures r.None? <==> forall j :: 0 <= j < |ls| ==> ls[j] != l
    decreases |ls|
  {
    if |ls| == 0 then None
    else if ls[0] == l then Some(0)
    else match Position(ls[1..], l)
      case None => None
      case Some(i) => Some(i + 1)
  }

  function LabelsOf(c: seq<StateVal>): (r: seq<Labels>)
    ensures |r| == |c| && forall i :: 0 <= i < |c| ==> r[i] == c[i].labels
  {
    seq(|c|, i requires 0 <= i < |c| => c[i].labels)
  }

  /** The collision chain under `k` (a missing key reads as an empty chain, like a nil slice). */
  function Chain(e: EntryVal, k: Hash): seq<StateVal>
  {
    if k in e.chains then e.chains[k] else []
  }

  /** The state an entry holds for label set `l`: the one `metricStateMap.find`
      returns when given the hash of `l`. */
  function Series(e: EntryVal, hash: Labels -> Hash, l: Labels): (r: Option<StateVal>)
    ensures r.Some? ==> r.value.labels == l
    ensures r.Some? ==> exists j :: 0 <= j < |Chain(e, hash(l))| && Chain(e, hash(l))[j] == r.value
                          && (forall i :: 0 <= i < j ==> Chain(e, hash(l))[i].labels != l)
    ensures r.None? <==> forall j :: 0 <= j < |Chain(e, hash(l))| ==> Chain(e, hash(l))[j].labels != l
  {
    var c := Chain(e, hash(l));
    match Position(LabelsOf(c), l)
    case None => None
    case Some(i) =>
      assert forall j :: 0 <= j < i ==> c[j].labels == LabelsOf(c)[j];
      Some(c[i])
  }

  /** The invariant of an entry: every state sits in the chain of its own
      hash, and no chain holds a label set twice. */
  ghost predicate WellFormed(e: EntryVal, hash: Labels -> Hash)
  {
    && (forall k, i | k in e.chains && 0 <= i < |e.chains[k]| :: hash(e.chains[k][i].labels) == k)
    && (forall k, i, j | k in e.chains && 0 <= i < j < |e.chains[k]| ::
          e.chains[k][i].labels != e.chains[k][j].labels)
  }

  /** Where `metricEntry.lookup(l)` finds or puts the state of `l` in its chain. */
  function LookupIndex(e: EntryVal, hash: Labels -> Hash, l: Labels): nat
  {
    var c := Chain(e, hash(l));
    match Position(LabelsOf(c), l)
    case Some(i) => i
    case None => |c|
  }

  /** The entry after `metricEntry.lookup(l)`: unchanged when a state for `l`
      exists under its hash, otherwise a fresh state chained at the end. */
  function EntryLookup(e: EntryVal, hash: Labels -> Hash, l: Labels): (r: EntryVal)
    ensures hash(l) in r.chains
    ensures Position(LabelsOf(r.chains[hash(l)]), l) == Some(LookupIndex(e, hash, l))
    ensures Series(e, hash, l).Some? ==> r == e
    ensures Series(e, hash, l).None? ==>
      r == e.(chains := e.chains[hash(l) := Chain(e, hash(l)) + [NewState(l)]])
  {
    var k := hash(l);
    var c := Chain(e, k);
    match Position(LabelsOf(c), l)
    case Some(_) => e
    case None =>
      var ls := LabelsOf(c + [NewState(l)]);
      assert ls[|c|] == l;
      assert forall j :: 0 <= j < |c| ==> ls[j] == LabelsOf(c)[j];
      assert Position(ls, l) == Some(|c|);
      e.(chains := e.chains[k := c + [NewState(l)]])
  }

  /** The entry after `lookup(l)` followed by `update` of the state found. */
  function EntryUpdate(e: EntryVal, hash: Labels -> Hash, ftoa: real -> string, m: Metric, bounds: seq<real>): EntryVal
  {
    var k := hash(m.labels);
    var i := LookupIndex(e, hash, m.labels);
    var e1 := EntryLookup(e, hash, m.labels);
    var c := e1.chains[k];
    e1.(chains := e1.chains[k := c[i := StateStep(c[i], m.kind, m.value, m.time, bounds, ftoa)]])
  }

  /** Looking up the state of `m.labels` and then stepping it is `EntryUpdate`. */
  lemma SteppedIsEntryUpdate(e1: EntryVal, hash: Labels -> Hash, ftoa: real -> string, m: Metric,
                             bounds: seq<real>, e2: EntryVal, i: nat)
    requires e2 == EntryLookup(e1, hash, m.labels) && i == LookupIndex(e1, hash, m.labels)
    requires i < |e2.chains[hash(m.labels)]|
    ensures e2.(chains := e2.chains[hash(m.labels) := e2.chains[hash(m.labels)][i :=
      StateStep(e2.chains[hash(m.labels)][i], m.kind, m.value, m.time, bounds, ftoa)]])
      == EntryUpdate(e1, hash, ftoa, m, bounds)
  {
  }

  // ---------------------------------------------------------------------------
  // The store

  /** `metricStore.lookup`: keep the entry of `name` when its kind is `kind`,
      otherwise install a fresh empty one (last writer wins on kind). */
  function StoreLookup(v: StoreVal, kind: Kind, name: string, help: string): (r: StoreVal)
    ensures r.Keys == v.Keys + {name}
    ensures r[name].kind == kind
    ensures name in v && v[name].kind == kind ==> r == v
    ensures !(name in v && v[name].kind == kind) ==> r[name] == NewEntry(kind, name, help)
    ensures forall n :: n in v && n != name ==> r[n] == v[n]
  {
    if name in v && v[name].kind == kind then v else v[name := NewEntry(kind, name, help)]
  }

  /** Installing a fresh entry for a name that is missing or has another kind
      is what `StoreLookup` does. */
  lemma InstalledIsLookup(v: StoreVal, kind: Kind, name: string, help: string, e: EntryVal)
    requires !(name in v && v[name].kind == kind) && e == NewEntry(kind, name, help)
    ensures v[name := e] == StoreLookup(v, kind, name, help)
  {
  }

  /** `metricStore.update(m, bounds)`. */
  function StoreUpdate(v: StoreVal, hash: Labels -> Hash, ftoa: real -> string, m: Metric, bounds: seq<real>): StoreVal
  {
    var v1 := StoreLookup(v, m.kind, m.name, m.help);
    v1[m.name := EntryUpdate(v1[m.name], hash, ftoa, m, bounds)]
  }

  // ---------------------------------------------------------------------------
  // Collection. Go visits maps in no fixed order, so the samples of an entry
  // and of a store are multisets, assembled in whatever order keys are chosen.

  /** The samples of one collision chain, in chain order. */
  function ChainSamples(e: EntryVal, c: seq<StateVal>): seq<Metric>
    decreases |c|
  {
    if c == [] then []
    else ChainSamples(e, c[..|c| - 1])
         + StateSamples(c[|c| - 1], e.kind, e.name, e.help, e.bucketName, e.sumName, e.countName)
  }

  /** Appending the samples of state `j` to a list that holds `metrics`
      followed by the samples of the states before `j`. */
  lemma ChainSamplesSnoc(e: EntryVal, c: seq<StateVal>, j: nat, metrics: seq<Metric>, r0: seq<Metric>, r1: seq<Metric>)
    requires j < |c|
    requires r0 == metrics + ChainSamples(e, c[..j])
    requires r1 == r0 + StateSamples(c[j], e.kind, e.name, e.help, e.bucketName, e.sumName, e.countName)
    ensures r1 == metrics + ChainSamples(e, c[..j + 1])
  {
    assert c[..j + 1][..j] == c[..j];
    AppendAssoc(metrics, ChainSamples(e, c[..j]),
                StateSamples(c[j], e.kind, e.name, e.help, e.bucketName, e.sumName, e.countName));
  }

  /** Concatenation regroups freely. */
  lemma AppendAssoc<T>(a: seq<T>, b: seq<T>, c: seq<T>)
    ensures a + b + c == a + (b + c)
  {
  }

  /** The union of the parts under `keys`, taken in any order. */
  ghost function Total<K>(parts: map<K, multiset<Metric>>, keys: set<K>): multiset<Metric>
    requires keys <= parts.Keys
    decreases keys
  {
    if keys == {} then multiset{}
    else
      var k :| k in keys;
      parts[k] + Total(parts, keys - {k})
  }

  /** The samples of each chain of an entry, as a multiset. */
  ghost function ChainParts(e: EntryVal): map<Hash, multiset<Metric>>
  {
    map k | k in e.chains :: multiset(ChainSamples(e, e.chains[k]))
  }

  /** The samples `metricEntry.collect` appends. */
  ghost function EntrySamples(e: EntryVal): multiset<Metric>
  {
    Total(ChainParts(e), e.chains.Keys)
  }

  /** The samples of each entry of a store. */
  ghost function EntryParts(v: StoreVal): map<string, multiset<Metric>>
  {
    map n | n in v :: EntrySamples(v[n])
  }

  /** The samples `metricStore.collect` appends. */
  ghost function StoreSamples(v: StoreVal): multiset<Metric>
  {
    Total(EntryParts(v), v.Keys)
  }

  /** Whichever key is taken first, the total is that part plus the rest. */
  lemma {:induction false} TotalPick<K>(parts: map<K, multiset<Metric>>, keys: set<K>, k: K)
    requires keys <= parts.Keys && k in keys
    ensures Total(parts, keys) == parts[k] + Total(parts, keys - {k})
    decreases keys
  {
    var k' :| k' in keys && Total(parts, keys) == parts[k'] + Total(parts, keys - {k'});
    if k' != k {
      TotalPick(parts, keys - {k'}, k);
      TotalPick(parts, keys - {k}, k');
      assert keys - {k'} - {k} == keys - {k} - {k'};
    }
  }

  // ---------------------------------------------------------------------------
  // The order in which a collection visits the keys.

  /** `order` lists every key of `keys` exactly once. */
  ghost predicate Enumerates<K>(order: seq<K>, keys: set<K>)
  {
    && (forall i, j :: 0 <= i < j < |order| ==> order[i] != order[j])
    && (forall i :: 0 <= i < |order| ==> order[i] in keys)
    && (forall k :: k in keys ==> k in order)
  }

  /** Visiting one more, unvisited key extends the enumeration. */
  lemma EnumeratesAdd<K>(order: seq<K>, keys: set<K>, k: K)
    requires Enumerates(order, keys) && k !in keys
    ensures Enumerates(order + [k], keys + {k})
  {
  }

  /** Dropping the last key of an enumeration enumerates the other keys. */
  lemma EnumeratesInit<K>(order: seq<K>, keys: set<K>)
    requires Enumerates(order, keys) && order != []
    ensures Enumerates(order[..|order| - 1], keys - {order[|order| - 1]})
    ensures order[|order| - 1] in keys
  {
    var n := |order| - 1;
    forall k | k in keys - {order[n]}
      ensures k in order[..n]
    {
      var i :| 0 <= i < |order| && order[i] == k;
      assert order[..n][i] == k;
    }
  }

  /** The union of the parts under the keys of `order`, in that order. */
  ghost function InOrder<K>(parts: map<K, multiset<Metric>>, order: seq<K>): multiset<Metric>
    decreases |order|
  {
    if order == [] then multiset{}
    else
      var k := order[|order| - 1];
      InOrder(parts, order[..|order| - 1]) + (if k in parts then parts[k] else multiset{})
  }

  /** Visiting key `k` after the keys in `order` adds its part. */
  lemma InOrderSnoc<K>(parts: map<K, multiset<Metric>>, order: seq<K>, k: K)
    requires k in parts
    ensures InOrder(parts, order + [k]) == InOrder(parts, order) + parts[k]
  {
    assert (order + [k])[..|order|] == order;
  }

  /** Visiting the keys in any order that enumerates them yields the total. */
  lemma {:induction false} InOrderAll<K>(parts: map<K, multiset<Metric>>, order: seq<K>, keys: set<K>)
    requires keys <= parts.Keys && Enumerates(order, keys)
    ensures InOrder(parts, order) == Total(parts, keys)
    decreases |order|
  {
    if order == [] {
      assert keys == {};
    } else {
      var n := |order| - 1;
      var k := order[n];
      EnumeratesInit(order, keys);
      InOrderAll(parts, order[..n], keys - {k});
      TotalPick(parts, keys, k);
    }
  }

  /** The samples of the chains under the keys of `order`, in that order. */
  function SamplesInOrder(e: EntryVal, order: seq<Hash>): seq<Metric>
    decreases |order|
  {
    if order == [] then []
    else SamplesInOrder(e, order[..|order| - 1]) + ChainSamples(e, Chain(e, order[|order| - 1]))
  }

  /** Appending the samples of chain `k` to a list that holds `metrics`
      followed by the samples of the chains in `order`. */
  lemma SamplesInOrderSnoc(e: EntryVal, order: seq<Hash>, k: Hash, metrics: seq<Metric>, r0: seq<Metric>, r1: seq<Metric>)
    requires k in e.chains
    requires r0 == metrics + SamplesInOrder(e, order)
    requires r1 == r0 + ChainSamples(e, e.chains[k])
    ensures r1 == metrics + SamplesInOrder(e, order + [k])
  {
    assert (order + [k])[..|order|] == order;
    AppendAssoc(metrics, SamplesInOrder(e, order), ChainSamples(e, e.chains[k]));
  }

  /** As a multiset, the samples of the chains in `order` are their parts in that order. */
  lemma {:induction false} SamplesInOrderParts(e: EntryVal, order: seq<Hash>)
    ensures multiset(SamplesInOrder(e, order)) == InOrder(ChainParts(e), order)
    decreases |order|
  {
    if order != [] {
      SamplesInOrderParts(e, order[..|order| - 1]);
    }
  }

  /** Visiting the chains of an entry in any order that enumerates them
      yields the entry's samples. */
  lemma SamplesInOrderAll(e: EntryVal, order: seq<Hash>)
    requires Enumerates(order, e.chains.Keys)
    ensures multiset(SamplesInOrder(e, order)) == EntrySamples(e)
  {
    SamplesInOrderParts(e, order);
    InOrderAll(ChainParts(e), order, e.chains.Keys);
  }

  /** A list extending `r0`, which extends `pre`, still extends `pre`; what
      follows `pre` is what followed it in `r0` plus what `r1` added. */
  lemma AppendAfter<T>(pre: seq<T>, r0: seq<T>, r1: seq<T>)
    requires |pre| <= |r0| && r0[..|pre|] == pre
    requires |r0| <= |r1| && r1[..|r0|] == r0
    ensures |pre| <= |r1| && r1[..|pre|] == pre
    ensures multiset(r1[|pre|..]) == multiset(r0[|pre|..]) + multiset(r1[|r0|..])
  {
    assert r1[|pre|..] == r0[|pre|..] + r1[|r0|..];
  }
}
