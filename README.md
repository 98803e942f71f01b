# Prometheus metric store, modelled in Dafny

This project models the in-memory metric store of the Prometheus exporter in
`prometheus/metric.go`. Observations (`metric` records) arrive through
`metricStore.update`. The store keeps one `metricEntry` per metric name. Each
entry keeps one `metricState` per label set, grouped in collision chains under
the 64-bit hash of the labels (`metricStateMap`). A state accumulates what its
kind asks for:

- counters add the value;
- gauges keep the last value;
- histograms credit a bucket and add to a sum and a count;
- untyped and summary series only record the time.

`collect` appends every state's samples to a list. The model also covers the
helpers that name samples (`metricNameOf`, `rootName`), the kind mapping
(`metricTypeOf`, `metricType.String`) and the sample order `byNameAndLabels.Less`.

Layout:

- `kinds.dfy` (module `Kinds`): the five kinds and the mapping from `stats` kinds.
- `model.dfy` (module `Model`): the value-level model. It defines datatypes for
  metrics, buckets, states, entries and the store. Pure functions say what
  `update`, `lookup` and `collect` do to those values. The classes are proved
  against these functions.
- `buckets.dfy` (module `Buckets`): `makeMetricBuckets` and
  `metricBuckets.update`, as loops over the table.
- `state.dfy`, `entry.dfy`, `store.dfy` (modules `MetricState`, `MetricEntry`,
  `MetricStore`): `metricState`, `metricEntry` with its `metricStateMap`, and
  `metricStore`, as classes whose methods update their fields in place. A
  state's value is `Snapshot()`, read off its fields. An entry and the store
  also keep a ghost `Contents` (their value in the `Model`) and a ghost `Repr`
  (the objects they own), and their `Valid()` ties both to the fields. Every
  method states the new value (`Snapshot()` or `Contents`) as a `Model`
  function of the old one.
- `naming.dfy` (module `Naming`): sample names and the sort order.
- `properties.dfy` (module `Properties`): lemmas over the value model. They
  cover:
  - what an update does to its own series and to every other series;
  - the entry invariant (one state per label set, even under hash collisions);
  - what a run of observations accumulates;
  - bucket totals;
  - what collection emits.

Some behaviours of the code are reproduced as written:

- A histogram rebuilds its bucket table only when the NUMBER of boundaries
  changes. New boundaries of the same length are ignored and the old limits
  stay.
- A `lookup` under a known name but another kind replaces the entry. All the
  old entry's series are discarded ("last writer wins").
- Every count is a `uint64` and wraps at 2^64.

## Model

| member | source | states |
|---|---|---|
| Kinds.KindOf | prometheus/metric.go:22-33 | counter, gauge and histogram `stats` kinds map to the same exporter kind, each in both directions; every other kind maps to untyped; nothing maps to summary |
| Kinds.KindName | prometheus/metric.go:35-50 | each kind has its own name, in both directions: `untyped`, `counter`, `gauge`, `histogram`, `summary`; the `unknown` default is never produced |
| Kinds.KindNameInjective | prometheus/metric.go:35-50 | the five kind names are pairwise distinct, so a name identifies its kind |
| Naming.MetricNameOf | prometheus/metric.go:61-70 | without a namespace the name is returned unsanitized; otherwise the result is the sanitized namespace, then `_`, then the sanitized name |
| Naming.LastIndexByte | prometheus/metric.go:74 | the result is -1 or an index holding the byte, and no later index holds it |
| Naming.RootName | prometheus/metric.go:72-77 | a non-histogram sample's own name; for a histogram, the prefix before the last `_`, with no `_` after it; `None` exactly when the name has no `_` (the source panics there) |
| Naming.HistogramRootName | prometheus/metric.go:72-77 | the `_bucket`, `_sum` and `_count` names an entry caches lead back, through `rootName`, to the entry's name, whatever `_`s that name holds |
| Naming.StringLess | prometheus/metric.go:345 | Go's string `<`, character by character: it never relates a string to itself, and a proper prefix precedes the longer string |
| Naming.StringLessIrreflexive | prometheus/metric.go:345 | no name sorts before itself under Go's string `<` |
| Naming.StringLessTransitive | prometheus/metric.go:345 | Go's string `<` is transitive |
| Naming.StringLessTotal | prometheus/metric.go:345 | of two different names, one sorts before the other |
| Naming.MetricLess | prometheus/metric.go:342-346 | samples with different names are ordered by name alone; samples with the same name are ordered by their labels |
| Naming.MetricLessStrict | prometheus/metric.go:342-346 | when the label order is a strict order, so is the sample order (by name, then by labels) |
| Naming.MetricLessTotal | prometheus/metric.go:342-346 | when the label order orders any two different label sets, any two samples that differ in name or labels are ordered one way or the other |
| Model.Inc | prometheus/metric.go:227 | `count++` on a uint64 is the successor modulo 2^64, and the plain successor below the top |
| Model.BucketTable | prometheus/metric.go:310-317 | one bucket per boundary, in order, with that limit, a zero count and the state's labels plus `le` = the boundary's text |
| Model.FirstFit | prometheus/metric.go:320-321 | the first index whose limit is at least the value: all earlier limits are below it; `None` exactly when every limit is below it |
| Model.Credit | prometheus/metric.go:319-326 | only the first bucket that fits the value gains one count; every other bucket is unchanged; the length is kept |
| Model.StateStep | prometheus/metric.go:211-232 | every kind sets the time and keeps the labels. A counter adds to the value; a gauge replaces it; neither touches the sum, count or buckets. A histogram keeps the value, adds to the sum and increments the count. It rebuilds the table only on a length mismatch, then credits it. Untyped and summary change only the time |
| Model.Position | prometheus/metric.go:293-297 | the first index of a label set in a list, or `None` exactly when no entry equals it |
| Model.Series | prometheus/metric.go:290-300 | the state `find` returns for a label set is the first state of its hash chain that carries those labels; `None` exactly when no state of that chain has them |
| Model.EntryLookup | prometheus/metric.go:157-176 | after a lookup the chain of the labels' hash holds them at the lookup index; an existing series leaves the entry as it was; otherwise a fresh state is chained at the end |
| Model.StoreLookup | prometheus/metric.go:84-108 | the names are the old ones plus `name`, whose entry has the requested kind. An entry of that kind is kept as it is. Otherwise a fresh empty entry is installed. Every other name is unchanged |
| Model.TotalPick | prometheus/metric.go:116-125 | whichever key a collection visits first, the collected multiset is that key's samples plus the rest |
| Model.InOrderAll | prometheus/metric.go:116-125 | visiting the keys in any order that lists each exactly once collects the same multiset of samples |
| Model.SamplesInOrderAll | prometheus/metric.go:178-191 | visiting an entry's chains in any such order yields the entry's samples |
| Buckets.MakeBuckets | prometheus/metric.go:310-317 | the loop builds one zero-count bucket per boundary, labelled with `le`, equal to `BucketTable` |
| Buckets.UpdateBuckets | prometheus/metric.go:319-326 | buckets whose limit is below the value are unchanged; the first one that fits gains one count and later ones do not; the result equals `Credit` |
| MetricState.State.constructor | prometheus/metric.go:205-209 | a new state holds the given labels and zero value, sum, count and time, with no bucket table |
| MetricState.State.Update | prometheus/metric.go:211-232 | the new state is `StateStep` of the old one |
| MetricState.State.Collect | prometheus/metric.go:234-282 | appends this state's samples (`StateSamples`) to the list and keeps what it held |
| MetricEntry.Entry.constructor | prometheus/metric.go:138-155 | a new entry is valid and owns no state. Its value is `NewEntry`: no states, and only for a histogram the names `<name>_bucket`, `<name>_sum` and `<name>_count` |
| MetricEntry.Entry.ContentsWellFormed | prometheus/metric.go:157-176 | a valid entry's value is well formed: every state sits in the chain of its own hash, and no chain holds a label set twice |
| MetricEntry.Entry.Find | prometheus/metric.go:290-300 | returns the first state of the chain under the key whose labels are equal, or null when none is |
| MetricEntry.Entry.Put | prometheus/metric.go:286-288 | the state is appended to the chain under the key (a missing key is an empty chain); no other chain changes |
| MetricEntry.Entry.Lookup | prometheus/metric.go:157-176 | returns a state with the requested labels; when the series exists it is the owned object found, and the chains are unchanged; otherwise it is a fresh state chained at the end. The new value is `EntryLookup` of the old; the entry stays valid |
| MetricEntry.Entry.FoundSeries | prometheus/metric.go:161-164 | a state `find` returns is owned, has the labels, sits at the lookup index, and `EntryLookup` leaves the entry as it is |
| MetricEntry.Entry.MissingSeries | prometheus/metric.go:164-170 | when `find` returns null, no state of the chain has the labels and `EntryLookup` chains a fresh state at its end |
| MetricEntry.Entry.Install | prometheus/metric.go:165-172 | a fresh state for labels missing from their chain is appended there, in the fields and in the value |
| MetricEntry.Entry.Observe | prometheus/metric.go:111-113 | looking up the state of `m.labels` and updating it turns the entry's value into `EntryUpdate` of the old one |
| MetricEntry.Entry.Step | prometheus/metric.go:113 | updating the state at a chain position changes that snapshot alone, to its `StateStep` |
| MetricEntry.Entry.CollectChain | prometheus/metric.go:183-187 | appends the samples of one chain's states, in chain order |
| MetricEntry.Entry.Collect | prometheus/metric.go:178-191 | keeps the list's prefix and appends exactly the entry's samples, as a multiset |
| MetricStore.Store.constructor | prometheus/metric.go:79-82 | an empty valid store |
| MetricStore.Store.Lookup | prometheus/metric.go:84-108 | returns the entry now filed under the name. It is the old entry when the kinds agree, otherwise a fresh empty one. The new value is `StoreLookup` of the old |
| MetricStore.Store.Update | prometheus/metric.go:110-114 | the new value is `StoreUpdate` of the old (the lookup followed by the entry update); only fresh objects join the footprint |
| MetricStore.Store.Apply | prometheus/metric.go:111-113 | an update of the entry filed under `m.name` changes that entry's value alone, to `EntryUpdate` |
| MetricStore.Store.Collect | prometheus/metric.go:116-125 | keeps the list's prefix and appends exactly the store's samples, as a multiset, whatever order the entries are visited in |
| Properties.Stepped | prometheus/metric.go:161-176 | the chain after an update holds the same label sets, or one more at the end when the labels were new; states with other labels are untouched |
| Properties.UpdateIsStepped | prometheus/metric.go:110-114 | an update replaces exactly the chain of the labels' hash by its `Stepped` form |
| Properties.SeriesAfterUpdate | prometheus/metric.go:110-114 | after an update the series of `m.labels` holds the update applied to its old state, or to a fresh state when it did not exist |
| Properties.OtherSeriesUnchanged | prometheus/metric.go:290-300 | every other series of the entry is unchanged, also one whose labels hash alike |
| Properties.UpdateKeepsWellFormed | prometheus/metric.go:157-176 | an update keeps the entry invariant |
| Properties.WellFormedUnique | prometheus/metric.go:157-176 | in a well-formed entry two states with the same labels are the same position: at most one state per series |
| Properties.CollidingSeries | prometheus/metric.go:286-300 | two label sets with equal hashes land in one chain of length two, as two separate counter series |
| Properties.StoreSeries | prometheus/metric.go:84-114 | a name with no entry has no series; under a filed name the series is the one the entry's `find` holds, and it carries the requested labels |
| Properties.StoreUpdateTarget | prometheus/metric.go:84-114 | the store update applies `m` to the series of its name and labels. It starts from the old state while the kind is kept, from a fresh state otherwise. The entry then has `m`'s kind |
| Properties.StoreUpdateOthers | prometheus/metric.go:84-114 | series under other names are untouched. Other series under the same name are untouched unless the kind changed, in which case they are gone |
| Properties.KindChangeDiscards | prometheus/metric.go:92-104 | after a change of kind the name holds exactly one series: the fresh one `m` went to |
| Properties.StoreUpdateKeepsWellFormed | prometheus/metric.go:84-114 | a store update keeps every entry well formed |
| Properties.CounterReplay | prometheus/metric.go:215-216 | a counter accumulates every observed value; only value and time move |
| Properties.GaugeReplay | prometheus/metric.go:218-219 | a gauge holds the last value and time; sum, count and buckets stay |
| Properties.HistogramReplay | prometheus/metric.go:221-227 | a histogram adds every value to its sum and counts each observation modulo 2^64; its value and labels stay; after at least one observation its table has one bucket per boundary |
| Properties.HistogramAccumulates | prometheus/metric.go:221-227 | each histogram observation adds its value to the sum and increments the count once; the value and labels stay |
| Properties.IncTimesWraps | prometheus/metric.go:227 | incrementing a uint64 count `k` times adds `k` modulo 2^64 |
| Properties.CountStep | prometheus/metric.go:227 | a count standing for `x` observations modulo 2^64 stands for `x + 1` once incremented |
| Properties.StoreReplaySeries | prometheus/metric.go:110-114 | a run of store updates of one name and label set is a replay of that series. It starts from what the series held while the stored kind is the run's kind, from a fresh state otherwise. The name then holds an entry of that kind |
| Properties.NewCounterSeries | prometheus/metric.go:110-114 | a counter series that did not exist before a run of store updates (a new name, or new labels under any existing name) holds the sum of the observed values and the time of the last one |
| Properties.NewHistogramSeries | prometheus/metric.go:110-114 | a histogram series that did not exist before a run of store updates (a new name, or new labels under any existing name) has one bucket per boundary, sums the observed values and counts them modulo 2^64 |
| Properties.TimeOnlyReplay | prometheus/metric.go:211-232 | untyped and summary series change only their time, which is that of the last observation |
| Properties.LatencyScenario | prometheus/metric.go:211-232 | boundaries 10, 50 and 100 with observations 5, 30, 75 and 150 put one count in each bucket (150 fits none); sum 260, count 4 |
| Properties.CreditTotal | prometheus/metric.go:319-326 | an observation adds one to the table's total when some limit holds it and nothing otherwise, while no count wraps |
| Properties.StateSamplesShape | prometheus/metric.go:234-282 | a histogram state emits one `_bucket` sample per bucket, then `_sum` and `_count` with its own labels; every other kind emits one sample; all carry the state's time |
| Properties.SamplesLeadToEntry | prometheus/metric.go:72-77 | every sample an entry emits has the entry's name as its `rootName` |

## Left out

- Locks: the read and write mutexes of the store, the entries and the states, and the double-checked locking in both `lookup`s, are not modelled. Concurrency is out of scope. The two `find` calls of a lookup collapse into one.
- Floating point: `float64` is `real`, with no rounding, infinities or NaN. `real` also stands in for `float64(count)`, which is exact only below 2^53.
- `ftoa` (`strconv.FormatFloat`) is an uninterpreted parameter.
- `labels.hash` is an uninterpreted parameter, so collisions are possible and are modelled.
- `labels.equal` is sequence equality. `labels.copy` and `labels.copyAppend` are value copies.
- `labels.less` is a parameter of the sort order.
- `appendMetricName`, the name sanitizer, is a parameter of `metricNameOf`.
- `time.Time` is an `int`.
- `stats.MetricType` is reduced to the three kinds the exporter tells apart, plus one for all others.
- Kinds.KindName: the `"unknown"` default of `metricType.String` is unreachable, since the model's kinds are exactly the five constants.
- Naming.RootName: the source panics on a histogram name without `_`. The model returns `None` there.
- Go strings are byte strings; the model's strings are sequences of characters. Naming.LastIndexByte therefore gives a character index where Go gives a byte offset; `rootName` still cuts the same prefix, since `_` is a single byte.
- Naming.StringLess compares characters. This agrees with Go's byte-wise `<` for valid UTF-8 text.
- Go map iteration order is not modelled. Both `collect`s choose keys in an arbitrary order, and their results are stated as multisets.
- The bucket table is a `seq` field of the state rather than a shared slice. The source never aliases it, since every table comes fresh from `makeMetricBuckets`.
- `byNameAndLabels.Len` and `Swap` are `sort.Interface` plumbing. Sorting itself is not part of this model.
- The store's nil `entries` map, allocated by the first lookup, is an empty map from construction on.
- Properties.CreditTotal: assumes no bucket count is at the uint64 maximum. A wrapping count would lower the total.
