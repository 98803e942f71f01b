/** `metricState` of prometheus/metric.go: the accumulator of one series. */
module MetricState {
  import opened Kinds
  import opened Model
  import Buckets

  class State {
    /** The series' own copy of its label set; never changes. */
    const labels: Labels
    var buckets: seq<Bucket>
    var value: real
    var sum: real
    var count: U64
    var time: int

    /** The values this state currently holds. */
    ghost function Snapshot(): (r: StateVal)
      reads this
      ensures r.labels == labels
    {
      StateVal(labels, buckets, value, sum, count, time)
    }

    /** `newMetricState`. */
    constructor (labels: Labels)
      ensures Snapshot() == NewState(labels)
    {
      this.labels := labels;
      buckets := [];
      value, sum, count, time := 0.0, 0.0, 0, 0;
    }

    /** `metricState.update`: counters add, gauges replace, histograms credit a
        bucket (rebuilding the table only when the number of boundaries
        changed) and add to sum and count; every kind records the time. */
    method Update(kind: Kind, v: real, t: int, bounds: seq<real>, ftoa: real -> string)
      modifies this
      ensures Snapshot() == StateStep(old(Snapshot()), kind, v, t, bounds, ftoa)
    {
      match kind {
        case Counter =>
          value := value + v;
        case Gauge =>
          value := v;
        case Histogram =>
          if |buckets| != |bounds| {
            buckets := Buckets.MakeBuckets(bounds, labels, ftoa);
          }
          buckets := Buckets.UpdateBuckets(buckets, v);
          sum := sum + v;
          count := Inc(count);
        case _ =>
      }
      time := t;
    }

    /** `metricState.collect`: appends this state's samples to `metrics`. */
    method Collect(metrics: seq<Metric>, kind: Kind, name: string, help: string,
                   bucketName: string, sumName: string, countName: string) returns (r: seq<Metric>)
      ensures r == metrics + StateSamples(Snapshot(), kind, name, help, bucketName, sumName, countName)
    {
      r := metrics;
      if kind == Histogram {
        for i := 0 to |buckets|
          invariant |r| == |metrics| + i
          invariant r[..|metrics|] == metrics
          invariant forall j :: 0 <= j < i ==>
            r[|metrics| + j] == Metric(kind, bucketName, help, buckets[j].count as real, time, buckets[j].labels)
        {
          r := r + [Metric(kind, bucketName, help, buckets[i].count as real, time, buckets[i].labels)];
        }
        assert r == metrics + BucketSamples(buckets, kind, bucketName, help, time);
        r := r + [Metric(kind, sumName, help, sum, time, labels),
                  Metric(kind, countName, help, count as real, time, labels)];
      } else {
        r := r + [Metric(kind, name, help, value, time, labels)];
      }
    }
  }

  /** The values a chain of states currently holds, in chain order. */
  ghost function Snapshots(c: seq<State>): (r: seq<StateVal>)
    reads c
    ensures |r| == |c| && forall i :: 0 <= i < |c| ==> r[i] == c[i].Snapshot()
    decreases |c|
  {
    if c == [] then [] else Snapshots(c[..|c| - 1]) + [c[|c| - 1].Snapshot()]
  }

  /** A chain whose states have not changed has the same snapshots. */
  twostate lemma SnapshotsUnchanged(c: seq<State>)
    requires forall j :: 0 <= j < |c| ==> unchanged(c[j])
    ensures Snapshots(c) == old(Snapshots(c))
  {
  }

  /** A chain in which only the state at `i` has changed differs in that snapshot only. */
  twostate lemma SnapshotsChangedAt(c: seq<State>, new i: nat)
    requires i < |c|
    requires forall j :: 0 <= j < |c| && j != i ==> unchanged(c[j])
    ensures Snapshots(c) == old(Snapshots(c))[i := c[i].Snapshot()]
  {
  }
}
