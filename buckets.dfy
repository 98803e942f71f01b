/** The histogram bucket table of prometheus/metric.go: `makeMetricBuckets`
    and `metricBuckets.update`, each a loop over the table. */
module Buckets {
  import opened Model

  /** `makeMetricBuckets`: one zero-count bucket per boundary, in order, each
      labelled with the state's labels plus `le` = the boundary's text. */
  method MakeBuckets(bounds: seq<real>, labels: Labels, ftoa: real -> string) returns (b: seq<Bucket>)
    ensures |b| == |bounds|
    ensures forall i :: 0 <= i < |b| ==>
      b[i].limit == bounds[i] && b[i].count == 0 && b[i].labels == labels + [Label("le", ftoa(bounds[i]))]
    ensures b == BucketTable(bounds, labels, ftoa)
  {
    b := [];
    for i := 0 to |bounds|
      invariant |b| == i
      invariant forall j :: 0 <= j < i ==> b[j] == Bucket(bounds[j], 0, BucketLabels(labels, bounds[j], ftoa))
    {
      b := b + [Bucket(bounds[i], 0, BucketLabels(labels, bounds[i], ftoa))];
    }
  }

  /** `metricBuckets.update(v)`: scan the limits in order and count `v` in the
      first bucket whose limit is at least `v`, then stop. A value above every
      limit is counted nowhere. */
  method UpdateBuckets(m: seq<Bucket>, v: real) returns (r: seq<Bucket>)
    ensures |r| == |m|
    ensures forall j :: 0 <= j < |m| && m[j].limit < v ==> r[j] == m[j]
    ensures forall j :: 0 <= j < |m| && v <= m[j].limit ==>
      r[j] == if (forall i :: 0 <= i < j ==> m[i].limit < v) then m[j].(count := Inc(m[j].count)) else m[j]
    ensures r == Credit(m, v)
  {
    r := m;
    var i := 0;
    while i < |m|
      invariant 0 <= i <= |m|
      invariant r == m
      invariant forall j :: 0 <= j < i ==> m[j].limit < v
    {
      if v <= r[i].limit {
        r := r[i := r[i].(count := Inc(r[i].count))];
        break;
      }
      i := i + 1;
    }
  }
}
