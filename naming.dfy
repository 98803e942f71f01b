/** Metric names and the sort order of exported samples in
    prometheus/metric.go: `metricNameOf`, `metric.rootName` and
    `byNameAndLabels.Less`. */
module Naming {
  import opened Kinds
  import opened Model

  /** `metricNameOf`: a name without a namespace is used as given; otherwise
      both parts pass through `appendMetricName` (here `sanitize`, whose
      definition is not part of this model) and are joined by `_`. */
  function MetricNameOf(namespace: string, name: string, sanitize: string -> string): (r: string)
    ensures namespace == "" ==> r == name
    ensures namespace != "" ==>
      |r| == |sanitize(namespace)| + 1 + |sanitize(name)|
      && r[..|sanitize(namespace)|] == sanitize(namespace)
      && r[|sanitize(namespace)|] == '_'
      && r[|sanitize(namespace)| + 1..] == sanitize(name)
  {
    if |namespace| == 0 then name else sanitize(namespace) + "_" + sanitize(name)
  }

  /** `strings.LastIndexByte(s, c)`: the last index of `c` in `s`, or -1. */
  function LastIndexByte(s: string, c: char): (r: int)
    ensures -1 <= r < |s|
    ensures 0 <= r ==> s[r] == c
    ensures forall j :: r < j < |s| ==> s[j] != c
    decreases |s|
  {
    if |s| == 0 then -1
    else if s[|s| - 1] == c then |s| - 1
    else LastIndexByte(s[..|s| - 1], c)
  }

  /** `metric.rootName`: a histogram sample's name up to its last `_` (the name
      of the histogram it belongs to); any other sample's name as is. The
      source slices with the index -1 when a histogram name holds no `_`,
      which panics; that case is `None` here. */
  function RootName(m: Metric): (r: Option<string>)
    ensures m.kind != Histogram ==> r == Some(m.name)
    ensures m.kind == Histogram ==> (r.None? <==> forall j :: 0 <= j < |m.name| ==> m.name[j] != '_')
    ensures m.kind == Histogram && r.Some? ==>
      |r.value| < |m.name| && m.name[..|r.value|] == r.value && m.name[|r.value|] == '_'
      && forall j :: |r.value| < j < |m.name| ==> m.name[j] != '_'
  {
    if m.kind == Histogram then
      var i := LastIndexByte(m.name, '_');
      if i < 0 then None else Some(m.name[..i])
    else Some(m.name)
  }

  /** The last `_` of a name ending in `_` and then a suffix without `_` is
      the one before that suffix. */
  lemma {:induction false} LastIndexOfSuffix(n: string, suffix: string)
    requires forall j :: 0 <= j < |suffix| ==> suffix[j] != '_'
    ensures LastIndexByte(n + "_" + suffix, '_') == |n|
    decreases |suffix|
  {
    var s := n + "_" + suffix;
    if |suffix| == 0 {
      assert s[|s| - 1] == '_';
    } else {
      assert s[|s| - 1] == suffix[|suffix| - 1] != '_';
      assert s[..|s| - 1] == n + "_" + suffix[..|suffix| - 1];
      LastIndexOfSuffix(n, suffix[..|suffix| - 1]);
    }
  }

  /** The `_bucket`, `_sum` and `_count` samples of a histogram entry lead back
      to the entry's name, whatever `_`s that name holds itself. */
  lemma HistogramRootName(name: string, help: string, v: real, t: int, labels: Labels)
    ensures
      var e := NewEntry(Histogram, name, help);
      && RootName(Metric(Histogram, e.bucketName, help, v, t, labels)) == Some(name)
      && RootName(Metric(Histogram, e.sumName, help, v, t, labels)) == Some(name)
      && RootName(Metric(Histogram, e.countName, help, v, t, labels)) == Some(name)
  {
    LastIndexOfSuffix(name, "bucket");
    assert name + "_bucket" == name + "_" + "bucket";
    assert (name + "_bucket")[..|name|] == name;
    LastIndexOfSuffix(name, "sum");
    assert name + "_sum" == name + "_" + "sum";
    assert (name + "_sum")[..|name|] == name;
    LastIndexOfSuffix(name, "count");
    assert name + "_count" == name + "_" + "count";
    assert (name + "_count")[..|name|] == name;
  }

  // ---------------------------------------------------------------------------
  // Ordering

  /** Go's `<` on strings: lexicographic, a proper prefix first. It never
      relates a string to itself. */
  predicate StringLess(a: string, b: string): (r: bool)
    ensures r ==> a != b
    ensures |a| < |b| && a == b[..|a|] ==> r
    decreases |a|
  {
    if |a| == 0 then |b| > 0
    else if |b| == 0 then false
    else a[0] < b[0] || (a[0] == b[0] && StringLess(a[1..], b[1..]))
  }

  /** No string precedes itself. */
  lemma {:induction false} StringLessIrreflexive(a: string)
    ensures !StringLess(a, a)
    decreases |a|
  {
    if |a| > 0 {
      StringLessIrreflexive(a[1..]);
    }
  }

  /** Strings are ordered transitively. */
  lemma {:induction false} StringLessTransitive(a: string, b: string, c: string)
    requires StringLess(a, b) && StringLess(b, c)
    ensures StringLess(a, c)
    decreases |a|
  {
    if |a| > 0 && a[0] == b[0] && b[0] == c[0] {
      StringLessTransitive(a[1..], b[1..], c[1..]);
    }
  }

  /** Of two different strings, one precedes the other. */
  lemma {:induction false} StringLessTotal(a: string, b: string)
    requires a != b
    ensures StringLess(a, b) || StringLess(b, a)
    decreases |a|
  {
    if |a| > 0 && |b| > 0 && a[0] == b[0] {
      assert a == [a[0]] + a[1..] && b == [b[0]] + b[1..];
      StringLessTotal(a[1..], b[1..]);
    }
  }

  /** `byNameAndLabels.Less`: by name, then by labels (`labels.less`, whose
      definition is not part of this model, here `labelsLess`); the labels
      decide only between samples of the same name. */
  predicate MetricLess(m1: Metric, m2: Metric, labelsLess: (Labels, Labels) -> bool): (r: bool)
    ensures m1.name != m2.name ==> (r <==> StringLess(m1.name, m2.name))
    ensures m1.name == m2.name ==> (r <==> labelsLess(m1.labels, m2.labels))
  {
    StringLess(m1.name, m2.name) || (m1.name == m2.name && labelsLess(m1.labels, m2.labels))
  }

  /** When `labelsLess` is a strict order, so is the sample order: no sample
      precedes itself, and the order is transitive. */
  lemma MetricLessStrict(m1: Metric, m2: Metric, m3: Metric, labelsLess: (Labels, Labels) -> bool)
    requires forall l :: !labelsLess(l, l)
    requires forall l1, l2, l3 :: labelsLess(l1, l2) && labelsLess(l2, l3) ==> labelsLess(l1, l3)
    ensures !MetricLess(m1, m1, labelsLess)
    ensures MetricLess(m1, m2, labelsLess) && MetricLess(m2, m3, labelsLess) ==> MetricLess(m1, m3, labelsLess)
  {
    StringLessIrreflexive(m1.name);
    if MetricLess(m1, m2, labelsLess) && MetricLess(m2, m3, labelsLess) {
      if StringLess(m1.name, m2.name) && StringLess(m2.name, m3.name) {
        StringLessTransitive(m1.name, m2.name, m3.name);
      }
    }
  }

  /** When `labelsLess` also orders any two different label sets, any two
      samples differing in name or labels are ordered one way or the other. */
  lemma MetricLessTotal(m1: Metric, m2: Metric, labelsLess: (Labels, Labels) -> bool)
    requires forall l1, l2 :: l1 != l2 ==> labelsLess(l1, l2) || labelsLess(l2, l1)
    requires m1.name != m2.name || m1.labels != m2.labels
    ensures MetricLess(m1, m2, labelsLess) || MetricLess(m2, m1, labelsLess)
  {
    if m1.name != m2.name {
      StringLessTotal(m1.name, m2.name);
    }
  }
}
