/** Metric kinds of the Prometheus exporter (`metricType` in prometheus/metric.go). */
module Kinds {

  /** The five kinds, in the order of the source's `iota` constants. */
  datatype Kind = Untyped | Counter | Gauge | Histogram | Summary

  /** The kinds of the `stats` package that the exporter tells apart; every
      other `stats.MetricType` falls into `OtherType`. */
  datatype StatsType = CounterType | GaugeType | HistogramType | OtherType

  /** `metricTypeOf`: counters, gauges and histograms keep their kind, anything
      else becomes untyped; no `stats` kind is ever mapped to a summary. */
  function KindOf(t: StatsType): (k: Kind)
    ensures k != Summary
    ensures k == Untyped <==> t == OtherType
    ensures t == CounterType <==> k == Counter
    ensures t == GaugeType <==> k == Gauge
    ensures t == HistogramType <==> k == Histogram
  {
    match t
    case CounterType => Counter
    case GaugeType => Gauge
    case HistogramType => Histogram
    case OtherType => Untyped
  }

  /** `metricType.String`: the name a kind is exposed under. */
  function KindName(k: Kind): (r: string)
    ensures r != "unknown"
    ensures r == "untyped" <==> k == Untyped
    ensures r == "counter" <==> k == Counter
    ensures r == "gauge" <==> k == Gauge
    ensures r == "histogram" <==> k == Histogram
    ensures r == "summary" <==> k == Summary
  {
    match k
    case Untyped => "untyped"
    case Counter => "counter"
    case Gauge => "gauge"
    case Histogram => "histogram"
    case Summary => "summary"
  }

  /** Distinct kinds are exposed under distinct names, so the name identifies the kind. */
  lemma KindNameInjective(a: Kind, b: Kind)
    ensures KindName(a) == KindName(b) ==> a == b
  {
  }
}
