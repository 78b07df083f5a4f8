/** The kinds of metric on the internal bus. */
module MetricTypes {
  datatype MetricType = Untyped | Counter | Gauge
}
