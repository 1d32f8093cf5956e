/** The query-side view of a sample: a metric (label name to label value map)
    with one value at one timestamp, as a range or instant query returns it. */
module QueryModel {
  import opened Prompb

  /** Label names map to label values; a later write to a name replaces an earlier one. */
  type Metric = map<string, string>

  datatype VectorSample = VectorSample(metric: Metric, value: Float64, timestamp: int)

  type Vector = seq<VectorSample>
}
