/** The remote-write message types a push carries: labels, samples, exemplars,
    time series and the write request that wraps them. */
module Prompb {

  /** Sample values are 64-bit floats drawn at random; the model only ever
      copies them and compares them for equality, so a real number stands in. */
  type Float64 = real

  /** The reserved label name that carries the metric name. */
  const MetricName: string := "__name__"

  datatype Label = Label(name: string, value: string)

  /** One observed point; the timestamp is in milliseconds since the epoch. */
  datatype Sample = Sample(value: Float64, timestamp: int)

  datatype Exemplar = Exemplar(labels: seq<Label>, value: Float64, timestamp: int)

  datatype TimeSeries = TimeSeries(labels: seq<Label>, samples: seq<Sample>, exemplars: seq<Exemplar>)

  datatype WriteRequest = WriteRequest(timeseries: seq<TimeSeries>)

  /** The set of names used by a label list. */
  function Names(ls: seq<Label>): set<string>
  {
    set l | l in ls :: l.name
  }

  /** How many labels of `ls` are named `n`. */
  function CountNamed(ls: seq<Label>, n: string): nat
  {
    if ls == [] then 0
    else CountNamed(ls[..|ls| - 1], n) + (if ls[|ls| - 1].name == n then 1 else 0)
  }

  /** No two labels of `ls` share a name. */
  predicate DistinctNames(ls: seq<Label>)
  {
    forall i, j :: 0 <= i < j < |ls| ==> ls[i].name != ls[j].name
  }

  /** A label list names `n` exactly when its count of `n` is positive. */
  lemma {:induction false} CountNamedPositive(ls: seq<Label>, n: string)
    ensures CountNamed(ls, n) > 0 <==> n in Names(ls)
  {
    if ls != [] {
      var init := ls[..|ls| - 1];
      CountNamedPositive(init, n);
      assert ls == init + [ls[|ls| - 1]];
      assert Names(ls) == Names(init) + {ls[|ls| - 1].name};
    }
  }

  /** Counting is additive over concatenation of label lists. */
  lemma {:induction false} CountNamedAppend(a: seq<Label>, b: seq<Label>, n: string)
    ensures CountNamed(a + b, n) == CountNamed(a, n) + CountNamed(b, n)
  {
    if b != [] {
      var init := b[..|b| - 1];
      assert (a + b)[..|a + b| - 1] == a + init;
      CountNamedAppend(a, init, n);
    } else {
      assert a + b == a;
    }
  }
}
