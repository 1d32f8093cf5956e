/** One push cycle of the synthetic metrics generator: build a single series
    with one sample and one mirroring exemplar, describe the remote-write HTTP
    request that carries it, and classify the endpoint's answer. */
module Run {
  import opened Wrappers
  import opened Prompb
  import opened QueryModel
  import opened Http
  import opened Decimal

  /** The pusher's configuration; it is set once and never changed. */
  datatype Pusher = Pusher(
    host: string,
    user: string,
    password: string,
    exemplarLabelName: string,
    exemplarLabelValue: string)

  /** The metric name and fixed job label value of every cycle. */
  const CycleMetricName: string := "prompush_series"
  const CycleJob: string := "prompush"

  /** The round-trip deadline of one push, in milliseconds (five seconds). */
  const PushDeadlineMillis: nat := 5000

  const PushPath: string := "/api/v1/push"

  const StatusMessagePrefix: string := "unexpected response status code: "

  /** The ways a push can fail. The errors of the serialiser, of request
      construction and of the transport are kept as kinds only. */
  datatype PushError =
    | MarshalFailed
    | RequestFailed
    | TransportFailed
    | UnexpectedStatus(code: int)

  /** What a push needs from the world outside the model: the wire encoder
      (which may fail), the block compressor, whether the URL is accepted
      when the request is created, and the transport, which is handed the
      request and its deadline and answers with a status code or `None` for
      any transport failure, deadline expiry included. */
  datatype Environment = Environment(
    marshal: WriteRequest -> Option<Bytes>,
    compress: Bytes -> Bytes,
    urlParses: string -> bool,
    send: (Request, nat) -> Option<int>)

  // ---------------------------------------------------------------------
  // Series generation
  // ---------------------------------------------------------------------

  /** The value of the last label of `ls` named `k`, or `dflt` when no label
      has that name: what a map holds for `k` after it starts as `dflt` (or
      absent) and the labels of `ls` are written into it in order. */
  function LastValue(ls: seq<Label>, k: string, dflt: string): string
  {
    if ls == [] then dflt
    else if ls[|ls| - 1].name == k then ls[|ls| - 1].value
    else LastValue(ls[..|ls| - 1], k, dflt)
  }

  /** `LastValue` picks the value of the last label with the name, and falls
      back to the default exactly when no label has it. */
  lemma {:induction false} LastValueIsLastWrite(ls: seq<Label>, k: string, dflt: string)
    ensures k !in Names(ls) ==> LastValue(ls, k, dflt) == dflt
    ensures k in Names(ls) ==>
      exists i :: 0 <= i < |ls| && ls[i].name == k && LastValue(ls, k, dflt) == ls[i].value &&
        forall j :: i < j < |ls| ==> ls[j].name != k
  {
    if ls != [] {
      var init := ls[..|ls| - 1];
      var last := ls[|ls| - 1];
      LastValueIsLastWrite(init, k, dflt);
      assert ls == init + [last];
      assert Names(ls) == Names(init) + {last.name};
      if last.name != k && k in Names(ls) {
        var i :| 0 <= i < |init| && init[i].name == k && LastValue(init, k, dflt) == init[i].value &&
          forall j :: i < j < |init| ==> init[j].name != k;
        assert ls[i] == init[i];
      }
    }
  }

  /** Every key of `m` holds the last value `ls` writes for it, or `dflt`. */
  predicate HoldsLastValues(m: Metric, ls: seq<Label>, dflt: string)
  {
    forall k :: k in m ==> m[k] == LastValue(ls, k, dflt)
  }

  /** `m` maps the name of every label of `ls` to that label's value. */
  predicate AgreesWithLabels(m: Metric, ls: seq<Label>)
  {
    forall l :: l in ls ==> l.name in m && m[l.name] == l.value
  }

  /** Builds the single series of one push and the vector a query for it is
      expected to return. The label list is the metric name followed by the
      additional labels in their given order; the exemplar repeats the
      sample's value and timestamp and carries the configured label only.
      The expected metric holds the metric name and then each additional
      label, a later label overwriting an earlier one of the same name. */
  method GenerateSeries(p: Pusher, name: string, tsMillis: int, value: Float64, additionalLabels: seq<Label>) returns (series: seq<TimeSeries>, vector: Vector)
    ensures |series| == 1
    ensures |series[0].labels| == 1 + |additionalLabels|
    ensures series[0].labels[0] == Label(MetricName, name) && series[0].labels[1..] == additionalLabels
    ensures CountNamed(series[0].labels, MetricName) == 1 <==> MetricName !in Names(additionalLabels)
    ensures |series[0].samples| == 1 && series[0].samples[0] == Sample(value, tsMillis)
    ensures |series[0].exemplars| == 1
    ensures series[0].exemplars[0].value == series[0].samples[0].value
    ensures series[0].exemplars[0].timestamp == series[0].samples[0].timestamp
    ensures series[0].exemplars[0].labels == [Label(p.exemplarLabelName, p.exemplarLabelValue)]
    ensures |vector| == 1 && vector[0].value == value && vector[0].timestamp == tsMillis
    ensures vector[0].metric.Keys == {MetricName} + Names(additionalLabels)
    ensures vector[0].metric.Keys == Names(series[0].labels)
    ensures HoldsLastValues(vector[0].metric, additionalLabels, name)
    ensures DistinctNames(series[0].labels) ==> AgreesWithLabels(vector[0].metric, series[0].labels)
  {
    var lbls := [Label(MetricName, name)] + additionalLabels;

    series := [];
    series := series + [TimeSeries(
      lbls,
      [Sample(value, tsMillis)],
      [Exemplar([Label(p.exemplarLabelName, p.exemplarLabelValue)], value, tsMillis)])];

    var metric: Metric := map[];
    metric := metric[MetricName := name];
    for i := 0 to |additionalLabels|
      invariant metric.Keys == {MetricName} + Names(additionalLabels[..i])
      invariant forall k :: k in metric ==> metric[k] == LastValue(additionalLabels[..i], k, name)
    {
      var lbl := additionalLabels[i];
      assert additionalLabels[..i + 1] == additionalLabels[..i] + [lbl];
      assert additionalLabels[..i + 1][..i] == additionalLabels[..i];
      assert Names(additionalLabels[..i + 1]) == Names(additionalLabels[..i]) + {lbl.name};
      metric := metric[lbl.name := lbl.value];
    }
    assert additionalLabels[..|additionalLabels|] == additionalLabels;

    vector := [];
    vector := vector + [VectorSample(metric, value, tsMillis)];

    NameLabelFirst(name, additionalLabels);
    if DistinctNames(lbls) {
      ExpectedMetricAgrees(name, additionalLabels, metric);
    }
  }

  /** Prefixing the metric-name label adds `__name__` to the names, and the
      result has a single `__name__` exactly when the additional labels have none. */
  lemma NameLabelFirst(name: string, additionalLabels: seq<Label>)
    ensures Names([Label(MetricName, name)] + additionalLabels) == {MetricName} + Names(additionalLabels)
    ensures CountNamed([Label(MetricName, name)] + additionalLabels, MetricName) == 1 <==> MetricName !in Names(additionalLabels)
  {
    var lbls := [Label(MetricName, name)] + additionalLabels;
    assert forall l :: l in lbls <==> l == Label(MetricName, name) || l in additionalLabels;
    CountNamedAppend([Label(MetricName, name)], additionalLabels, MetricName);
    CountNamedPositive(additionalLabels, MetricName);
    assert [Label(MetricName, name)][..0] == [];
  }

  /** When the series' label names are distinct, the expected metric maps
      every series label's name to that label's value. */
  lemma ExpectedMetricAgrees(name: string, additionalLabels: seq<Label>, metric: Metric)
    requires DistinctNames([Label(MetricName, name)] + additionalLabels)
    requires metric.Keys == {MetricName} + Names(additionalLabels)
    requires HoldsLastValues(metric, additionalLabels, name)
    ensures AgreesWithLabels(metric, [Label(MetricName, name)] + additionalLabels)
  {
    var lbls := [Label(MetricName, name)] + additionalLabels;
    assert DistinctNames(additionalLabels) by {
      forall a, b | 0 <= a < b < |additionalLabels|
        ensures additionalLabels[a].name != additionalLabels[b].name
      {
        assert lbls[a + 1] == additionalLabels[a] && lbls[b + 1] == additionalLabels[b];
      }
    }
    assert lbls[0].name == MetricName;
    assert MetricName !in Names(additionalLabels) by {
      forall l | l in additionalLabels
        ensures l.name != MetricName
      {
        var j :| 0 <= j < |additionalLabels| && additionalLabels[j] == l;
        assert lbls[j + 1] == l;
      }
    }
    forall l | l in lbls
      ensures l.name in metric && metric[l.name] == l.value
    {
      var i :| 0 <= i < |lbls| && lbls[i] == l;
      if i == 0 {
        LastValueIsLastWrite(additionalLabels, MetricName, name);
      } else {
        assert additionalLabels[i - 1] == l && l in additionalLabels;
        LastValueIsLastWrite(additionalLabels, l.name, name);
      }
    }
  }

  // ---------------------------------------------------------------------
  // Request description
  // ---------------------------------------------------------------------

  /** The endpoint URL of the pusher's host: scheme, host, push path. */
  function PushUrl(host: string): (u: string)
    ensures |u| == 7 + |host| + |PushPath|
    ensures u[..7] == "http://" && u[7..7 + |host|] == host && u[7 + |host|..] == PushPath
  {
    "http://" + host + PushPath
  }

  /** The remote-write request carrying `body`: a POST to the push URL with
      the compression, content-type and protocol-version header fields, one
      value each, and the pusher's Basic credentials, empty or not. */
  function BuildRequest(p: Pusher, body: Bytes): (r: Request)
    ensures r == Request(
      "POST",
      "http://" + p.host + "/api/v1/push",
      map[
        "Content-Encoding" := ["snappy"],
        "Content-Type" := ["application/x-protobuf"],
        "X-Prometheus-Remote-Write-Version" := ["0.1.0"]],
      Some(Credentials(p.user, p.password)),
      body)
  {
    var r0 := NewRequest("POST", PushUrl(p.host), body);
    var r1 := AddHeader(r0, "Content-Encoding", "snappy");
    var r2 := SetHeader(r1, "Content-Type", "application/x-protobuf");
    var r3 := SetHeader(r2, "X-Prometheus-Remote-Write-Version", "0.1.0");
    assert r0.header == map[];
    assert r1.header.Keys == {"Content-Encoding"};
    assert r1.header["Content-Encoding"] == ["snappy"];
    assert r1.header == map["Content-Encoding" := ["snappy"]];
    assert r2.header == map["Content-Encoding" := ["snappy"], "Content-Type" := ["application/x-protobuf"]];
    assert r3.header == map[
      "Content-Encoding" := ["snappy"],
      "Content-Type" := ["application/x-protobuf"],
      "X-Prometheus-Remote-Write-Version" := ["0.1.0"]];
    SetBasicAuth(r3, p.user, p.password)
  }

  // ---------------------------------------------------------------------
  // Response classification
  // ---------------------------------------------------------------------

  /** Go's integer division, which truncates toward zero: the remainder
      `a - q * b` has the sign of `a` and is smaller than `b` in magnitude. */
  function GoDiv(a: int, b: int): (q: int)
    requires b > 0
    ensures a >= 0 ==> 0 <= a - q * b < b
    ensures a < 0 ==> -b < a - q * b <= 0
  {
    if a >= 0 then a / b else -((-a) / b)
  }

  /** The text of the error for a status outside the success class: the
      fixed prefix followed by the code in base 10. The strict parser reads
      the code back from the rest, so by `FormatParseInt` the rest is exactly
      the code's `%d` rendering. */
  function StatusMessage(code: int): (msg: string)
    ensures |msg| > |StatusMessagePrefix| && msg[..|StatusMessagePrefix|] == StatusMessagePrefix
    ensures msg[|StatusMessagePrefix|..] == FormatInt(code)
    ensures ParseInt(msg[|StatusMessagePrefix|..]) == Some(code)
  {
    var msg := StatusMessagePrefix + FormatInt(code);
    assert msg[|StatusMessagePrefix|..] == FormatInt(code);
    ParseFormatInt(code);
    msg
  }

  /** The text of a push error where the model knows it. The texts of the
      encoder's, the request constructor's and the transport's errors come
      from foreign code and are `None`; a status error's text names its code. */
  function ErrorText(e: PushError): (text: Option<string>)
    ensures text.Some? <==> e.UnexpectedStatus?
    ensures e.UnexpectedStatus? ==> |text.value| > |StatusMessagePrefix| && text.value[..|StatusMessagePrefix|] == StatusMessagePrefix
    ensures e.UnexpectedStatus? ==> text.value[|StatusMessagePrefix|..] == FormatInt(e.code)
    ensures e.UnexpectedStatus? ==> ParseInt(text.value[|StatusMessagePrefix|..]) == Some(e.code)
  {
    match e
    case UnexpectedStatus(code) => Some(StatusMessage(code))
    case _ => None
  }

  /** A response succeeds when its status code is in the successful class,
      2xx (section 15.3 of RFC 9110); any other code is an error naming it. */
  function CheckStatus(code: int): (r: Outcome<PushError>)
    ensures r == Pass <==> 200 <= code <= 299
    ensures r != Pass ==> r == Fail(UnexpectedStatus(code))
  {
    if GoDiv(code, 100) != 2 then Fail(UnexpectedStatus(code)) else Pass
  }

  // ---------------------------------------------------------------------
  // Push and one cycle
  // ---------------------------------------------------------------------

  /** The push gets as far as sending: the write request encodes and the
      push URL is accepted. */
  predicate RequestSent(p: Pusher, timeseries: seq<TimeSeries>, env: Environment)
  {
    env.marshal(WriteRequest(timeseries)).Some? && env.urlParses(PushUrl(p.host))
  }

  /** The transport's answer to the request built around the compressed
      encoding, sent with the push deadline. */
  function Answer(p: Pusher, timeseries: seq<TimeSeries>, env: Environment): Option<int>
    requires env.marshal(WriteRequest(timeseries)).Some?
  {
    env.send(BuildRequest(p, env.compress(env.marshal(WriteRequest(timeseries)).value)), PushDeadlineMillis)
  }

  /** Encodes the write request, compresses it and sends the request built
      around the compressed bytes, within the push deadline. It succeeds
      exactly when all three steps go through and the endpoint answers 2xx;
      each failure is reported as the first step that failed, a status
      outside 2xx as that very status. */
  function PushTimeSeries(p: Pusher, timeseries: seq<TimeSeries>, env: Environment): (r: Outcome<PushError>)
    ensures r == Fail(MarshalFailed) <==> env.marshal(WriteRequest(timeseries)).None?
    ensures r == Fail(RequestFailed) <==> env.marshal(WriteRequest(timeseries)).Some? && !env.urlParses(PushUrl(p.host))
    ensures r == Fail(TransportFailed) <==> RequestSent(p, timeseries, env) && Answer(p, timeseries, env).None?
    ensures r == Pass <==> RequestSent(p, timeseries, env) && Answer(p, timeseries, env).Some? && 200 <= Answer(p, timeseries, env).value <= 299
    ensures RequestSent(p, timeseries, env) && Answer(p, timeseries, env).Some? && !(200 <= Answer(p, timeseries, env).value <= 299) ==> r == Fail(UnexpectedStatus(Answer(p, timeseries, env).value))
    ensures r.Fail? && r.error.UnexpectedStatus? ==> RequestSent(p, timeseries, env) && Answer(p, timeseries, env) == Some(r.error.code) && !(200 <= r.error.code <= 299)
  {
    match env.marshal(WriteRequest(timeseries))
    case None => Fail(MarshalFailed)
    case Some(data) =>
      var compressed := env.compress(data);
      var url := PushUrl(p.host);
      if !env.urlParses(url) then Fail(RequestFailed)
      else
        match env.send(BuildRequest(p, compressed), PushDeadlineMillis)
        case None => Fail(TransportFailed)
        case Some(code) => CheckStatus(code)
  }

  /** One cycle: generate the `prompush_series` series labelled with the job
      and the pusher's user at the given time and value, push it, and return
      the push's result. The expected vector is not used. */
  method Loop(p: Pusher, tsMillis: int, value: Float64, env: Environment) returns (r: Outcome<PushError>)
    ensures r == PushTimeSeries(p, [TimeSeries(
      [Label(MetricName, "prompush_series"), Label("job", "prompush"), Label("user", p.user)],
      [Sample(value, tsMillis)],
      [Exemplar([Label(p.exemplarLabelName, p.exemplarLabelValue)], value, tsMillis)])], env)
  {
    var series, _ := GenerateSeries(p, CycleMetricName, tsMillis, value,
      [Label("job", CycleJob), Label("user", p.user)]);
    var lbls := series[0].labels;
    assert lbls == [lbls[0]] + lbls[1..];
    assert lbls == [Label(MetricName, CycleMetricName), Label("job", CycleJob), Label("user", p.user)];
    assert series[0].samples == [Sample(value, tsMillis)];
    assert series[0].exemplars == [Exemplar([Label(p.exemplarLabelName, p.exemplarLabelValue)], value, tsMillis)];
    assert series == [series[0]];
    r := PushTimeSeries(p, series, env);
  }

  /** The labels of every cycle's series carry a single `__name__` and no
      two of them share a name, whatever the pusher's user is. */
  lemma {:induction false} CycleLabelsWellFormed(user: string)
    ensures DistinctNames([Label(MetricName, CycleMetricName), Label("job", CycleJob), Label("user", user)])
    ensures CountNamed([Label(MetricName, CycleMetricName), Label("job", CycleJob), Label("user", user)], MetricName) == 1
  {
    var extra := [Label("job", CycleJob), Label("user", user)];
    NameLabelFirst(CycleMetricName, extra);
    assert MetricName !in Names(extra);
    assert [Label(MetricName, CycleMetricName)] + extra
      == [Label(MetricName, CycleMetricName), Label("job", CycleJob), Label("user", user)];
  }
}
