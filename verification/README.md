# prompush push cycle, modelled in Dafny

prompush is a synthetic metrics generator. Every five seconds it builds one
Prometheus time series, `prompush_series`, with one random sample and one
exemplar that mirrors it. It sends the series to a remote-write endpoint as a
snappy-compressed protobuf `WriteRequest` over an HTTP POST with Basic
credentials. This project models one push cycle of `run.go` and proves what
that cycle promises:

- how the series and its expected query vector are built (`generateSeries`);
- what HTTP request describes the push;
- how the endpoint's status code is classified;
- which fixed arguments each cycle passes.

Modules, one per concern:

- `Wrappers` (wrappers.dfy): `Option` and `Outcome`. An `Outcome` is Go's `error` result: `Pass` is nil.
- `Prompb` (prompb.dfy): the remote-write message types `Label`, `Sample`, `Exemplar`, `TimeSeries` and `WriteRequest`, plus label-list helpers (`Names`, `CountNamed`, `DistinctNames`).
- `QueryModel` (querymodel.dfy): the query-side `Metric` map and `Vector`.
- `Http` (http.dfy): the request record, with header fields kept Go-style. `AddHeader` appends a value and `SetHeader` replaces all values.
- `Decimal` (decimal.dfy): Go's `%d` rendering of integers, with a strict parser that reads the number back and rejects every other text.
- `Run` (run.dfy): the pusher configuration, series generation, the request builder, status classification, the push and one cycle.

The pusher's configuration never changes, so it is a datatype.
`generateSeries` fills its metric map in a loop, so it is a method with a loop
and invariants. Building the label list and the series is plain value
construction. The random value and the millisecond timestamp are parameters
of `GenerateSeries` and `Loop`, so the model is deterministic.

The external steps of a push are the fields of an `Environment` value:

- protobuf marshalling, which may fail;
- snappy compression;
- URL acceptance inside `http.NewRequest`;
- the HTTP round trip. It is handed the request and its 5000 ms deadline. It answers with a status code, or with `None` for any transport failure.

`PushTimeSeries` is then a pure function of the configuration, the series and
the environment.

Three facts about `run.go` shape the model:

- `http.DefaultClient.Do` returns a deadline expiry like any other transport error, so the model has no separate timeout error (`TransportFailed` covers both).
- `generateSeries` does not check that the additional labels avoid `__name__` or repeat no name. The properties that need this are proved under that condition, and the model also states what happens without it.
- `timeToMilliseconds` rounds in float64 arithmetic and then truncates, which does not guarantee the nearest millisecond; it is not modelled.

## Model

| member | source | states |
|---|---|---|
| `Run.GenerateSeries` | run.go:101-143 | The result is exactly one series. Its labels are `__name__=name` followed by the additional labels in their given order. It holds one sample `(value, ts)` and one exemplar with the same value and timestamp, labelled only with the configured exemplar label. The vector has one sample with the same value and timestamp. Its metric's keys are `__name__` plus the additional label names, which are also the series' label names. Each key maps to the value of the last additional label with that name, or to `name` if there is none. The series has a single `__name__` exactly when no additional label is named `__name__`. With distinct names, the metric maps every series label to that label's value. |
| `Run.LastValueIsLastWrite` | run.go:130-134 | Writing the labels into the map in order leaves, for each name, the value of the last label with that name. There is an index holding that value and no later label has the name. A name no label uses keeps its default. |
| `Run.NameLabelFirst` | run.go:105-110 | Prefixing the metric-name label adds exactly `__name__` to the set of names. The result has exactly one `__name__` label iff the additional labels have none. |
| `Run.ExpectedMetricAgrees` | run.go:129-140 | If the series' label names are distinct, the expected query metric equals the series' labels read as a map. |
| `Run.CycleLabelsWellFormed` | run.go:55-58 | For any user, the labels every cycle pushes have distinct names and exactly one `__name__`. |
| `Run.PushUrl` | run.go:75 | The URL splits into `http://`, the host unchanged, and `/api/v1/push`, so the host can be read back from it. |
| `Http.NewRequest` | run.go:75 | A newly created request carries the given method, URL and body, with no header fields and no credentials. |
| `Run.BuildRequest` | run.go:75-83 | The request is a POST to `http://<host>/api/v1/push`. Besides the credentials, it has exactly three header fields with one value each: `Content-Encoding: snappy`, `Content-Type: application/x-protobuf` and `X-Prometheus-Remote-Write-Version: 0.1.0`. The credentials are the pusher's user and password, empty or not; they stand for Go's `Authorization` field. Its body is the given bytes. |
| `Run.GoDiv` | run.go:95 | Go's integer division truncates toward zero: the remainder has the dividend's sign and is smaller than the divisor. |
| `Run.CheckStatus` | run.go:95-98 | For every integer code, the response passes iff the code is in 200..299, the 2xx class of section 15.3 of RFC 9110. Otherwise the error is `UnexpectedStatus(code)`. |
| `Run.StatusMessage` | run.go:96 | The error text starts with `unexpected response status code: `. The rest is exactly the code's `%d` rendering, and the strict parser reads the code back from it. |
| `Run.ErrorText` | run.go:96 | A push error has a known text exactly when it is a status error. That text is the fixed prefix followed by exactly the `%d` rendering of the error's code, which reads back from it. |
| `Decimal.FormatInt` | run.go:96 | `%d` writes a minus sign exactly for negative numbers, then at least one digit and no leading zero. |
| `Decimal.ParseFormatInt` | run.go:96 | `%d` rendering loses nothing: parsing the rendered integer gives it back. |
| `Decimal.FormatParseInt` | run.go:96 | The parser accepts only `%d` renderings: any text it reads as `n` is exactly the rendering of `n`, so no stray character, leading zero or `-0` passes. |
| `Decimal.FormatIntInjective` | run.go:96 | Distinct status codes render to distinct texts. |
| `Run.PushTimeSeries` | run.go:66-99 | A marshal failure is reported as `MarshalFailed`, and only then. A rejected URL is reported as `RequestFailed`, and only then. The push passes iff marshalling succeeds, the URL is accepted, and the request sent returns 2xx. That request is `BuildRequest` around the compressed bytes, sent with the 5000 ms deadline. A transport failure is reported as `TransportFailed`, and only then. When the endpoint answers `c` outside 2xx, the result is `UnexpectedStatus(c)`. `UnexpectedStatus(c)` is returned only in that case. |
| `Run.Loop` | run.go:53-64 | One cycle's result is the push of the single series `[__name__=prompush_series, job=prompush, user=<user>]`. That series has sample `(value, ts)` and exemplar `(value, ts, [<exemplar label>])`. The vector is discarded. |
| `Http.AddHeader` | run.go:80 | Adding a field appends the value after any existing values of that name. Every other field and the rest of the request are unchanged. |
| `Http.SetHeader` | run.go:81-82 | Setting a field replaces its values with the single given value. Every other field and the rest of the request are unchanged. |
| `Http.SetBasicAuth` | run.go:83 | Setting Basic auth records exactly the given user and password, in place of Go's `Authorization` header field. The header map, method, URL and body are unchanged. |

## Left out

- `timeToMilliseconds` (run.go:145-157): float64 arithmetic (`math.Modf`, `math.Round`, truncating conversion). Its result is the `tsMillis` input, and no rounding property is claimed.
- `rand.Float64()` (run.go:103): the random source. The drawn value is the `value` parameter. Its range [0, 1) is not used by any property.
- Sample values are reals compared only for equality. Float64 bit patterns and NaN are not modelled.
- Timestamps are unbounded integers. The int64 width of `tsMillis` is not modelled, because nothing here does arithmetic on it.
- `proto.Marshal` and `snappy.Encode` (run.go:68, run.go:74): foreign encoders, modelled as the opaque `marshal` and `compress` functions of `Environment`. Their wire format and round trip are outside the model.
- `http.NewRequest`'s URL parsing (run.go:75-78): modelled as the opaque `urlParses` predicate.
- `Http.SetBasicAuth`: records the credentials pair. It does not build the base64 `Authorization: Basic …` header value that Go writes.
- `Http.AddHeader`, `Http.SetHeader`: do not canonicalise field names. Every name used here is already in canonical form.
- `http.DefaultClient.Do`, the 5-second `context.WithTimeout` and `res.Body.Close()` (run.go:85-93): network I/O, timing and connection release. The transport is the opaque `send` function, which receives the deadline.
- Errors from marshalling, request creation and transport are kept only as kinds (`MarshalFailed`, `RequestFailed`, `TransportFailed`), without Go's error texts.
- `runPush` (run.go:28-51): the ticker loop and `log.Fatal` termination are process lifecycle. Only one cycle (`Loop`) is modelled.
- `log.Printf` (run.go:62): observational only.
- Go strings are byte strings; here they are sequences of characters. Lengths, such as the one `PushUrl` states, count characters where Go's `len` counts bytes, and a host, user or label that is not valid UTF-8 cannot be represented. No behaviour of the push cycle depends on this.
- main.go: command-line flag parsing and process start-up. Its defaults are not part of this model.
