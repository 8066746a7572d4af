/** One ping result and `parse_results`, which reshapes it into the record
    published for its destination and for the aggregate key `'ALL'`. */
module PingResults {
  import opened Wrappers
  import opened Dicts

  /** The fields of a parsed ping result that the core reads. Each number may be
      `None`; Python's ints and floats are both carried as reals. */
  datatype RawResult = RawResult(
    destination: string,
    packetTransmit: Option<real>,
    packetReceive: Option<real>,
    packetLossRate: Option<real>,
    rttAvg: Option<real>)

  /** `int(None)` raises a TypeError; the field it was applied to is recorded. */
  datatype ParseError = MissingValue(field: string)

  /** The metric values of one destination: metric name to truncated value. */
  type MetricValues = Dict<int>

  /** What `parse_results` returns: destination key to metric values. */
  type Record = Dict<MetricValues>

  const AllKey: string := "ALL"

  /** The raw fields `parse_results` converts, in the order it converts them. */
  const RawFields: seq<string> := ["packet_transmit", "packet_receive", "packet_loss_rate", "rtt_avg"]

  /** The metric names, in the order of the literal that builds the value map;
      the i-th name holds the truncation of the i-th raw field. */
  const MetricNames: seq<string> := ["transmitted_count", "received_count", "loss", "latency"]

  /** The raw field named `RawFields[i]`. */
  function Field(raw: RawResult, i: nat): Option<real>
    requires i < |RawFields|
  {
    if i == 0 then raw.packetTransmit
    else if i == 1 then raw.packetReceive
    else if i == 2 then raw.packetLossRate
    else raw.rttAvg
  }

  /** All four numbers `parse_results` converts are present. */
  predicate Complete(raw: RawResult)
  {
    && raw.packetTransmit.Some?
    && raw.packetReceive.Some?
    && raw.packetLossRate.Some?
    && raw.rttAvg.Some?
  }

  /** Python's `int(x)` on a finite number: truncation toward zero. */
  function Trunc(x: real): (n: int)
    ensures 0.0 <= x ==> 0 <= n && n as real <= x < n as real + 1.0
    ensures x < 0.0 ==> n <= 0 && n as real - 1.0 < x <= n as real
  {
    if x >= 0.0 then x.Floor else -((-x).Floor)
  }

  /** Python truthiness of `result['packet_transmit']`: present and non-zero. */
  predicate Transmitted(raw: RawResult)
  {
    raw.packetTransmit.Some? && raw.packetTransmit.value != 0.0
  }

  /** `parse_results`: truncate the four numbers, build the value map, and map
      both the destination and `'ALL'` to that same value map. */
  function ParseResults(raw: RawResult): (r: Result<Record, ParseError>)
    ensures r.Ok? <==> Complete(raw)
  {
    if raw.packetTransmit.None? then Err(MissingValue("packet_transmit"))
    else if raw.packetReceive.None? then Err(MissingValue("packet_receive"))
    else if raw.packetLossRate.None? then Err(MissingValue("packet_loss_rate"))
    else if raw.rttAvg.None? then Err(MissingValue("rtt_avg"))
    else
      var transmitted := Trunc(raw.packetTransmit.value);
      var received := Trunc(raw.packetReceive.value);
      var loss := Trunc(raw.packetLossRate.value);
      var latency := Trunc(raw.rttAvg.value);
      var destination := raw.destination;
      var metricValues := ValueMap(transmitted, received, loss, latency);
      Ok(RecordOf(destination, metricValues))
  }

  /** The dict `{'transmitted_count': ..., 'received_count': ..., 'loss': ...,
      'latency': ...}`; its keys are distinct, so it is the four entries in
      order (ValueMapIsDictLiteral). */
  function ValueMap(transmitted: int, received: int, loss: int, latency: int): MetricValues
  {
    [ Entry("transmitted_count", transmitted),
      Entry("received_count", received),
      Entry("loss", loss),
      Entry("latency", latency) ]
  }

  /** The dict `{destination: metric_values, 'ALL': metric_values}`: one entry
      when the destination is itself `'ALL'`, two otherwise
      (RecordOfIsDictLiteral). */
  function RecordOf(destination: string, metricValues: MetricValues): Record
  {
    if destination == AllKey then [Entry(AllKey, metricValues)]
    else [Entry(destination, metricValues), Entry(AllKey, metricValues)]
  }

  /** The value-map literal has no repeated key, so the dict it builds holds
      the four metric names in order. */
  lemma ValueMapIsDictLiteral(transmitted: int, received: int, loss: int, latency: int)
    ensures var literal := ValueMap(transmitted, received, loss, latency);
      DictLiteral(literal) == literal && KeyList(literal) == MetricNames
  {
    var literal := ValueMap(transmitted, received, loss, latency);
    assert DistinctKeys(literal) by {
      forall i, j | 0 <= i < j < |literal| ensures literal[i].key != literal[j].key {
        assert literal[i].key == MetricNames[i] && literal[j].key == MetricNames[j];
      }
    }
    DictLiteralOfDistinct(literal);
    assert KeyList(literal) == MetricNames;
  }

  /** A raw result that is not complete makes `parse_results` raise, naming
      the first absent field in conversion order. */
  lemma ParseResultsError(raw: RawResult)
    requires !Complete(raw)
    ensures ParseResults(raw).Err?
    ensures exists i | 0 <= i < |RawFields| ::
      && ParseResults(raw).error == MissingValue(RawFields[i])
      && Field(raw, i).None?
      && forall j | 0 <= j < i :: Field(raw, j).Some?
  {
    var i := if raw.packetTransmit.None? then 0
      else if raw.packetReceive.None? then 1
      else if raw.packetLossRate.None? then 2
      else 3;
    assert ParseResults(raw).error == MissingValue(RawFields[i]);
  }

  /** The value map of a complete raw result: each metric name holds the
      truncation of the raw field in the same position. */
  ghost predicate IsMetricValuesOf(mv: MetricValues, raw: RawResult)
  {
    && KeyList(mv) == MetricNames
    && forall m | 0 <= m < |MetricNames| ::
         Field(raw, m).Some? && mv[m].value == Trunc(Field(raw, m).value)
  }

  /** The record has the destination key first and `'ALL'` last, only those
      keys, and one entry when the destination is itself `'ALL'`. */
  lemma ParseResultsKeys(raw: RawResult)
    requires ParseResults(raw).Ok?
    ensures var rec := ParseResults(raw).value;
      && Keys(rec) == {raw.destination, AllKey}
      && |rec| == (if raw.destination == AllKey then 1 else 2)
      && rec[0].key == raw.destination
      && rec[|rec| - 1].key == AllKey
  {
    ParseResultsValues(raw);
    var rec := ParseResults(raw).value;
    if |rec| == 1 {
      assert rec[1..] == [];
    } else {
      assert rec[1..][1..] == [];
      assert Keys(rec[1..]) == {AllKey};
    }
  }

  /** Every key of the record maps to the same value map, which holds exactly
      the four metric names, each the truncation of its raw field. */
  lemma ParseResultsValues(raw: RawResult)
    requires ParseResults(raw).Ok?
    ensures var rec := ParseResults(raw).value;
      && 1 <= |rec| <= 2
      && rec[0].key == raw.destination
      && rec[|rec| - 1].key == AllKey
      && (|rec| == 1 <==> raw.destination == AllKey)
      && forall i | 0 <= i < |rec| :: rec[i].value == rec[0].value && IsMetricValuesOf(rec[i].value, raw)
  {
    var t, rc, l, lat := Trunc(raw.packetTransmit.value), Trunc(raw.packetReceive.value),
                         Trunc(raw.packetLossRate.value), Trunc(raw.rttAvg.value);
    ValueMapIsDictLiteral(t, rc, l, lat);
    var mv := ValueMap(t, rc, l, lat);
    assert ParseResults(raw).value == RecordOf(raw.destination, mv);
    assert IsMetricValuesOf(mv, raw);
  }

  /** The two-key record literal, evaluated as Python does: the second `'ALL'`
      overwrites the first when the destination is `'ALL'`. */
  lemma RecordOfIsDictLiteral(destination: string, mv: MetricValues)
    ensures RecordOf(destination, mv) == DictLiteral([Entry(destination, mv), Entry(AllKey, mv)])
  {
    var pair := [Entry(destination, mv), Entry(AllKey, mv)];
    if destination != AllKey {
      DictLiteralOfDistinct(pair);
    } else {
      assert pair[..1] == [Entry(AllKey, mv)];
      DictLiteralOfDistinct(pair[..1]);
      assert Keys([Entry(AllKey, mv)]) == {AllKey};
    }
  }
}
