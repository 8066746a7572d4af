# endpointping: one publishing pass, modelled in Dafny

endpointping pings a list of IPv4 endpoints and sends the results to
CloudWatch. This project models the part of `main.py` that turns the parsed
ping results of one pass into the `metric_data` list handed to
`put_metric_data`. That part has three pieces:

- `parse_results`: truncates `packet_transmit`, `packet_receive`,
  `packet_loss_rate` and `rtt_avg` with `int()`. It puts them in a value map
  under `transmitted_count`, `received_count`, `loss` and `latency`, and
  returns `{destination: metric_values, 'ALL': metric_values}`.
- The filter loop of `main`: it keeps, in endpoint order, each result whose
  `packet_transmit` is truthy and parses it. It warns about the others.
- The three nested loops of `send_to_cloudwatch`: they emit one datum per
  (record, destination key, metric name). Each datum has a `destination`
  dimension and a `Source` dimension. `Source` is `'ALL'` for a key that
  lower-cases to `all`, and the lower-cased hostname otherwise.

Modules:

- `Wrappers` (`wrappers.dfy`): `Option`, `Result`, and `Sequence`.
  `Sequence` runs steps that may raise, the way an exception stops a loop.
- `Dicts` (`dicts.dfy`): Python dicts as insertion-ordered sequences of
  entries with distinct keys. `Insert` models `d[k] = v`. `DictLiteral`
  models a `{...}` literal, evaluated left to right.
- `PingResults` (`ping_results.dfy`): the raw result, `int()` as truncation
  toward zero, and `parse_results`. Each raw number is an `Option<real>`.
  `int(None)` raising `TypeError` is the `Err(MissingValue(field))` outcome.
- `Collector` (`collector.dfy`): the filter loop as a method, proved against
  the functions `Kept`, `Dropped` and `ParseAll`.
- `CloudWatch` (`cloudwatch.dfy`): the `metric_data` loops as methods,
  proved against the functions `Groups`, `GroupsData` and `MetricData`.
- `Cycle` (`cycle.dfy`): one whole pass, and the properties that span the
  filter and the flattening.

Three consequences of `main.py` shape what the model states:

- A result with a falsy `packet_transmit` is dropped with a warning.
- A kept result with a missing number raises out of `main`, and nothing is
  sent for that pass.
- Each kept result contributes its own `'ALL'` group, published as its own
  four datums in order, so the last `'ALL'` block carries the last kept
  endpoint's values (`LastAllIsLastEndpoint`).

In `send_to_cloudwatch` the loop `for value in ping_metrics` reads
`ping_metrics[value]`. Since dict keys are distinct, the model walks the
(key, value) entries in iteration order instead.

## Model

| member | source | states |
|---|---|---|
| Dicts.Insert | main.py:54-59 | `d[k] = v` keeps keys distinct. The key set gains `k`. A new key is appended at the end. An existing key keeps the length. |
| Dicts.InsertExisting | main.py:59 | Assigning to a key already present overwrites that entry's value in place and leaves every other entry unchanged. |
| Dicts.DictLiteral | main.py:54-59 | A dict literal evaluated left to right always yields distinct keys. |
| Dicts.DictLiteralOfDistinct | main.py:54-58 | A literal without repeated keys yields exactly its entries, in written order. |
| PingResults.Trunc | main.py:49-52 | `int()` truncates toward zero: `0 <= n <= x < n+1` for non-negative `x`, and `n-1 < x <= n <= 0` for negative `x`. |
| PingResults.ParseResults | main.py:48-59 | `parse_results` returns a record exactly when all four numbers are present, and raises otherwise. |
| PingResults.ParseResultsError | main.py:49-52 | An incomplete result raises, naming the first absent field in conversion order. |
| PingResults.ValueMapIsDictLiteral | main.py:54-58 | The value-map literal is the four entries in order, keyed `transmitted_count`, `received_count`, `loss`, `latency`. |
| PingResults.RecordOfIsDictLiteral | main.py:59 | The record equals the literal `{destination: mv, 'ALL': mv}` evaluated as Python does. A destination `'ALL'` collapses it to one entry. |
| PingResults.ParseResultsKeys | main.py:53-59 | The record's keys are exactly `{destination, 'ALL'}`: destination first, `'ALL'` last, one entry iff the destination is `'ALL'`. |
| PingResults.ParseResultsValues | main.py:48-59 | Every key maps to the same value map. Its names are the four metric names in order, and metric `m` is the truncation of raw field `m`. |
| Wrappers.SequenceMeaning | main.py:92-94 | A run of raising steps succeeds iff every step does, and then holds every value in order. Otherwise it holds the first failing step's error. |
| Wrappers.SequenceAppend | main.py:92-94 | Running two blocks of steps in a row fails with the first block's error, else the second's, else concatenates the values. |
| Collector.Kept | main.py:92-94 | The filter's output is never longer than its input. |
| Collector.Dropped | main.py:95-96 | The warned-about results are never more than the input. |
| Collector.ParseAllMeaning | main.py:92-94 | The batch exists iff every kept result is complete, and then holds each kept result's record in order. Otherwise the error is that of the first incomplete kept result. |
| Collector.KeptAppend | main.py:92-96 | Filtering distributes over concatenation, for both the kept and the warned results. |
| Collector.ParseAllStopsAt | main.py:92-94 | A kept result that raises, after everything kept before it parsed, makes the whole loop raise its error. |
| Collector.CollectTransmitted | main.py:89-96 | The loop builds exactly `ParseAll(Kept(results))` and warns exactly about `Dropped(results)`. When it raises, the error comes from a transmitted result whose predecessors all parsed, and only the results before it were warned about. |
| Collector.KeptDroppedPartition | main.py:92-96 | Every result is kept or warned about, and never both: the lengths and multisets add up to the input. |
| Collector.KeptPositionsIncreasing | main.py:92-94 | The kept results' input positions are in range and strictly increasing. |
| Collector.KeptInOrder | main.py:92-94 | The k-th kept result is the input's result at the k-th kept position. |
| Collector.KeptPositionsExact | main.py:93 | A position is kept iff its result's `packet_transmit` is truthy. |
| CloudWatch.LowerIsAll | main.py:78 | `destination.lower() == 'all'` holds for exactly the eight case spellings of "all". |
| CloudWatch.SourceIsAll | main.py:76-79 | With the hostname lower-cased, `Source` is `'ALL'` iff the key lower-cases to `all`, and the lower-cased hostname otherwise. |
| CloudWatch.GroupsDataSourced | main.py:69-82 | Every datum of a flattened batch has exactly a `destination` dimension then a `Source` dimension, with `Source` decided by that datum's own destination. |
| CloudWatch.SendToCloudWatch | main.py:62-83 | The three nested loops build exactly `MetricData(transmit_cloudwatch, hostname)`. |
| CloudWatch.AppendRecord | main.py:67-83 | The loop over one record's keys appends exactly that record's groups' data, keys in order. |
| CloudWatch.AppendMetrics | main.py:68-83 | The loop over one value map appends one datum per metric, in the value map's order. |
| CloudWatch.GroupDataAt | main.py:68-83 | One group's data has one datum per metric. Datum `k` is metric `k` with its own key and value. |
| CloudWatch.GroupsDataAppend | main.py:66-83 | The data of two runs of groups is the first run's data followed by the second's. |
| CloudWatch.GroupsDataLength | main.py:66-83 | `metric_data` has one datum per (group, metric) pair; nothing is dropped or deduplicated. |
| CloudWatch.UniformLayout | main.py:66-83 | When every value map holds the four metric names, datum `4g+m` is metric `m` of group `g`. |
| Cycle.RunPass | main.py:89-97 | One pass publishes `PassData`. On success it warns exactly about the dropped results; when it raises, the error is that of a transmitted result whose kept predecessors all parsed, and it has warned exactly about the dropped results before that one. |
| Cycle.ParsedGroups | main.py:59 | A parsed batch has `2·kept − (#destinations equal to 'ALL')` groups. It has exactly one `'ALL'` group per kept result. Every value map holds the four names. The last group is `'ALL'` with the last kept result's values. |
| Cycle.PassSucceedsIff | main.py:92-94 | A pass publishes iff every result with a truthy `packet_transmit` has all four numbers. |
| Cycle.PassLength | main.py:59-83 | `metric_data` has `4·(2·kept − #destinations equal to 'ALL')` datums. |
| Cycle.PassLengthEight | main.py:89-97 | With no endpoint named `'ALL'`, a pass emits exactly 8 datums per kept result. |
| Cycle.PassLayout | main.py:66-83 | `metric_data` lists records, then keys, then metrics in order: datum `4g+m` is metric `m` of group `g`, tagged with `g`'s key. |
| Cycle.AllGroupPerKept | main.py:59 | The batch holds as many `'ALL'` groups as kept results, and the k-th `'ALL'` group holds the k-th kept result's own truncated numbers: nothing is summed across endpoints. |
| Cycle.LastBlockIsAll | main.py:76-79 | If the last group is `'ALL'` with some result's values, the data end with that result's four truncated numbers, with `Source` `'ALL'`. |
| Cycle.PassSources | main.py:63-79 | Every datum of a pass has a `destination` and a `Source` dimension; `Source` is `'ALL'` iff the destination lower-cases to `all`, and the lower-cased hostname otherwise. |
| Cycle.LastAllIsLastEndpoint | main.py:89-97 | The last four datums of a pass are the `'ALL'` series with `Source` `'ALL'`. They carry the last kept endpoint's truncated numbers, not an aggregate. |

## Left out

- Pinging: `ConcurrentPing`, the thread pool, `pingparsing`, the YAML configuration and `argparse` are left out because they are I/O and concurrency. The results of `process_all_ping` are an input sequence in endpoint order, since `executor.map` returns results in input order.
- Only the fields of `as_dict()` that the core reads are modelled, and `str(result['destination'])` is taken to be a string already.
- `socket.gethostname()` is a parameter. The boto3 client and `put_metric_data` are left out: `send_to_cloudwatch` is modelled up to the list it would upload, and the namespace `IPV4` is not represented.
- The `while True` loop, `print('transmitted')` and `sleep` are left out. One pass is modelled. The `warn:` prints become the returned list of warned-about results.
- `PingResults.Trunc`: Python floats are modelled as exact reals. NaN and infinities, for which `int()` raises `ValueError` or `OverflowError`, and rounding are not represented.
- `CloudWatch.Lower`: `str.lower()` is modelled on ASCII letters only. Non-ASCII case mappings are not represented.
- `PingResults.ParseResults`: only `None` is modelled as a value `int()` rejects. Other non-numeric values are not represented.
