/** One pass of the loop in `main`: filter and parse the ping results, then
    flatten the batch into `metric_data`. The upload, the `'transmitted'` line
    and the sleep that follow are outside the model. */
module Cycle {
  import opened Wrappers
  import opened Dicts
  import opened PingResults
  import opened Collector
  import opened CloudWatch

  /** What one pass hands to `put_metric_data`, or the error that aborts it. */
  function PassData(results: seq<RawResult>, hostname: string): Result<seq<Datum>, ParseError>
  {
    match ParseAll(Kept(results))
    case Err(e) => Err(e)
    case Ok(batch) => Ok(MetricData(batch, hostname))
  }

  /** One iteration of `main` up to the upload: an exception from
      `parse_results` escapes `main` before anything is sent. */
  method RunPass(results: seq<RawResult>, hostname: string)
    returns (published: Result<seq<Datum>, ParseError>, warned: seq<RawResult>)
    ensures published == PassData(results, hostname)
    ensures published.Ok? ==> warned == Dropped(results)
    ensures published.Err? ==>
      exists j | 0 <= j < |results| ::
        && Transmitted(results[j])
        && ParseResults(results[j]) == Err(published.error)
        && ParseAll(Kept(results[..j])).Ok?
        && warned == Dropped(results[..j])
  {
    var batch;
    batch, warned := CollectTransmitted(results);
    if batch.Err? {
      return Err(batch.error), warned;
    }
    var metricData := SendToCloudWatch(batch.value, hostname);
    published := Ok(metricData);
  }

  /** How many groups have the given destination key. */
  function CountKey(groups: Dict<MetricValues>, key: string): nat
  {
    if groups == [] then 0
    else CountKey(groups[..|groups| - 1], key) + (if groups[|groups| - 1].key == key then 1 else 0)
  }

  /** How many results name the given destination. */
  function CountDestination(results: seq<RawResult>, destination: string): nat
  {
    if results == [] then 0
    else CountDestination(results[..|results| - 1], destination) + (if results[|results| - 1].destination == destination then 1 else 0)
  }

  lemma {:induction false} CountKeyAppend(a: Dict<MetricValues>, b: Dict<MetricValues>, key: string)
    ensures CountKey(a + b, key) == CountKey(a, key) + CountKey(b, key)
  {
    if b == [] {
      assert a + b == a;
    } else {
      assert (a + b)[..|a + b| - 1] == a + b[..|b| - 1];
      CountKeyAppend(a, b[..|b| - 1], key);
    }
  }

  /** The groups of one parsed record: one `'ALL'` group, last, holding the
      result's values, and one more for a destination other than `'ALL'`. */
  lemma RecordGroups(raw: RawResult)
    requires ParseResults(raw).Ok?
    ensures var rec := ParseResults(raw).value;
      && |rec| == (if raw.destination == AllKey then 1 else 2)
      && CountKey(rec, AllKey) == 1
      && (forall g | 0 <= g < |rec| :: |rec[g].value| == 4 && KeyList(rec[g].value) == MetricNames)
      && rec[|rec| - 1].key == AllKey
      && IsMetricValuesOf(rec[|rec| - 1].value, raw)
  {
    var rec := ParseResults(raw).value;
    ParseResultsValues(raw);
    forall g | 0 <= g < |rec| ensures |rec[g].value| == 4 {
      assert |KeyList(rec[g].value)| == |MetricNames|;
    }
    if |rec| == 1 {
      assert rec[..0] == [];
    } else {
      var first := rec[..1];
      assert first[..0] == [];
      assert first[0].key == raw.destination != AllKey;
      assert CountKey(first, AllKey) == 0;
    }
  }

  /** The groups of a parsed batch: two per record, one when the destination
      is itself `'ALL'`; exactly one `'ALL'` group per record; every value map
      holds the four metric names; and the last group is the `'ALL'` group of
      the last record, holding that record's own values. */
  lemma {:induction false} ParsedGroups(kept: seq<RawResult>, batch: seq<Record>)
    requires |batch| == |kept|
    requires forall i | 0 <= i < |kept| :: ParseResults(kept[i]) == Ok(batch[i])
    ensures |Groups(batch)| == 2 * |kept| - CountDestination(kept, AllKey)
    ensures CountKey(Groups(batch), AllKey) == |kept|
    ensures forall g | 0 <= g < |Groups(batch)| ::
      |Groups(batch)[g].value| == 4 && KeyList(Groups(batch)[g].value) == MetricNames
    ensures |kept| > 0 ==>
      var groups := Groups(batch);
      && groups[|groups| - 1].key == AllKey
      && IsMetricValuesOf(groups[|groups| - 1].value, kept[|kept| - 1])
  {
    if kept != [] {
      var n := |kept| - 1;
      var keptBefore, batchBefore := kept[..n], batch[..n];
      forall i | 0 <= i < n ensures ParseResults(keptBefore[i]) == Ok(batchBefore[i]) {
        assert keptBefore[i] == kept[i] && batchBefore[i] == batch[i];
      }
      ParsedGroups(keptBefore, batchBefore);
      var rec := batch[n];
      assert ParseResults(kept[n]) == Ok(rec);
      RecordGroups(kept[n]);
      var before := Groups(batchBefore);
      assert Groups(batch) == before + rec;
      CountKeyAppend(before, rec, AllKey);
      forall g | 0 <= g < |Groups(batch)|
        ensures |Groups(batch)[g].value| == 4 && KeyList(Groups(batch)[g].value) == MetricNames
      {
        if g >= |before| {
          assert Groups(batch)[g] == rec[g - |before|];
        }
      }
    }
  }

  /** The batch of a pass that got through parsing. */
  lemma BatchOf(results: seq<RawResult>)
    requires ParseAll(Kept(results)).Ok?
    ensures var kept, batch := Kept(results), ParseAll(Kept(results)).value;
      |batch| == |kept| && forall i | 0 <= i < |kept| :: ParseResults(kept[i]) == Ok(batch[i])
  {
    var kept := Kept(results);
    ParseAllMeaning(kept);
    forall i | 0 <= i < |kept| ensures ParseResults(kept[i]) == Ok(ParseAll(kept).value[i]) {
      assert Complete(kept[i]);
    }
  }

  /** A pass publishes exactly when every result with a truthy
      `packet_transmit` has all four numbers; a transmitted result without,
      say, an average round-trip time raises before anything is sent. */
  lemma PassSucceedsIff(results: seq<RawResult>, hostname: string)
    ensures PassData(results, hostname).Ok? <==>
      forall i | 0 <= i < |results| :: Transmitted(results[i]) ==> Complete(results[i])
  {
    var kept := Kept(results);
    ParseAllMeaning(kept);
    KeptInOrder(results);
    KeptPositionsExact(results);
    var pos := KeptPositions(results);
    if PassData(results, hostname).Ok? {
      forall i | 0 <= i < |results| && Transmitted(results[i]) ensures Complete(results[i]) {
        var k :| 0 <= k < |pos| && pos[k] == i;
        assert kept[k] == results[i];
      }
    } else {
      var k :| 0 <= k < |kept| && !Complete(kept[k]);
      assert pos[k] in pos;
      assert Transmitted(results[pos[k]]) && !Complete(results[pos[k]]);
    }
  }

  /** `metric_data` has four datums per group: eight per kept result, four
      for one whose destination is itself `'ALL'`. */
  lemma PassLength(results: seq<RawResult>, hostname: string)
    requires PassData(results, hostname).Ok?
    ensures |PassData(results, hostname).value| == 4 * (2 * |Kept(results)| - CountDestination(Kept(results), AllKey))
  {
    var batch := ParseAll(Kept(results)).value;
    BatchOf(results);
    ParsedGroups(Kept(results), batch);
    UniformLayout(Groups(batch), Lower(hostname));
  }

  lemma {:induction false} NoDestinationCounted(results: seq<RawResult>, destination: string)
    requires forall i | 0 <= i < |results| :: results[i].destination != destination
    ensures CountDestination(results, destination) == 0
  {
    if results != [] {
      NoDestinationCounted(results[..|results| - 1], destination);
    }
  }

  /** With no endpoint answering to `'ALL'`, a pass emits exactly eight datums
      per result with a truthy `packet_transmit`. */
  lemma PassLengthEight(results: seq<RawResult>, hostname: string)
    requires PassData(results, hostname).Ok?
    requires forall i | 0 <= i < |results| :: results[i].destination != AllKey
    ensures |PassData(results, hostname).value| == 8 * |Kept(results)|
  {
    PassLength(results, hostname);
    KeptInOrder(results);
    NoDestinationCounted(Kept(results), AllKey);
  }

  /** `metric_data` lists the records in order, each record's keys in order,
      and each value map's four metrics in order: datum 4g+m is metric m of
      group g, with that group's key as `destination`. */
  lemma PassLayout(results: seq<RawResult>, hostname: string)
    requires PassData(results, hostname).Ok?
    ensures var data, groups := PassData(results, hostname).value, Groups(ParseAll(Kept(results)).value);
      && |data| == 4 * |groups|
      && (forall g | 0 <= g < |groups| :: KeyList(groups[g].value) == MetricNames && |groups[g].value| == 4)
      && forall g, m | 0 <= g < |groups| && 0 <= m < 4 ::
           data[4 * g + m] == DatumFor(groups[g].key, MetricNames[m], groups[g].value[m].value, Lower(hostname))
  {
    var batch := ParseAll(Kept(results)).value;
    BatchOf(results);
    ParsedGroups(Kept(results), batch);
    UniformLayout(Groups(batch), Lower(hostname));
  }

  /** The value maps of the `'ALL'` groups, in order. */
  function AllValues(groups: Dict<MetricValues>): seq<MetricValues>
  {
    if groups == [] then []
    else
      var last := groups[|groups| - 1];
      AllValues(groups[..|groups| - 1]) + (if last.key == AllKey then [last.value] else [])
  }

  lemma {:induction false} AllValuesAppend(a: Dict<MetricValues>, b: Dict<MetricValues>)
    ensures AllValues(a + b) == AllValues(a) + AllValues(b)
  {
    if b == [] {
      assert a + b == a;
    } else {
      assert (a + b)[..|a + b| - 1] == a + b[..|b| - 1];
      AllValuesAppend(a, b[..|b| - 1]);
    }
  }

  /** A parsed record has one `'ALL'` group, holding the result's values. */
  lemma AllValuesOfRecord(raw: RawResult)
    requires ParseResults(raw).Ok?
    ensures var all := AllValues(ParseResults(raw).value);
      |all| == 1 && IsMetricValuesOf(all[0], raw)
  {
    var rec := ParseResults(raw).value;
    ParseResultsValues(raw);
    if |rec| == 1 {
      assert rec[..0] == [];
    } else {
      var first := rec[..1];
      assert first[..0] == [];
      assert first[0].key == raw.destination != AllKey;
      assert AllValues(first) == [];
    }
  }

  /** When every record has one `'ALL'` group, the batch's `'ALL'` groups
      are one per record, in record order. */
  lemma {:induction false} AllValuesOfBatch(batch: seq<Record>)
    requires forall i | 0 <= i < |batch| :: |AllValues(batch[i])| == 1
    ensures |AllValues(Groups(batch))| == |batch|
    ensures forall k | 0 <= k < |batch| :: AllValues(Groups(batch))[k] == AllValues(batch[k])[0]
  {
    if batch != [] {
      var n := |batch| - 1;
      var prefix := batch[..n];
      forall i | 0 <= i < n ensures |AllValues(prefix[i])| == 1 {
        assert prefix[i] == batch[i];
      }
      AllValuesOfBatch(prefix);
      var before := Groups(prefix);
      AllValuesAppend(before, batch[n]);
      var all := AllValues(Groups(batch));
      forall k | 0 <= k < n ensures all[k] == AllValues(batch[k])[0] {
        assert all[k] == AllValues(before)[k];
        assert prefix[k] == batch[k];
      }
    }
  }

  /** Each kept result contributes its own `'ALL'` group: the batch holds as
      many `'ALL'` groups as kept results, and the k-th of them holds the
      truncated numbers of the k-th kept result alone, with no summation
      across endpoints. */
  lemma AllGroupPerKept(results: seq<RawResult>)
    requires ParseAll(Kept(results)).Ok?
    ensures CountKey(Groups(ParseAll(Kept(results)).value), AllKey) == |Kept(results)|
    ensures var all := AllValues(Groups(ParseAll(Kept(results)).value));
      && |all| == |Kept(results)|
      && forall k | 0 <= k < |all| :: IsMetricValuesOf(all[k], Kept(results)[k])
  {
    var kept := Kept(results);
    var batch := ParseAll(kept).value;
    BatchOf(results);
    ParsedGroups(kept, batch);
    forall i | 0 <= i < |batch| ensures |AllValues(batch[i])| == 1 && IsMetricValuesOf(AllValues(batch[i])[0], kept[i]) {
      AllValuesOfRecord(kept[i]);
    }
    AllValuesOfBatch(batch);
  }

  /** The last four datums of `data` are the `'ALL'` series of `raw`: metric
      m carries the truncation of raw field m, with `destination` and
      `Source` both `'ALL'`. */
  ghost predicate EndsWithAllBlock(data: seq<Datum>, raw: RawResult, host: string)
  {
    && |data| >= 4
    && Complete(raw)
    && forall m | 0 <= m < 4 ::
         && data[|data| - 4 + m] == DatumFor(AllKey, MetricNames[m], Trunc(Field(raw, m).value), host)
         && data[|data| - 4 + m].dimensions[1] == Dimension("Source", AllKey)
  }

  /** When the last group is an `'ALL'` group holding the values of `raw`,
      the data end with that group's block. */
  lemma LastBlockIsAll(groups: Dict<MetricValues>, host: string, raw: RawResult)
    requires forall g | 0 <= g < |groups| :: KeyList(groups[g].value) == MetricNames
    requires |groups| > 0
    requires groups[|groups| - 1].key == AllKey && IsMetricValuesOf(groups[|groups| - 1].value, raw)
    ensures EndsWithAllBlock(GroupsData(groups, host), raw, host)
  {
    forall g | 0 <= g < |groups| ensures |groups[g].value| == 4 {
      assert |KeyList(groups[g].value)| == 4;
    }
    UniformLength(groups, host);
    var data := GroupsData(groups, host);
    var g := |groups| - 1;
    var last := groups[g].value;
    assert |data| - 4 == 4 * g;
    assert Complete(raw) by {
      assert Field(raw, 0).Some? && Field(raw, 1).Some? && Field(raw, 2).Some? && Field(raw, 3).Some?;
    }
    assert Lower(AllKey) == "all";
    forall m | 0 <= m < 4
      ensures data[4 * g + m] == DatumFor(AllKey, MetricNames[m], Trunc(Field(raw, m).value), host)
    {
      UniformAt(groups, host, g, m);
      assert last[m].key == KeyList(last)[m] == MetricNames[m];
      assert last[m].value == Trunc(Field(raw, m).value);
    }
  }

  /** The last four datums of a pass are the `'ALL'` series, with `Source`
      `'ALL'`, and carry the truncated numbers of the last kept endpoint in
      input order, not an aggregate over endpoints. */
  lemma LastAllIsLastEndpoint(results: seq<RawResult>, hostname: string)
    requires PassData(results, hostname).Ok?
    requires |Kept(results)| > 0
    ensures EndsWithAllBlock(PassData(results, hostname).value, Kept(results)[|Kept(results)| - 1], Lower(hostname))
  {
    var kept := Kept(results);
    var batch := ParseAll(kept).value;
    BatchOf(results);
    ParsedGroups(kept, batch);
    LastBlockIsAll(Groups(batch), Lower(hostname), kept[|kept| - 1]);
  }

  /** Across a whole pass, every datum has a `destination` and a `Source`
      dimension, and `Source` is `'ALL'` exactly when the destination
      lower-cases to `'all'`, the lower-cased hostname otherwise. */
  lemma PassSources(results: seq<RawResult>, hostname: string)
    requires PassData(results, hostname).Ok?
    ensures forall d | d in PassData(results, hostname).value ::
      && |d.dimensions| == 2
      && d.dimensions[0].name == "destination"
      && d.dimensions[1].name == "Source"
      && (d.dimensions[1].value == AllKey <==> Lower(d.dimensions[0].value) == "all")
      && (Lower(d.dimensions[0].value) != "all" ==> d.dimensions[1].value == Lower(hostname))
  {
    var data := PassData(results, hostname).value;
    GroupsDataSourced(Groups(ParseAll(Kept(results)).value), Lower(hostname));
    forall d | d in data
      ensures && |d.dimensions| == 2
              && d.dimensions[0].name == "destination"
              && d.dimensions[1].name == "Source"
              && (d.dimensions[1].value == AllKey <==> Lower(d.dimensions[0].value) == "all")
              && (Lower(d.dimensions[0].value) != "all" ==> d.dimensions[1].value == Lower(hostname))
    {
      var i :| 0 <= i < |data| && data[i] == d;
      assert SourceTagged(d, Lower(hostname));
      SourceIsAll(d.dimensions[0].value, hostname);
    }
  }
}
