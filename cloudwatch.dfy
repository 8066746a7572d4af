/** `send_to_cloudwatch` up to the upload: the records are flattened into the
    `metric_data` list, one datum per (record, destination key, metric name). */
module CloudWatch {
  import opened Dicts
  import opened PingResults

  datatype Dimension = Dimension(name: string, value: string)

  /** One element of `metric_data`: `MetricName`, `Dimensions`, `Value`. */
  datatype Datum = Datum(metricName: string, dimensions: seq<Dimension>, value: int)

  predicate IsUpper(c: char)
  {
    'A' <= c <= 'Z'
  }

  function LowerChar(c: char): char
  {
    if IsUpper(c) then (c as int + 32) as char else c
  }

  /** `str.lower()` on ASCII letters. */
  function Lower(s: string): string
  {
    seq(|s|, i requires 0 <= i < |s| => LowerChar(s[i]))
  }

  /** The `Source` dimension of a datum: `'ALL'` for a destination key that
      lower-cases to `'all'`, the (already lower-cased) hostname otherwise. */
  function SourceOf(destination: string, host: string): string
  {
    if Lower(destination) != "all" then host else AllKey
  }

  /** The dict appended for one metric of one destination key. */
  function DatumFor(destination: string, name: string, value: int, host: string): Datum
  {
    Datum(name, [Dimension("destination", destination), Dimension("Source", SourceOf(destination, host))], value)
  }

  /** The data of one destination key: one datum per metric, in the value
      map's order. */
  function GroupData(destination: string, metrics: MetricValues, host: string): seq<Datum>
  {
    if metrics == [] then []
    else
      var last := metrics[|metrics| - 1];
      GroupData(destination, metrics[..|metrics| - 1], host) + [DatumFor(destination, last.key, last.value, host)]
  }

  /** The (destination key, value map) groups of a batch of records, records
      in order and keys in each record's order. */
  function Groups(records: seq<Record>): Dict<MetricValues>
  {
    if records == [] then []
    else Groups(records[..|records| - 1]) + records[|records| - 1]
  }

  /** The data of a sequence of groups, group after group. */
  function GroupsData(groups: Dict<MetricValues>, host: string): seq<Datum>
  {
    if groups == [] then []
    else
      var last := groups[|groups| - 1];
      GroupsData(groups[..|groups| - 1], host) + GroupData(last.key, last.value, host)
  }

  /** The `metric_data` list built from a batch of records. */
  function MetricData(records: seq<Record>, hostname: string): seq<Datum>
  {
    GroupsData(Groups(records), Lower(hostname))
  }

  /** The three nested loops of `send_to_cloudwatch`, stopping before the
      upload: the hostname is a parameter and the built list is returned. The
      loop over one record's keys is `AppendRecord`, the loop over one value
      map `AppendMetrics`. */
  method SendToCloudWatch(transmitCloudwatch: seq<Record>, hostname: string) returns (metricData: seq<Datum>)
    ensures metricData == MetricData(transmitCloudwatch, hostname)
  {
    var host := Lower(hostname);
    metricData := [];
    var i := 0;
    while i < |transmitCloudwatch|
      invariant 0 <= i <= |transmitCloudwatch|
      invariant metricData == GroupsData(Groups(transmitCloudwatch[..i]), host)
    {
      metricData := AppendRecord(metricData, transmitCloudwatch[i], host);
      GroupsStep(transmitCloudwatch, i);
      GroupsDataAppend(Groups(transmitCloudwatch[..i]), transmitCloudwatch[i], host);
      i := i + 1;
    }
    assert transmitCloudwatch[..i] == transmitCloudwatch;
  }

  /** The middle loop of `send_to_cloudwatch`: the data of each destination
      key of one record, keys in the record's order. */
  method AppendRecord(metricData: seq<Datum>, values: Record, host: string) returns (extended: seq<Datum>)
    ensures extended == metricData + GroupsData(values, host)
  {
    extended := metricData;
    var j := 0;
    assert values[..0] == [];
    while j < |values|
      invariant 0 <= j <= |values|
      invariant extended == metricData + GroupsData(values[..j], host)
    {
      extended := AppendMetrics(extended, values[j].key, values[j].value, host);
      GroupsDataStep(values[..j], values[j], host);
      assert values[..j + 1] == values[..j] + [values[j]];
      j := j + 1;
    }
    assert values[..j] == values;
  }

  /** The innermost loop of `send_to_cloudwatch`: one datum appended per
      metric of one destination key, in the value map's order. */
  method AppendMetrics(metricData: seq<Datum>, destination: string, pingMetrics: MetricValues, host: string)
    returns (extended: seq<Datum>)
    ensures extended == metricData + GroupData(destination, pingMetrics, host)
  {
    extended := metricData;
    var k := 0;
    while k < |pingMetrics|
      invariant 0 <= k <= |pingMetrics|
      invariant extended == metricData + GroupData(destination, pingMetrics[..k], host)
    {
      GroupDataStep(destination, pingMetrics, k, host);
      extended := extended + [DatumFor(destination, pingMetrics[k].key, pingMetrics[k].value, host)];
      k := k + 1;
    }
    assert pingMetrics[..k] == pingMetrics;
  }

  lemma GroupDataStep(destination: string, metrics: MetricValues, k: nat, host: string)
    requires k < |metrics|
    ensures GroupData(destination, metrics[..k + 1], host) ==
      GroupData(destination, metrics[..k], host) + [DatumFor(destination, metrics[k].key, metrics[k].value, host)]
  {
    assert metrics[..k + 1][..k] == metrics[..k];
  }

  lemma GroupsDataStep(groups: Dict<MetricValues>, group: Entry<MetricValues>, host: string)
    ensures GroupsData(groups + [group], host) == GroupsData(groups, host) + GroupData(group.key, group.value, host)
  {
    assert (groups + [group])[..|groups|] == groups;
  }

  lemma GroupsStep(records: seq<Record>, i: nat)
    requires i < |records|
    ensures Groups(records[..i + 1]) == Groups(records[..i]) + records[i]
  {
    assert records[..i + 1][..i] == records[..i];
  }

  /** Lower-casing changes exactly the upper-case ASCII letters, each to its
      lower-case form, and leaves no upper-case letter behind. */
  lemma LowerMeaning(s: string)
    ensures forall i | 0 <= i < |s| ::
      && !IsUpper(Lower(s)[i])
      && (IsUpper(s[i]) ==> Lower(s)[i] as int == s[i] as int + 32)
      && (!IsUpper(s[i]) ==> Lower(s)[i] == s[i])
  {
  }

  /** `destination.lower() == 'all'` holds of exactly the eight spellings of
      "all" in any case. */
  lemma LowerIsAll(s: string)
    ensures Lower(s) == "all" <==>
      |s| == 3 && (s[0] == 'a' || s[0] == 'A') && (s[1] == 'l' || s[1] == 'L') && (s[2] == 'l' || s[2] == 'L')
  {
    if |s| == 3 {
      assert Lower(s)[0] == LowerChar(s[0]) && Lower(s)[1] == LowerChar(s[1]) && Lower(s)[2] == LowerChar(s[2]);
      if Lower(s) == "all" {
        assert LowerChar(s[0]) == 'a' && LowerChar(s[1]) == 'l' && LowerChar(s[2]) == 'l';
      }
    }
  }

  /** With the hostname lower-cased as `send_to_cloudwatch` does, `Source` is
      `'ALL'` exactly for a destination key that lower-cases to `'all'`, and
      the lower-cased hostname otherwise; a hostname never masquerades as
      `'ALL'`. */
  lemma SourceIsAll(destination: string, hostname: string)
    ensures SourceOf(destination, Lower(hostname)) == AllKey <==> Lower(destination) == "all"
    ensures Lower(destination) != "all" ==> SourceOf(destination, Lower(hostname)) == Lower(hostname)
  {
    assert Lower(hostname) != AllKey by {
      if |hostname| > 0 {
        LowerMeaning(hostname);
        assert !IsUpper(Lower(hostname)[0]) && IsUpper(AllKey[0]);
      }
    }
  }

  /** The data of one group are its metrics in order, one datum each. */
  lemma {:induction false} GroupDataAt(destination: string, metrics: MetricValues, host: string)
    ensures |GroupData(destination, metrics, host)| == |metrics|
    ensures forall k | 0 <= k < |metrics| ::
      GroupData(destination, metrics, host)[k] == DatumFor(destination, metrics[k].key, metrics[k].value, host)
  {
    if metrics != [] {
      var prefix := metrics[..|metrics| - 1];
      GroupDataAt(destination, prefix, host);
      forall k | 0 <= k < |prefix| ensures prefix[k] == metrics[k] { }
    }
  }

  /** Flattening two runs of groups one after the other. */
  lemma {:induction false} GroupsDataAppend(a: Dict<MetricValues>, b: Dict<MetricValues>, host: string)
    ensures GroupsData(a + b, host) == GroupsData(a, host) + GroupsData(b, host)
  {
    if b == [] {
      assert a + b == a;
    } else {
      var prefix := b[..|b| - 1];
      var last := b[|b| - 1];
      assert (a + b)[..|a + b| - 1] == a + prefix;
      GroupsDataAppend(a, prefix, host);
    }
  }

  /** The number of metrics over all groups. */
  function MetricCount(groups: Dict<MetricValues>): nat
  {
    if groups == [] then 0 else |groups[0].value| + MetricCount(groups[1..])
  }

  /** `metric_data` holds one datum per (group, metric name): nothing is
      deduplicated or dropped. */
  lemma {:induction false} GroupsDataLength(groups: Dict<MetricValues>, host: string)
    ensures |GroupsData(groups, host)| == MetricCount(groups)
  {
    if groups != [] {
      assert groups == [groups[0]] + groups[1..];
      GroupsDataAppend([groups[0]], groups[1..], host);
      GroupsDataLength(groups[1..], host);
      GroupDataAt(groups[0].key, groups[0].value, host);
      assert [groups[0]][..0] == [];
    }
  }

  /** With four metrics in every group, four datums per group. */
  lemma {:induction false} UniformLength(groups: Dict<MetricValues>, host: string)
    requires forall g | 0 <= g < |groups| :: |groups[g].value| == 4
    ensures |GroupsData(groups, host)| == 4 * |groups|
  {
    if groups != [] {
      var n := |groups| - 1;
      assert forall g | 0 <= g < n :: groups[..n][g] == groups[g];
      UniformLength(groups[..n], host);
      GroupDataAt(groups[n].key, groups[n].value, host);
    }
  }

  /** With four metrics in every group, datum 4g+m is metric m of group g. */
  lemma {:induction false} UniformAt(groups: Dict<MetricValues>, host: string, g: nat, m: nat)
    requires forall g | 0 <= g < |groups| :: |groups[g].value| == 4
    requires g < |groups| && m < 4
    ensures |GroupsData(groups, host)| == 4 * |groups|
    ensures GroupsData(groups, host)[4 * g + m] == DatumFor(groups[g].key, groups[g].value[m].key, groups[g].value[m].value, host)
  {
    UniformLength(groups, host);
    var n := |groups| - 1;
    var prefix := groups[..n];
    assert forall i | 0 <= i < n :: prefix[i] == groups[i];
    UniformLength(prefix, host);
    assert GroupsData(groups, host) == GroupsData(prefix, host) + GroupData(groups[n].key, groups[n].value, host);
    if g < n {
      UniformAt(prefix, host, g, m);
    } else {
      GroupDataAt(groups[n].key, groups[n].value, host);
    }
  }

  /** When every group holds the four metric names, the data come in blocks of
      four: the m-th datum of the g-th block is metric m of group g. */
  lemma UniformLayout(groups: Dict<MetricValues>, host: string)
    requires forall g | 0 <= g < |groups| :: KeyList(groups[g].value) == MetricNames
    ensures |GroupsData(groups, host)| == 4 * |groups|
    ensures forall g, m | 0 <= g < |groups| && 0 <= m < 4 ::
      && |groups[g].value| == 4
      && GroupsData(groups, host)[4 * g + m] == DatumFor(groups[g].key, MetricNames[m], groups[g].value[m].value, host)
  {
    assert forall g | 0 <= g < |groups| :: |groups[g].value| == |KeyList(groups[g].value)| == 4;
    UniformLength(groups, host);
    forall g, m | 0 <= g < |groups| && 0 <= m < 4
      ensures GroupsData(groups, host)[4 * g + m] == DatumFor(groups[g].key, MetricNames[m], groups[g].value[m].value, host)
    {
      UniformAt(groups, host, g, m);
      assert KeyList(groups[g].value)[m] == groups[g].value[m].key;
    }
  }

  /** A datum tagged as `send_to_cloudwatch` tags it: a `destination`
      dimension, then the `Source` dimension that destination calls for. */
  ghost predicate SourceTagged(d: Datum, host: string)
  {
    && |d.dimensions| == 2
    && d.dimensions[0].name == "destination"
    && d.dimensions[1] == Dimension("Source", SourceOf(d.dimensions[0].value, host))
  }

  /** Every datum of a flattened batch carries exactly the two dimensions,
      its `Source` decided by its own `destination`. */
  lemma {:induction false} GroupsDataSourced(groups: Dict<MetricValues>, host: string)
    ensures forall i | 0 <= i < |GroupsData(groups, host)| :: SourceTagged(GroupsData(groups, host)[i], host)
  {
    if groups != [] {
      var prefix := groups[..|groups| - 1];
      var last := groups[|groups| - 1];
      GroupsDataSourced(prefix, host);
      GroupDataAt(last.key, last.value, host);
      var before, tail := GroupsData(prefix, host), GroupData(last.key, last.value, host);
      forall i | |before| <= i < |before| + |tail| ensures SourceTagged((before + tail)[i], host) {
        assert (before + tail)[i] == tail[i - |before|];
      }
    }
  }
}
