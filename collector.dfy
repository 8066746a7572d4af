/** The loop in `main` that keeps the ping results whose `packet_transmit` is
    truthy, in endpoint order, parses each kept one, and warns about the rest. */
module Collector {
  import opened Wrappers
  import opened PingResults

  /** The results the loop keeps, in input order. */
  function Kept(results: seq<RawResult>): (kept: seq<RawResult>)
    ensures |kept| <= |results|
  {
    if results == [] then []
    else if Transmitted(results[0]) then [results[0]] + Kept(results[1..])
    else Kept(results[1..])
  }

  /** The results the loop warns about, in input order. */
  function Dropped(results: seq<RawResult>): (dropped: seq<RawResult>)
    ensures |dropped| <= |results|
  {
    if results == [] then []
    else if Transmitted(results[0]) then Dropped(results[1..])
    else [results[0]] + Dropped(results[1..])
  }

  /** The outcome of `parse_results` on each result, position by position. */
  function ParseEach(results: seq<RawResult>): (outcomes: seq<Result<Record, ParseError>>)
    ensures |outcomes| == |results|
  {
    seq(|results|, i requires 0 <= i < |results| => ParseResults(results[i]))
  }

  /** `parse_results` applied to each result in turn; the first one that
      raises stops the pass with its error. */
  function ParseAll(results: seq<RawResult>): Result<seq<Record>, ParseError>
  {
    Sequence(ParseEach(results))
  }

  /** The batch is built exactly when every result given parses, and then
      holds each result's record in order; otherwise the error is that of the
      first result that does not parse. */
  lemma ParseAllMeaning(results: seq<RawResult>)
    ensures ParseAll(results).Ok? <==> forall i | 0 <= i < |results| :: Complete(results[i])
    ensures ParseAll(results).Ok? ==>
      && |ParseAll(results).value| == |results|
      && forall i | 0 <= i < |results| :: ParseAll(results).value[i] == ParseResults(results[i]).value
    ensures ParseAll(results).Err? ==>
      exists i | 0 <= i < |results| ::
        && !Complete(results[i])
        && ParseResults(results[i]) == Err(ParseAll(results).error)
        && forall j | 0 <= j < i :: Complete(results[j])
  {
    var steps := ParseEach(results);
    SequenceMeaning(steps);
    assert forall i | 0 <= i < |results| :: steps[i] == ParseResults(results[i]);
    if ParseAll(results).Err? {
      var i :| 0 <= i < |steps| && steps[i] == Err(Sequence(steps).error) && forall j | 0 <= j < i :: steps[j].Ok?;
      assert !Complete(results[i]);
      assert forall j | 0 <= j < i :: Complete(results[j]);
    }
  }

  /** Splitting the input splits the kept results the same way. */
  lemma {:induction false} KeptAppend(a: seq<RawResult>, b: seq<RawResult>)
    ensures Kept(a + b) == Kept(a) + Kept(b)
    ensures Dropped(a + b) == Dropped(a) + Dropped(b)
  {
    if a != [] {
      assert (a + b)[1..] == a[1..] + b;
      KeptAppend(a[1..], b);
    } else {
      assert a + b == b;
    }
  }

  /** Parsing a concatenation fails with the first part's error, else with the
      second part's error, else yields both parts' records in order. */
  lemma ParseAllAppend(a: seq<RawResult>, b: seq<RawResult>)
    ensures ParseAll(a + b) ==
      match ParseAll(a)
      case Err(e) => Err(e)
      case Ok(x) =>
        match ParseAll(b)
        case Err(e) => Err(e)
        case Ok(y) => Ok(x + y)
  {
    assert ParseEach(a + b) == ParseEach(a) + ParseEach(b);
    SequenceAppend(ParseEach(a), ParseEach(b));
  }

  /** One more iteration of the loop: the next result is kept or dropped. */
  lemma KeptStep(results: seq<RawResult>, i: nat)
    requires i < |results|
    ensures Kept(results[..i + 1]) == Kept(results[..i]) + (if Transmitted(results[i]) then [results[i]] else [])
    ensures Dropped(results[..i + 1]) == Dropped(results[..i]) + (if Transmitted(results[i]) then [] else [results[i]])
  {
    assert results[..i + 1] == results[..i] + [results[i]];
    KeptAppend(results[..i], [results[i]]);
  }

  /** Parsing one more result extends the batch or stops it with that
      result's error. */
  lemma ParseAllStep(kept: seq<RawResult>, result: RawResult)
    ensures ParseAll(kept + [result]) ==
      match ParseAll(kept)
      case Err(e) => Err(e)
      case Ok(x) =>
        match ParseResults(result)
        case Err(e) => Err(e)
        case Ok(y) => Ok(x + [y])
  {
    ParseAllAppend(kept, [result]);
    assert ParseEach([result]) == [ParseResults(result)];
    SequenceSingle(ParseResults(result));
  }

  /** When the i-th result is kept and raises, with everything kept before it
      parsed, the whole pass raises the same error. */
  lemma ParseAllStopsAt(results: seq<RawResult>, i: nat)
    requires i < |results| && Transmitted(results[i])
    requires ParseAll(Kept(results[..i])).Ok? && ParseResults(results[i]).Err?
    ensures ParseAll(Kept(results)) == Err(ParseResults(results[i]).error)
  {
    KeptStep(results, i);
    ParseAllStep(Kept(results[..i]), results[i]);
    assert results == results[..i + 1] + results[i + 1..];
    KeptAppend(results[..i + 1], results[i + 1..]);
    ParseAllAppend(Kept(results[..i + 1]), Kept(results[i + 1..]));
  }

  /** The filter loop of `main`. It returns the batch handed to
      `send_to_cloudwatch`, or the error `parse_results` raised, and the
      results it warned about before that. */
  method CollectTransmitted(results: seq<RawResult>)
    returns (batch: Result<seq<Record>, ParseError>, warned: seq<RawResult>)
    ensures batch == ParseAll(Kept(results))
    ensures batch.Ok? ==> warned == Dropped(results)
    ensures batch.Err? ==>
      exists j | 0 <= j < |results| ::
        && Transmitted(results[j])
        && ParseResults(results[j]) == Err(batch.error)
        && ParseAll(Kept(results[..j])).Ok?
        && warned == Dropped(results[..j])
  {
    var transmitCloudwatch: seq<Record> := [];
    warned := [];
    var i := 0;
    while i < |results|
      invariant 0 <= i <= |results|
      invariant ParseAll(Kept(results[..i])) == Ok(transmitCloudwatch)
      invariant warned == Dropped(results[..i])
    {
      var result := results[i];
      KeptStep(results, i);
      if Transmitted(result) {
        var parsed := ParseResults(result);
        ParseAllStep(Kept(results[..i]), result);
        if parsed.Err? {
          ParseAllStopsAt(results, i);
          return Err(parsed.error), warned;
        }
        transmitCloudwatch := transmitCloudwatch + [parsed.value];
      } else {
        assert Kept(results[..i]) + [] == Kept(results[..i]);
        warned := warned + [result];
      }
      i := i + 1;
    }
    assert results[..i] == results;
    batch := Ok(transmitCloudwatch);
  }

  /** Every result is either kept or warned about, never both, never lost. */
  lemma {:induction false} KeptDroppedPartition(results: seq<RawResult>)
    ensures |Kept(results)| + |Dropped(results)| == |results|
    ensures multiset(Kept(results)) + multiset(Dropped(results)) == multiset(results)
  {
    if results != [] {
      KeptDroppedPartition(results[1..]);
      assert results == [results[0]] + results[1..];
    }
  }

  /** Every position moved up by one. */
  function Shift(pos: seq<nat>): seq<nat>
  {
    seq(|pos|, k requires 0 <= k < |pos| => pos[k] + 1)
  }

  /** The input positions of the kept results. */
  function KeptPositions(results: seq<RawResult>): seq<nat>
  {
    if results == [] then []
    else
      var shifted := Shift(KeptPositions(results[1..]));
      if Transmitted(results[0]) then [0] + shifted else shifted
  }

  /** One position per kept result. */
  lemma {:induction false} KeptPositionsLength(results: seq<RawResult>)
    ensures |KeptPositions(results)| == |Kept(results)|
  {
    if results != [] {
      KeptPositionsLength(results[1..]);
    }
  }

  /** Positions below `n`, strictly increasing. */
  ghost predicate IncreasingBelow(pos: seq<nat>, n: nat)
  {
    && (forall k | 0 <= k < |pos| :: pos[k] < n)
    && (forall k, l | 0 <= k < l < |pos| :: pos[k] < pos[l])
  }

  /** Shifting increasing positions, and putting position 0 in front. */
  lemma ShiftIncreasing(pos: seq<nat>, n: nat)
    requires IncreasingBelow(pos, n)
    ensures IncreasingBelow(Shift(pos), n + 1)
    ensures IncreasingBelow([0] + Shift(pos), n + 1)
  {
    var shifted := Shift(pos);
    var front := [0] + shifted;
    forall k, l | 0 <= k < l < |front| ensures front[k] < front[l] {
      assert front[l] == shifted[l - 1];
      if k > 0 { assert front[k] == shifted[k - 1]; }
    }
  }

  /** The positions of the kept results are input positions, strictly
      increasing: the filter never reorders. */
  lemma {:induction false} KeptPositionsIncreasing(results: seq<RawResult>)
    ensures IncreasingBelow(KeptPositions(results), |results|)
  {
    if results != [] {
      KeptPositionsIncreasing(results[1..]);
      ShiftIncreasing(KeptPositions(results[1..]), |results| - 1);
    }
  }

  /** The k-th kept result is the input's result at the k-th kept position. */
  lemma {:induction false} KeptInOrder(results: seq<RawResult>)
    ensures var pos := KeptPositions(results);
      && |pos| == |Kept(results)|
      && forall k | 0 <= k < |pos| :: pos[k] < |results| && Kept(results)[k] == results[pos[k]]
  {
    KeptPositionsIncreasing(results);
    KeptPositionsLength(results);
    if results != [] {
      var tail := results[1..];
      KeptInOrder(tail);
      var rest := KeptPositions(tail);
      var pos := KeptPositions(results);
      var kept := Kept(results);
      if Transmitted(results[0]) {
        assert pos == [0] + Shift(rest);
        forall k | 0 < k < |pos| ensures kept[k] == results[pos[k]] {
          assert pos[k] == rest[k - 1] + 1;
          assert kept[k] == Kept(tail)[k - 1];
        }
      } else {
        assert pos == Shift(rest);
        forall k | 0 <= k < |pos| ensures kept[k] == results[pos[k]] {
          assert pos[k] == rest[k] + 1;
        }
      }
    }
  }

  /** The positions of the kept results are exactly those whose
      `packet_transmit` is truthy. */
  lemma {:induction false} KeptPositionsExact(results: seq<RawResult>)
    ensures forall i | 0 <= i < |results| :: Transmitted(results[i]) <==> i in KeptPositions(results)
  {
    if results != [] {
      var tail := results[1..];
      KeptPositionsExact(tail);
      var rest := KeptPositions(tail);
      var shifted := Shift(rest);
      forall i | 0 < i < |results| ensures Transmitted(results[i]) <==> i in shifted {
        assert results[i] == tail[i - 1];
        if i - 1 in rest {
          var k :| 0 <= k < |rest| && rest[k] == i - 1;
          assert shifted[k] == i;
        }
      }
      assert 0 !in shifted;
    }
  }
}
