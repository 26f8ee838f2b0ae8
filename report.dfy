/** The reporter: one measurement object per (result, topic) pair, named `topic//metric`,
    carrying a `unit` key only when the metric has a unit. */
module Report {
  import opened Outcomes
  import opened PerfStat
  import opened Aggregator

  /** The JSON values a measurement object holds. */
  datatype JsonValue = JString(s: string) | JNumber(n: real)

  /** The object print_result serialises: `metric` and `value` always, `unit` only when given. */
  function PrintResult(metric: string, value: real, unit: Option<string>): (data: map<string, JsonValue>)
    ensures "metric" in data && data["metric"] == JString(metric)
    ensures "value" in data && data["value"] == JNumber(value)
    ensures "unit" in data <==> unit.Some?
    ensures unit.Some? ==> data["unit"] == JString(unit.value)
    ensures data.Keys <= {"metric", "value", "unit"}
  {
    var data := map["metric" := JString(metric), "value" := JNumber(value)];
    if unit.Some? then data["unit" := JString(unit.value)] else data
  }

  /** How a consumer reads a measurement object back. */
  function ReadMeasurement(data: map<string, JsonValue>): Option<(string, real, Option<string>)>
  {
    if "metric" in data && data["metric"].JString? && "value" in data && data["value"].JNumber? then
      var unit := if "unit" in data && data["unit"].JString? then Some(data["unit"].s) else None;
      Some((data["metric"].s, data["value"].n, unit))
    else None
  }

  /** Every object print_result builds reads back as its metric, value and unit. */
  lemma PrintResultRoundTrip(metric: string, value: real, unit: Option<string>)
    ensures ReadMeasurement(PrintResult(metric, value, unit)) == Some((metric, value, unit))
  {
  }

  /** The name a result gets under a topic. */
  function LineName(topic: string, metric: string): string
  {
    topic + "//" + metric
  }

  /** The objects of one result, one per topic, in topic order. */
  function Row(result: Result, topics: seq<string>): (row: seq<map<string, JsonValue>>)
    ensures |row| == |topics|
    ensures forall j :: 0 <= j < |topics| ==> row[j] == PrintResult(LineName(topics[j], result.metric), result.value, result.unit)
  {
    seq(|topics|, j requires 0 <= j < |topics| => PrintResult(LineName(topics[j], result.metric), result.value, result.unit))
  }

  /** All objects, result-major: the row of the first result, then of the second, and so on. */
  function Lines(results: seq<Result>, topics: seq<string>): seq<map<string, JsonValue>>
  {
    if results == [] then [] else Lines(results[..|results| - 1], topics) + Row(results[|results| - 1], topics)
  }

  /** There are |results|·|topics| objects. */
  lemma {:induction false} LinesLength(results: seq<Result>, topics: seq<string>)
    ensures |Lines(results, topics)| == |results| * |topics|
  {
    if results != [] {
      var n := |results| - 1;
      LinesLength(results[..n], topics);
      assert (n + 1) * |topics| == n * |topics| + |topics|;
    }
  }

  /** Position i·t + j lies in row i of a table of n rows of width t. */
  lemma {:induction false} RowPosition(i: nat, j: nat, n: nat, t: nat)
    requires i < n && j < t
    ensures i * t + j < n * t
    decreases n
  {
    if i + 1 == n {
      assert n * t == i * t + t;
    } else {
      RowPosition(i, j, n - 1, t);
      assert n * t == (n - 1) * t + t;
    }
  }

  /** The object for result i and topic j sits at i·|topics| + j. */
  lemma {:induction false} LinesAt(results: seq<Result>, topics: seq<string>, i: nat, j: nat)
    requires i < |results| && j < |topics|
    ensures |Lines(results, topics)| == |results| * |topics|
    ensures i * |topics| + j < |Lines(results, topics)|
    ensures Lines(results, topics)[i * |topics| + j] == PrintResult(LineName(topics[j], results[i].metric), results[i].value, results[i].unit)
  {
    var n := |results| - 1;
    var t := |topics|;
    var init := results[..n];
    LinesLength(results, topics);
    LinesLength(init, topics);
    RowPosition(i, j, |results|, t);
    if i < n {
      RowPosition(i, j, n, t);
      LinesAt(init, topics, i, j);
      assert results[i] == init[i];
    } else {
      assert i * t + j == n * t + j;
    }
  }

  /** Emitting one more topic extends the row by that topic's object. */
  lemma RowSnoc(result: Result, topics: seq<string>, j: nat)
    requires j < |topics|
    ensures Row(result, topics[..j + 1])
         == Row(result, topics[..j]) + [PrintResult(LineName(topics[j], result.metric), result.value, result.unit)]
  {
    var a := Row(result, topics[..j + 1]);
    var b := Row(result, topics[..j]) + [PrintResult(LineName(topics[j], result.metric), result.value, result.unit)];
    assert |a| == |b|;
    forall k | 0 <= k < |a| ensures a[k] == b[k] {
      if k < j {
        assert topics[..j + 1][k] == topics[..j][k];
      }
    }
  }

  /** Emitting the row of one more result extends the lines by that row. */
  lemma LinesSnoc(results: seq<Result>, topics: seq<string>, i: nat)
    requires i < |results|
    ensures Lines(results[..i + 1], topics) == Lines(results[..i], topics) + Row(results[i], topics)
  {
    assert results[..i + 1][..i] == results[..i];
  }

  /** main: measures, then emits one object per result and topic, result-major. A run that
      ends early emits nothing and ends with the measurement's failure. */
  method Run(topics: seq<string>, metrics: seq<string>, cmd: seq<string>, tmp: string, returncode: int, output: seq<Record>, rusage: Rusage)
    returns (launched: Option<seq<string>>, out: Outcome<seq<map<string, JsonValue>>>)
    ensures launched == Launched(cmd, metrics, tmp)
    ensures MeasureOutcome(metrics, returncode, output, rusage).Fail? ==>
              out == Fail(MeasureOutcome(metrics, returncode, output, rusage).failure)
    ensures MeasureOutcome(metrics, returncode, output, rusage).Ok? ==>
              out == Ok(Lines(MeasureOutcome(metrics, returncode, output, rusage).value, topics))
  {
    var measured: Outcome<seq<Result>>;
    launched, measured := Measure(cmd, metrics, tmp, returncode, output, rusage);
    if measured.Fail? {
      return launched, Fail(measured.failure);
    }
    var results := measured.value;
    var lines: seq<map<string, JsonValue>> := [];
    var i := 0;
    while i < |results|
      invariant 0 <= i <= |results|
      invariant lines == Lines(results[..i], topics)
    {
      var result := results[i];
      var j := 0;
      while j < |topics|
        invariant 0 <= j <= |topics|
        invariant lines == Lines(results[..i], topics) + Row(result, topics[..j])
      {
        lines := lines + [PrintResult(topics[j] + "//" + result.metric, result.value, result.unit)];
        RowSnoc(result, topics, j);
        j := j + 1;
      }
      assert topics[..j] == topics;
      LinesSnoc(results, topics, i);
      i := i + 1;
    }
    assert results[..i] == results;
    out := Ok(lines);
  }
}
