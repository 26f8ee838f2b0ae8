/** Fixed inputs and the exact outcomes the model gives for them. */
module Scenarios {
  import opened Outcomes
  import opened Registry
  import opened PerfStat
  import opened Aggregator
  import opened Report

  /** A perf record reporting `value` (written the way perf writes counts) for `event`. */
  function Counter(event: string, value: nat): (r: Record)
    ensures Kept(r) && r["event"] == event && ParseFloat(r["counter-value"]) == Some(value as real)
  {
    CountTextRoundTrip(value, 6);
    map["event" := event, "counter-value" := NatText(value) + "." + Zeros(6), "unit" := ""]
  }

  /** A single counter record folds into a one-entry counter map. */
  lemma CollectOne(event: string, value: nat)
    ensures Collect([Counter(event, value)]) == Ok(map[event := value as real])
  {
    var r := Counter(event, value);
    CollectAdd([], r, map[], value as real);
    assert [] + [r] == [r];
    assert map[][event := value as real] == map[event := value as real];
  }

  /** A task-clock record reporting n ns (as Counter writes it, say) gives n·10⁻⁹ seconds;
      2,000,000,000 ns become 2 seconds. */
  lemma TaskClockInSeconds(r: Record, n: nat, rusage: Rusage)
    requires Kept(r) && r["event"] == "task-clock" && ParseFloat(r["counter-value"]) == Some(n as real)
    ensures MeasureOutcome(["task-clock"], 0, [r], rusage)
         == Ok([Result("task-clock", n as real * 0.000000001, Some("s"))])
    ensures n == 2000000000 ==> n as real * 0.000000001 == 2.0
  {
    PerfEntries();
    OneProfilerMetric("task-clock", r, n as real, rusage);
  }

  /** A run of one profiler metric over a single counter record for its event reads
      that counter. */
  lemma OneProfilerMetric(metric: string, r: Record, raw: real, rusage: Rusage)
    requires metric in PerfMetrics && Kept(r) && r["event"] == PerfMetrics[metric].event
    requires ParseFloat(r["counter-value"]) == Some(raw)
    ensures var info := PerfMetrics[metric];
      MeasureOutcome([metric], 0, [r], rusage) == Ok([Result(metric, raw * info.factor, info.unit)])
  {
    var m, perf := [metric], map[PerfMetrics[metric].event := raw];
    CollectAdd([], r, map[], raw);
    assert [] + [r] == [r];
    assert map[][r["event"] := raw] == perf;
    RegistriesDisjoint();
    assert LookupCounter(perf, PerfMetrics[metric].event) == Ok(raw);
    assert Known(m[0]);
    MeasureResults(m, [r], rusage);
    var rs := MeasureOutcome(m, 0, [r], rusage).value;
    assert ResultFor(rs[0], m[0], perf, rusage);
    assert rs == [rs[0]];
  }

  /** A peak resident set of 4096 KiB is reported as 4,096,000 bytes, and requesting it
      asks perf for no event. */
  lemma MaxrssInBytes()
    ensures Events(["maxrss"]) == []
    ensures MeasureOutcome(["maxrss"], 0, [], Rusage(4096)) == Ok([Result("maxrss", 4096000.0, Some("b"))])
  {
    var m := ["maxrss"];
    EventsSingle("maxrss");
    assert forall i :: 0 <= i < |m| ==> Known(m[i]);
    assert Collect([]) == Ok(map[]);
    MeasureResults(m, [], Rusage(4096));
    var rs := MeasureOutcome(m, 0, [], Rusage(4096)).value;
    assert ResultFor(rs[0], m[0], map[], Rusage(4096));
    assert rs == [rs[0]];
  }

  /** Without kernel counting permission only the userspace variant is reported, and it is used;
      when both are reported the plain counter wins. */
  lemma UserspaceFallback()
    ensures LookupCounter(map["instructions:u" := 7.0], "instructions") == Ok(7.0)
    ensures LookupCounter(map["instructions" := 5.0, "instructions:u" := 7.0], "instructions") == Ok(5.0)
    ensures LookupCounter(map["cycles" := 7.0], "instructions") == Fail(MissingCounter("instructions:u"))
  {
    assert "instructions" + ":u" == "instructions:u";
    assert "cycles" != "instructions:u";
  }

  /** wall-clock is read from perf's duration_time event; rusage metrics add no event;
      duplicates are kept. */
  lemma EventSelection()
    ensures Events(["wall-clock", "maxrss", "instructions", "wall-clock"]) == ["duration_time", "instructions", "duration_time"]
  {
    var front, back := ["wall-clock", "maxrss"], ["instructions", "wall-clock"];
    EventsSingle("wall-clock");
    EventsSingle("maxrss");
    EventsSingle("instructions");
    EventsAppend(["wall-clock"], ["maxrss"]);
    EventsAppend(["instructions"], ["wall-clock"]);
    EventsAppend(front, back);
    assert front + back == ["wall-clock", "maxrss", "instructions", "wall-clock"];
  }

  /** A bogus name stops the run before perf is launched, and the failure names it. */
  lemma BogusMetricRejected(cmd: seq<string>, tmp: string, returncode: int, output: seq<Record>, rusage: Rusage)
    ensures Launched(cmd, ["task-clock", "bogus-metric"], tmp) == None
    ensures MeasureOutcome(["task-clock", "bogus-metric"], returncode, output, rusage) == Fail(UnknownMetrics(["bogus-metric"]))
  {
    var m := ["task-clock", "bogus-metric"];
    assert m[..1] == ["task-clock"];
    assert m[..1][..0] == [];
    assert !Known("bogus-metric");
    assert Unknown(m) == ["bogus-metric"];
  }

  /** A command that exits with status 3 ends the run with status 3 and no measurements. */
  lemma ChildStatusPassesThrough(output: seq<Record>, rusage: Rusage)
    ensures MeasureOutcome(["instructions", "maxrss"], 3, output, rusage) == Fail(ChildExit(3))
  {
    MeasureChildExit(["instructions", "maxrss"], 3, output, rusage);
  }

  /** perf's auxiliary records, such as a metric line, carry no `event` key. */
  lemma MetricLineIsAuxiliary()
    ensures !Kept(map["metric-value" := "12.5", "metric-unit" := "CPUs utilized"])
  {
    assert "event" != "metric-value" && "event" != "metric-unit";
  }

  /** An auxiliary record between two counter records for one event is skipped, and the
      later counter record overwrites the earlier one. */
  lemma LaterRecordWins(first: nat, second: nat, aux: Record)
    requires !Kept(aux)
    ensures Collect([Counter("instructions", first)] + [aux] + [Counter("instructions", second)])
         == Ok(map["instructions" := second as real])
  {
    OverwriteAcrossAuxiliary(Counter("instructions", first), aux, Counter("instructions", second), first as real, second as real);
  }

  lemma OverwriteAcrossAuxiliary(c1: Record, aux: Record, c2: Record, v1: real, v2: real)
    requires Kept(c1) && !Kept(aux) && Kept(c2) && c1["event"] == c2["event"]
    requires ParseFloat(c1["counter-value"]) == Some(v1) && ParseFloat(c2["counter-value"]) == Some(v2)
    ensures Collect([c1] + [aux] + [c2]) == Ok(map[c2["event"] := v2])
  {
    var e := c1["event"];
    CollectAdd([], c1, map[], v1);
    assert [] + [c1] == [c1];
    CollectSkip([c1], aux);
    CollectAdd([c1] + [aux], c2, map[][e := v1], v2);
    assert map[][e := v1][e := v2] == map[e := v2];
  }

  /** The perf command line for two events around `make -j 8`. */
  lemma CommandLine(tmp: string)
    ensures PerfArgv(tmp, ["task-clock", "duration_time"], ["make", "-j", "8"])
         == ["perf", "stat", "-j", "-o", tmp, "-e", "task-clock", "-e", "duration_time", "--", "make", "-j", "8"]
  {
    var e := ["task-clock", "duration_time"];
    assert e[1..] == ["duration_time"];
    assert e[1..][1..] == [];
  }
}
