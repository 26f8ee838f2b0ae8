/** The two constant metric tables: each user-facing metric name is mapped to where
    its raw value comes from, the factor it is scaled by and its unit, if any. */
module Registry {
  import opened Outcomes

  /** A metric read from a `perf stat` event counter. */
  datatype PerfMetric = PerfMetric(event: string, factor: real, unit: Option<string>)

  /** A metric read from a field of the children's resource-usage snapshot. */
  datatype RusageMetric = RusageMetric(name: string, factor: real, unit: Option<string>)

  /** Nanosecond counters become seconds; instructions are a plain count. */
  const PerfMetrics: map<string, PerfMetric> := map[
    "task-clock" := PerfMetric("task-clock", 0.000000001, Some("s")),
    "wall-clock" := PerfMetric("duration_time", 0.000000001, Some("s")),
    "instructions" := PerfMetric("instructions", 1.0, None)
  ]

  /** Peak resident memory is reported in KiB on Linux and emitted in bytes. */
  const RusageMetrics: map<string, RusageMetric> := map[
    "maxrss" := RusageMetric("ru_maxrss", 1000.0, Some("b"))
  ]

  /** A name the tool accepts: present in either table. */
  predicate Known(metric: string)
  {
    metric in RusageMetrics || metric in PerfMetrics
  }

  /** No name belongs to both tables, so every metric has exactly one source. */
  lemma RegistriesDisjoint()
    ensures PerfMetrics.Keys !! RusageMetrics.Keys
  {
  }

  /** The accepted vocabulary is exactly these four names. */
  lemma Vocabulary(metric: string)
    ensures Known(metric) <==> metric in ["task-clock", "wall-clock", "instructions", "maxrss"]
  {
  }

  /** The registered event, factor and unit of every profiler-sourced metric. */
  lemma PerfEntries()
    ensures PerfMetrics["task-clock"] == PerfMetric("task-clock", 0.000000001, Some("s"))
    ensures PerfMetrics["wall-clock"].event == "duration_time"
    ensures PerfMetrics["wall-clock"].factor == 0.000000001 && PerfMetrics["wall-clock"].unit == Some("s")
    ensures PerfMetrics["instructions"].factor == 1.0 && PerfMetrics["instructions"].unit.None?
  {
  }
}
