/** The measurement aggregator: validates the requested metric names, derives the perf
    events to request, runs the profiler collector and reconciles its counters and the
    resource-usage snapshot into one scaled result per requested name. */
module Aggregator {
  import opened Outcomes
  import opened Registry
  import opened PerfStat

  /** The resource usage of the terminated children, read once after the command exits. */
  datatype Rusage = Rusage(ru_maxrss: int)

  /** getattr on the snapshot, which holds only the field a registry entry names. */
  function GetAttr(rusage: Rusage, name: string): Option<int>
  {
    if name == "ru_maxrss" then Some(rusage.ru_maxrss) else None
  }

  /** Every registered resource-usage field exists on the snapshot, so this lookup cannot fail. */
  lemma RusageFieldsResolve(rusage: Rusage, metric: string)
    requires metric in RusageMetrics
    ensures GetAttr(rusage, RusageMetrics[metric].name).Some?
  {
  }

  /** One finished measurement. */
  datatype Result = Result(metric: string, value: real, unit: Option<string>)

  // ---------------------------------------------------------------------------
  // Validation
  // ---------------------------------------------------------------------------

  /** The requested names that are in neither table, in request order, duplicates kept. */
  function Unknown(metrics: seq<string>): (unknown: seq<string>)
    ensures |unknown| <= |metrics|
  {
    if metrics == [] then []
    else
      var last := metrics[|metrics| - 1];
      Unknown(metrics[..|metrics| - 1]) + (if Known(last) then [] else [last])
  }

  /** Validation reports every occurrence of an unknown name and no occurrence of a known one. */
  lemma {:induction false} UnknownCounts(metrics: seq<string>, m: string)
    ensures multiset(Unknown(metrics))[m] == if Known(m) then 0 else multiset(metrics)[m]
  {
    if metrics != [] {
      var init := metrics[..|metrics| - 1];
      var last := metrics[|metrics| - 1];
      UnknownCounts(init, m);
      assert metrics == init + [last];
      assert multiset(metrics) == multiset(init) + multiset{last};
      if Known(last) {
        assert Unknown(metrics) == Unknown(init) + [];
      } else {
        assert Unknown(metrics) == Unknown(init) + [last];
        assert multiset(Unknown(metrics)) == multiset(Unknown(init)) + multiset{last};
      }
    }
  }

  /** Validation works name by name, so the unknown names keep their request order: the
      unknown names of a concatenation are those of each part, in turn. */
  lemma {:induction false} UnknownAppend(a: seq<string>, b: seq<string>)
    ensures Unknown(a + b) == Unknown(a) + Unknown(b)
    decreases |b|
  {
    if b != [] {
      var init := b[..|b| - 1];
      assert (a + b)[..|a + b| - 1] == a + init;
      UnknownAppend(a, init);
    } else {
      assert a + b == a;
    }
  }

  /** A single name is reported exactly when it is in neither table. */
  lemma UnknownSingle(m: string)
    ensures Unknown([m]) == if Known(m) then [] else [m]
  {
    assert [m][..0] == [];
  }

  /** Validation passes exactly when every requested name is known. */
  lemma {:induction false} UnknownEmpty(metrics: seq<string>)
    ensures Unknown(metrics) == [] <==> forall i :: 0 <= i < |metrics| ==> Known(metrics[i])
  {
    if metrics != [] {
      var n := |metrics| - 1;
      var init := metrics[..n];
      UnknownEmpty(init);
      assert Unknown(metrics) == Unknown(init) + (if Known(metrics[n]) then [] else [metrics[n]]);
      if forall i :: 0 <= i < |metrics| ==> Known(metrics[i]) {
        assert forall i :: 0 <= i < n ==> Known(init[i]);
      } else {
        var i :| 0 <= i < |metrics| && !Known(metrics[i]);
        if i < n {
          assert !Known(init[i]);
        }
      }
    }
  }

  /** The unknown names are exactly the requested names that are in neither table. */
  lemma UnknownMembers(metrics: seq<string>, m: string)
    ensures m in Unknown(metrics) <==> m in metrics && !Known(m)
  {
    UnknownCounts(metrics, m);
  }

  // ---------------------------------------------------------------------------
  // Event selection
  // ---------------------------------------------------------------------------

  /** The registered event of each profiler-sourced request, in request order. */
  function Events(metrics: seq<string>): seq<string>
  {
    if metrics == [] then []
    else
      var last := metrics[|metrics| - 1];
      Events(metrics[..|metrics| - 1]) + (if last in PerfMetrics then [PerfMetrics[last].event] else [])
  }

  /** Selection works name by name: the events of a concatenation are the concatenation
      of the events, a profiler metric gives its registered event and a resource-usage
      metric gives none. */
  lemma {:induction false} EventsAppend(a: seq<string>, b: seq<string>)
    ensures Events(a + b) == Events(a) + Events(b)
    decreases |b|
  {
    if b != [] {
      var init := b[..|b| - 1];
      assert (a + b)[..|a + b| - 1] == a + init;
      EventsAppend(a, init);
    } else {
      assert a + b == a;
    }
  }

  lemma EventsSingle(m: string)
    ensures Events([m]) == if m in PerfMetrics then [PerfMetrics[m].event] else []
    ensures m in RusageMetrics ==> Events([m]) == []
  {
    assert [m][..0] == [];
  }

  /** When every name is a profiler metric, there is one event per name, at its position. */
  lemma {:induction false} EventsOfPerfMetrics(metrics: seq<string>)
    requires forall i :: 0 <= i < |metrics| ==> metrics[i] in PerfMetrics
    ensures |Events(metrics)| == |metrics|
    ensures forall i :: 0 <= i < |metrics| ==> Events(metrics)[i] == PerfMetrics[metrics[i]].event
  {
    if metrics != [] {
      var init := metrics[..|metrics| - 1];
      EventsOfPerfMetrics(init);
    }
  }

  // ---------------------------------------------------------------------------
  // Reconciliation
  // ---------------------------------------------------------------------------

  /** The counter of `event`: the plain key first, then the userspace-only variant that
      perf reports when kernel counting is not permitted; neither is a fatal lookup failure. */
  function LookupCounter(perf: map<string, real>, event: string): (v: Outcome<real>)
    ensures event in perf ==> v == Ok(perf[event])
    ensures event !in perf && event + ":u" in perf ==> v == Ok(perf[event + ":u"])
    ensures v.Fail? <==> event !in perf && event + ":u" !in perf
    ensures v.Fail? ==> v.failure == MissingCounter(event + ":u")
  {
    if event in perf then Ok(perf[event])
    else if event + ":u" in perf then Ok(perf[event + ":u"])
    else Fail(MissingCounter(event + ":u"))
  }

  /** The results a profiler-sourced name contributes: none, or its scaled counter. */
  function PerfPart(metric: string, perf: map<string, real>): Outcome<seq<Result>>
  {
    if metric in PerfMetrics then
      var info := PerfMetrics[metric];
      match LookupCounter(perf, info.event)
      case Fail(f) => Fail(f)
      case Ok(v) => Ok([Result(metric, v * info.factor, info.unit)])
    else Ok([])
  }

  /** The results a resource-usage name contributes: none, or its scaled field. */
  function RusagePart(metric: string, rusage: Rusage): Outcome<seq<Result>>
  {
    if metric in RusageMetrics then
      var info := RusageMetrics[metric];
      match GetAttr(rusage, info.name)
      case None => Fail(MissingField(info.name))
      case Some(v) => Ok([Result(metric, v as real * info.factor, info.unit)])
    else Ok([])
  }

  /** A profiler metric whose counter is found contributes exactly its scaled counter. */
  lemma PerfPartFound(metric: string, perf: map<string, real>, info: PerfMetric, raw: real)
    requires metric in PerfMetrics && info == PerfMetrics[metric] && LookupCounter(perf, info.event) == Ok(raw)
    ensures PerfPart(metric, perf) == Ok([Result(metric, raw * info.factor, info.unit)])
  {
  }

  /** A resource-usage metric contributes exactly its scaled field. */
  lemma RusagePartFound(metric: string, rusage: Rusage, info: RusageMetric, raw: int)
    requires metric in RusageMetrics && info == RusageMetrics[metric] && GetAttr(rusage, info.name) == Some(raw)
    ensures RusagePart(metric, rusage) == Ok([Result(metric, raw as real * info.factor, info.unit)])
  {
  }

  /** A name outside a table contributes nothing from that table. */
  lemma NoPart(metric: string, perf: map<string, real>, rusage: Rusage)
    ensures metric !in PerfMetrics ==> PerfPart(metric, perf) == Ok([])
    ensures metric !in RusageMetrics ==> RusagePart(metric, rusage) == Ok([])
  {
  }

  /** The results of one requested name: its profiler part, then its resource-usage part. */
  function ReconcileOne(metric: string, perf: map<string, real>, rusage: Rusage): Outcome<seq<Result>>
  {
    match PerfPart(metric, perf)
    case Fail(f) => Fail(f)
    case Ok(a) =>
      match RusagePart(metric, rusage)
      case Fail(f) => Fail(f)
      case Ok(b) => Ok(a + b)
  }

  /** The results of all requested names, in request order; the first failed lookup ends the run. */
  function Reconcile(metrics: seq<string>, perf: map<string, real>, rusage: Rusage): (out: Outcome<seq<Result>>)
    ensures out.Fail? ==> out.failure.MissingCounter? || out.failure.MissingField?
  {
    if metrics == [] then Ok([])
    else
      match Reconcile(metrics[..|metrics| - 1], perf, rusage)
      case Fail(f) => Fail(f)
      case Ok(rs) =>
        match ReconcileOne(metrics[|metrics| - 1], perf, rusage)
        case Fail(f) => Fail(f)
        case Ok(more) => Ok(rs + more)
  }

  /** The counter a profiler metric's value is computed from is present. */
  predicate CounterPresent(perf: map<string, real>, metric: string)
    requires metric in PerfMetrics
  {
    LookupCounter(perf, PerfMetrics[metric].event).Ok?
  }

  /** Result i is request i: its name, its raw value times the registered factor, its unit. */
  predicate ResultFor(r: Result, metric: string, perf: map<string, real>, rusage: Rusage)
  {
    && r.metric == metric
    && (metric in PerfMetrics ==>
          var info := PerfMetrics[metric];
          && LookupCounter(perf, info.event).Ok?
          && r.value == LookupCounter(perf, info.event).value * info.factor
          && r.unit == info.unit)
    && (metric in RusageMetrics ==>
          var info := RusageMetrics[metric];
          && GetAttr(rusage, info.name).Some?
          && r.value == GetAttr(rusage, info.name).value as real * info.factor
          && r.unit == info.unit)
  }

  /** Reconciling one more name appends its results, or fails with its failure. */
  lemma ReconcileStep(metrics: seq<string>, i: nat, perf: map<string, real>, rusage: Rusage)
    requires i < |metrics| && Reconcile(metrics[..i], perf, rusage).Ok? && ReconcileOne(metrics[i], perf, rusage).Ok?
    ensures Reconcile(metrics[..i + 1], perf, rusage)
         == Ok(Reconcile(metrics[..i], perf, rusage).value + ReconcileOne(metrics[i], perf, rusage).value)
  {
    assert metrics[..i + 1][..i] == metrics[..i];
  }

  /** A name whose lookup fails ends the whole reconciliation with that failure. */
  lemma ReconcileStepFails(metrics: seq<string>, i: nat, perf: map<string, real>, rusage: Rusage)
    requires i < |metrics| && Reconcile(metrics[..i], perf, rusage).Ok?
    requires metrics[i] in PerfMetrics && !CounterPresent(perf, metrics[i])
    ensures Reconcile(metrics, perf, rusage) == Fail(MissingCounter(PerfMetrics[metrics[i]].event + ":u"))
  {
    assert metrics[..i + 1][..i] == metrics[..i];
    ReconcileFailPersists(metrics, i + 1, perf, rusage);
  }

  /** Once a prefix has failed, the whole reconciliation fails the same way. */
  lemma {:induction false} ReconcileFailPersists(metrics: seq<string>, k: nat, perf: map<string, real>, rusage: Rusage)
    requires k <= |metrics| && Reconcile(metrics[..k], perf, rusage).Fail?
    ensures Reconcile(metrics, perf, rusage) == Reconcile(metrics[..k], perf, rusage)
    decreases |metrics| - k
  {
    if k < |metrics| {
      assert metrics[..k + 1][..k] == metrics[..k];
      ReconcileFailPersists(metrics, k + 1, perf, rusage);
    } else {
      assert metrics[..k] == metrics;
    }
  }

  /** A known name fails exactly when it is a profiler metric whose counter is absent,
      and otherwise gives exactly one result, the one registered for it. */
  lemma ReconcileOneShape(m: string, perf: map<string, real>, rusage: Rusage)
    requires Known(m)
    ensures ReconcileOne(m, perf, rusage).Fail? <==> m in PerfMetrics && !CounterPresent(perf, m)
    ensures ReconcileOne(m, perf, rusage).Ok? ==>
      |ReconcileOne(m, perf, rusage).value| == 1 && ResultFor(ReconcileOne(m, perf, rusage).value[0], m, perf, rusage)
  {
    RegistriesDisjoint();
    if m in PerfMetrics {
      assert m !in RusageMetrics;
      assert RusagePart(m, rusage) == Ok([]);
      if CounterPresent(perf, m) {
        PerfPartFound(m, perf, PerfMetrics[m], LookupCounter(perf, PerfMetrics[m].event).value);
      }
    } else {
      RusageFieldsResolve(rusage, m);
      RusagePartFound(m, rusage, RusageMetrics[m], GetAttr(rusage, RusageMetrics[m].name).value);
    }
  }

  /** With every name known, reconciliation fails exactly when some profiler metric's
      counter is absent under both keys. */
  lemma {:induction false} ReconcileFails(metrics: seq<string>, perf: map<string, real>, rusage: Rusage)
    requires forall i :: 0 <= i < |metrics| ==> Known(metrics[i])
    ensures Reconcile(metrics, perf, rusage).Fail? <==>
      exists i :: 0 <= i < |metrics| && metrics[i] in PerfMetrics && !CounterPresent(perf, metrics[i])
  {
    if metrics != [] {
      var n := |metrics| - 1;
      var init := metrics[..n];
      assert forall i :: 0 <= i < |init| ==> init[i] == metrics[i];
      ReconcileFails(init, perf, rusage);
      ReconcileOneShape(metrics[n], perf, rusage);
      if Reconcile(init, perf, rusage).Fail? {
        var i :| 0 <= i < |init| && init[i] in PerfMetrics && !CounterPresent(perf, init[i]);
        assert metrics[i] == init[i];
      } else if !(metrics[n] in PerfMetrics && !CounterPresent(perf, metrics[n])) {
        forall i | 0 <= i < |metrics| && metrics[i] in PerfMetrics
          ensures CounterPresent(perf, metrics[i])
        {
          if i < n {
            assert metrics[i] == init[i];
          }
        }
      }
    }
  }

  /** With every name known, a successful reconciliation gives one result per requested
      name, in request order, duplicates kept, each scaled and labelled as registered. */
  lemma {:induction false} ReconcileResults(metrics: seq<string>, perf: map<string, real>, rusage: Rusage)
    requires forall i :: 0 <= i < |metrics| ==> Known(metrics[i])
    requires Reconcile(metrics, perf, rusage).Ok?
    ensures var rs := Reconcile(metrics, perf, rusage).value;
      && |rs| == |metrics|
      && forall i :: 0 <= i < |metrics| ==> ResultFor(rs[i], metrics[i], perf, rusage)
  {
    if metrics != [] {
      var n := |metrics| - 1;
      var init := metrics[..n];
      assert forall i :: 0 <= i < |init| ==> init[i] == metrics[i];
      ReconcileResults(init, perf, rusage);
      ReconcileOneShape(metrics[n], perf, rusage);
      var rs := Reconcile(init, perf, rusage).value;
      var one := ReconcileOne(metrics[n], perf, rusage).value;
      var all := Reconcile(metrics, perf, rusage).value;
      assert all == rs + one;
      forall i | 0 <= i < |metrics|
        ensures ResultFor(all[i], metrics[i], perf, rusage)
      {
        if i < n {
          assert all[i] == rs[i];
        } else {
          assert all[i] == one[0];
        }
      }
    }
  }

  // ---------------------------------------------------------------------------
  // measure
  // ---------------------------------------------------------------------------

  /** What a measurement run ends with, given the requested names, the child's return
      code, the records perf wrote and the resource-usage snapshot. */
  function MeasureOutcome(metrics: seq<string>, returncode: int, output: seq<Record>, rusage: Rusage): Outcome<seq<Result>>
  {
    if Unknown(metrics) != [] then Fail(UnknownMetrics(Unknown(metrics)))
    else if returncode != 0 then Fail(ChildExit(returncode))
    else
      match Collect(output)
      case Fail(f) => Fail(f)
      case Ok(perf) => Reconcile(metrics, perf, rusage)
  }

  /** The perf command line a run launches, or None when validation stops it first. */
  function Launched(cmd: seq<string>, metrics: seq<string>, tmp: string): Option<seq<string>>
  {
    if Unknown(metrics) == [] then Some(PerfArgv(tmp, Events(metrics), cmd)) else None
  }

  /** A run fails on validation exactly when some requested name is unknown, and the
      failure lists every unknown name: no later step reports an unknown name. */
  lemma MeasureRejectsUnknown(metrics: seq<string>, returncode: int, output: seq<Record>, rusage: Rusage)
    ensures (exists i :: 0 <= i < |metrics| && !Known(metrics[i])) <==>
      MeasureOutcome(metrics, returncode, output, rusage).Fail? && MeasureOutcome(metrics, returncode, output, rusage).failure.UnknownMetrics?
    ensures MeasureOutcome(metrics, returncode, output, rusage).Fail? && MeasureOutcome(metrics, returncode, output, rusage).failure.UnknownMetrics? ==>
      MeasureOutcome(metrics, returncode, output, rusage).failure.names == Unknown(metrics)
  {
    UnknownEmpty(metrics);
  }

  /** Perf is launched exactly when every requested name is known. */
  lemma LaunchedOnlyWhenValid(cmd: seq<string>, metrics: seq<string>, tmp: string)
    ensures Launched(cmd, metrics, tmp).Some? <==> forall i :: 0 <= i < |metrics| ==> Known(metrics[i])
  {
    UnknownEmpty(metrics);
  }

  /** A valid request whose command exits non-zero ends with that same code. */
  lemma MeasureChildExit(metrics: seq<string>, returncode: int, output: seq<Record>, rusage: Rusage)
    requires forall i :: 0 <= i < |metrics| ==> Known(metrics[i])
    requires returncode != 0
    ensures MeasureOutcome(metrics, returncode, output, rusage) == Fail(ChildExit(returncode))
  {
    UnknownEmpty(metrics);
  }

  /** A valid request whose command succeeds and whose counters are all present gives one
      result per requested name, in request order, duplicates kept, each scaled and
      labelled as registered. */
  lemma MeasureResults(metrics: seq<string>, output: seq<Record>, rusage: Rusage)
    requires forall i :: 0 <= i < |metrics| ==> Known(metrics[i])
    requires Collect(output).Ok?
    requires forall i :: 0 <= i < |metrics| && metrics[i] in PerfMetrics ==> CounterPresent(Collect(output).value, metrics[i])
    ensures MeasureOutcome(metrics, 0, output, rusage).Ok?
    ensures var rs := MeasureOutcome(metrics, 0, output, rusage).value;
      && |rs| == |metrics|
      && forall i :: 0 <= i < |metrics| ==> ResultFor(rs[i], metrics[i], Collect(output).value, rusage)
  {
    UnknownEmpty(metrics);
    ReconcileFails(metrics, Collect(output).value, rusage);
    ReconcileResults(metrics, Collect(output).value, rusage);
  }

  /** The first loop of measure: the unknown names, in request order. */
  method CheckArgs(metrics: seq<string>) returns (unknown: seq<string>)
    ensures unknown == Unknown(metrics)
  {
    unknown := [];
    var i := 0;
    while i < |metrics|
      invariant 0 <= i <= |metrics|
      invariant unknown == Unknown(metrics[..i])
    {
      assert metrics[..i + 1][..i] == metrics[..i];
      var metric := metrics[i];
      if metric !in RusageMetrics && metric !in PerfMetrics {
        unknown := unknown + [metric];
      }
      i := i + 1;
    }
    assert metrics[..i] == metrics;
  }

  /** The second loop of measure: the perf events, in request order. */
  method PrepareEvents(metrics: seq<string>) returns (events: seq<string>)
    ensures events == Events(metrics)
  {
    events := [];
    var i := 0;
    while i < |metrics|
      invariant 0 <= i <= |metrics|
      invariant events == Events(metrics[..i])
    {
      assert metrics[..i + 1][..i] == metrics[..i];
      var metric := metrics[i];
      if metric in PerfMetrics {
        events := events + [PerfMetrics[metric].event];
      }
      i := i + 1;
    }
    assert metrics[..i] == metrics;
  }

  /** The third loop of measure: each requested name's results, with the userspace
      fallback for counters and getattr for resource-usage fields. */
  method ExtractResults(metrics: seq<string>, perf: map<string, real>, rusage: Rusage)
    returns (out: Outcome<seq<Result>>)
    ensures out == Reconcile(metrics, perf, rusage)
  {
    var results: seq<Result> := [];
    var i := 0;
    while i < |metrics|
      invariant 0 <= i <= |metrics|
      invariant Reconcile(metrics[..i], perf, rusage) == Ok(results)
    {
      ghost var before := results;
      var metric := metrics[i];
      ghost var fromPerf: seq<Result> := [];
      if metric in PerfMetrics {
        var info := PerfMetrics[metric];
        var value: real;
        if info.event in perf {
          value := perf[info.event];
        } else {
          // Without the permissions for kernel counting, perf only reports the userspace counter.
          var key := info.event + ":u";
          if key !in perf {
            ReconcileStepFails(metrics, i, perf, rusage);
            return Fail(MissingCounter(key));
          }
          value := perf[key];
        }
        PerfPartFound(metric, perf, info, value);
        value := value * info.factor;
        results := results + [Result(metric, value, info.unit)];
        fromPerf := [Result(metric, value, info.unit)];
      } else {
        NoPart(metric, perf, rusage);
      }
      assert PerfPart(metric, perf) == Ok(fromPerf);
      ghost var fromRusage: seq<Result> := [];
      if metric in RusageMetrics {
        var info := RusageMetrics[metric];
        RusageFieldsResolve(rusage, metric);
        var field := GetAttr(rusage, info.name);
        if field.None? {
          // getattr would raise here, but every registered field exists on the snapshot.
          assert false;
        }
        var raw := field.value;
        RusagePartFound(metric, rusage, info, raw);
        var value := raw as real * info.factor;
        results := results + [Result(metric, value, info.unit)];
        fromRusage := [Result(metric, value, info.unit)];
        assert RusagePart(metric, rusage) == Ok(fromRusage);
      } else {
        NoPart(metric, perf, rusage);
      }
      assert RusagePart(metric, rusage) == Ok(fromRusage);
      assert results == before + (fromPerf + fromRusage);
      ReconcileStep(metrics, i, perf, rusage);
      i := i + 1;
    }
    assert metrics[..i] == metrics;
    out := Ok(results);
  }

  /** Validates the names, selects the events, runs perf, then reconciles the counters
      and the snapshot. `launched` is the perf command line, None when nothing is run. */
  method Measure(cmd: seq<string>, metrics: seq<string>, tmp: string, returncode: int, output: seq<Record>, rusage: Rusage)
    returns (launched: Option<seq<string>>, out: Outcome<seq<Result>>)
    ensures launched == Launched(cmd, metrics, tmp)
    ensures out == MeasureOutcome(metrics, returncode, output, rusage)
  {
    var unknown := CheckArgs(metrics);
    if unknown != [] {
      return None, Fail(UnknownMetrics(unknown));
    }
    var events := PrepareEvents(metrics);
    var argv, perf := MeasurePerf(cmd, events, tmp, returncode, output);
    launched := Some(argv);
    if perf.Fail? {
      return launched, Fail(perf.failure);
    }
    out := ExtractResults(metrics, perf.value, rusage);
  }
}
