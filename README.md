# bench-radar measurement normalisation, modelled in Dafny

`bench-radar/measure.py` runs a command under `perf stat` and the operating system's
resource-usage accounting. It then prints one measurement object per (result, topic)
pair under the prefix `radar::measurement=`. This project models the part that makes
decisions:

- the two constant metric tables (`PERF_METRICS`, `RUSAGE_METRICS`);
- the validation of requested names, which reports every unknown name at once;
- the selection of perf events;
- the perf command line;
- the reading of perf's JSON records into a counter map;
- the two-step counter lookup (plain event, then its `:u` userspace variant);
- scaling and unit labelling;
- the result × topic expansion of `main` and the object built by `print_result`.

Modules, one per component of the script:

- `Outcomes` (outcomes.dfy): `Option`, and `Outcome`, which is either a value or a `Failure`. There is one `Failure` kind for each way a run ends early: unknown names, a non-zero child status, a counter-value `float()` refuses, a missing counter, a missing snapshot field.
- `Registry` (registry.dfy): `PerfMetrics` and `RusageMetrics`, the source's `PERF_METRICS` and `RUSAGE_METRICS`.
- `PerfStat` (perf_stat.dfy): `PerfArgv`, the command line, with its inverse `SplitArgv`. `ParseFloat` reads the counter-value text. `Collect` folds the records, and the method `MeasurePerf` models `measure_perf` with its loop.
- `Aggregator` (aggregator.dfy): the specification functions `Unknown`, `Events`, `LookupCounter`, `Reconcile` and `MeasureOutcome`. The method `Measure` runs the source's three loops (`CheckArgs`, `PrepareEvents`, `ExtractResults`) and is proved against those functions.
- `Report` (report.dfy): `PrintResult` and the spec function `Lines`. The method `Run` models `main` with its nested loops.
- `Scenarios` (scenarios.dfy): fixed inputs with their exact outcomes.

The operating system becomes plain inputs:

- `tmp`, the name of the temporary file;
- `returncode`, the exit status of the perf child;
- `output`, the JSON records perf wrote, each a map from text keys to text values (perf writes `counter-value` as text);
- `rusage`, the resource-usage snapshot with its `ru_maxrss` field.

`Measure` and `Run` also return `launched`, the perf command line that would be started. It is `None` when validation stops the run first.

Three behaviours of the code are worth stating plainly:

- `main` (lines 116-118) emits lines result-major: all topics of the first result, then all topics of the second.
- Event selection (lines 87-90) keeps one event per requested perf metric, in request order, duplicates included.
- A perf record is skipped when it lacks either `event` or `counter-value` (line 64).

## Model

| member | source | states |
|---|---|---|
| Registry.RegistriesDisjoint | bench-radar/measure.py:34-42 | no metric name is in both tables, so each metric has exactly one source |
| Registry.Vocabulary | bench-radar/measure.py:34-42 | the accepted names are exactly task-clock, wall-clock, instructions and maxrss |
| Registry.PerfEntries | bench-radar/measure.py:35-37 | task-clock and wall-clock scale by 1e-9 into "s"; wall-clock reads `duration_time`; instructions has factor 1 and no unit |
| Aggregator.RusageFieldsResolve | bench-radar/measure.py:40-42 | every registered resource-usage field exists on the snapshot, so that lookup cannot fail |
| PerfStat.EventArgs | bench-radar/measure.py:49 | the event arguments are two per event |
| PerfStat.EventArgsAt | bench-radar/measure.py:49 | pair i of the event arguments is `-e` followed by event i |
| PerfStat.PerfArgv | bench-radar/measure.py:47-51 | the command line has 5 + 2·|events| + 1 + |cmd| arguments |
| PerfStat.PerfArgvLayout | bench-radar/measure.py:47-51 | the command line is `perf stat -j -o tmp`, then `-e e` for each event in order, then `--`, then the command verbatim |
| PerfStat.SplitEventsRoundTrip | bench-radar/measure.py:49-50 | the `-e` pairs and the command after `--` read back exactly |
| PerfStat.PerfArgvRoundTrip | bench-radar/measure.py:47-51 | the output file, events and command are recovered exactly from the command line, even when the command has arguments that look like perf options |
| PerfStat.ParseUnsignedDigits | bench-radar/measure.py:65 | digits with an optional decimal fraction read as their decimal value |
| PerfStat.CountTextRoundTrip | bench-radar/measure.py:65 | a count written as digits, with or without a zero fraction, reads back as that count |
| PerfStat.ParseFloatRejects | bench-radar/measure.py:65 | text that does not start with a sign, digit or '.' is refused |
| PerfStat.NotCountedIsNotANumber | bench-radar/measure.py:65 | perf's `<not counted>` and `<not supported>` placeholders are refused, so the run fails |
| PerfStat.Collect | bench-radar/measure.py:61-65 | folding records can only fail on a counter-value that is not a number |
| PerfStat.CollectSkip | bench-radar/measure.py:64 | a record lacking `event` or `counter-value` leaves the map unchanged |
| PerfStat.CollectAdd | bench-radar/measure.py:64-65 | a counter record sets its event to its value, overwriting any earlier value |
| PerfStat.CollectFailPersists | bench-radar/measure.py:62-65 | once a prefix of the records fails, the whole fold fails the same way |
| PerfStat.CollectFails | bench-radar/measure.py:62-65 | the fold fails exactly when some kept record has a counter-value that is not a number |
| PerfStat.CollectKeys | bench-radar/measure.py:61-65 | the keys of the counter map are exactly the events of the kept records |
| PerfStat.CollectLatest | bench-radar/measure.py:64-65 | each event's value comes from the last kept record naming it |
| PerfStat.MeasurePerf | bench-radar/measure.py:45-67 | launches the fixed command line; a non-zero status ends the run with that status before any record is read; otherwise gives the folded counter map |
| Aggregator.Unknown | bench-radar/measure.py:79-82 | there are never more unknown names than requested names |
| Aggregator.UnknownMembers | bench-radar/measure.py:79-82 | the unknown names are exactly the requested names in neither table |
| Aggregator.UnknownAppend | bench-radar/measure.py:79-82 | the unknown names of a concatenation are those of the first part followed by those of the second, so they come in request order |
| Aggregator.UnknownSingle | bench-radar/measure.py:81-82 | one name is reported exactly when it is in neither table |
| Aggregator.UnknownCounts | bench-radar/measure.py:79-82 | every occurrence of an unknown name is reported, duplicates included, and no known name |
| Aggregator.UnknownEmpty | bench-radar/measure.py:79-84 | validation passes exactly when every requested name is known |
| Aggregator.CheckArgs | bench-radar/measure.py:79-82 | the first loop collects exactly the unknown names in request order |
| Aggregator.EventsAppend | bench-radar/measure.py:87-90 | event selection goes name by name: the events of a concatenation are the concatenated events |
| Aggregator.EventsSingle | bench-radar/measure.py:88-90 | a perf metric contributes its registered event and a resource-usage metric none |
| Aggregator.EventsOfPerfMetrics | bench-radar/measure.py:87-90 | with only perf metrics there is one event per name, in order, duplicates kept |
| Aggregator.PrepareEvents | bench-radar/measure.py:87-90 | the second loop builds exactly the selected event list |
| Aggregator.LookupCounter | bench-radar/measure.py:99-104 | the plain event is used when present, even if a `:u` key exists; otherwise the `:u` variant; with neither the lookup fails on the `:u` key instead of defaulting to zero |
| Aggregator.PerfPartFound | bench-radar/measure.py:99-106 | a perf metric whose counter is found gives one result: its counter times the factor, with its unit |
| Aggregator.RusagePartFound | bench-radar/measure.py:108-110 | a resource-usage metric gives one result: its field times the factor, with its unit |
| Aggregator.Reconcile | bench-radar/measure.py:97-112 | reconciliation can only fail on a missing counter or field |
| Aggregator.ReconcileFailPersists | bench-radar/measure.py:97-112 | the first failed lookup ends reconciliation |
| Aggregator.ReconcileOneShape | bench-radar/measure.py:98-110 | a known name fails exactly when it is a perf metric whose counter is absent, and otherwise gives exactly one result, as registered |
| Aggregator.ReconcileFails | bench-radar/measure.py:97-112 | with valid names, reconciliation fails exactly when some perf metric's counter is absent under both keys |
| Aggregator.ReconcileResults | bench-radar/measure.py:97-112 | with valid names, a successful reconciliation gives one result per name, in order, duplicates kept, each scaled and labelled as registered |
| Aggregator.ExtractResults | bench-radar/measure.py:97-112 | the third loop computes exactly the reconciled results |
| Aggregator.MeasureRejectsUnknown | bench-radar/measure.py:79-84 | a run fails on validation exactly when some name is unknown, and the failure lists every unknown name |
| Aggregator.LaunchedOnlyWhenValid | bench-radar/measure.py:83-93 | perf is launched exactly when every requested name is known |
| Aggregator.MeasureChildExit | bench-radar/measure.py:56-58 | a valid request whose command exits non-zero ends with that same code |
| Aggregator.MeasureResults | bench-radar/measure.py:97-112 | a valid, successful run with its counters present gives one scaled result per requested name, in request order |
| Aggregator.Measure | bench-radar/measure.py:77-112 | launches the perf command line only after validation passes, and ends with the outcome given by validation, child status, record folding and reconciliation |
| Report.PrintResult | bench-radar/measure.py:13-17 | the object has `metric` and `value`, and a `unit` key exactly when a unit exists |
| Report.PrintResultRoundTrip | bench-radar/measure.py:13-17 | the object reads back as its metric, value and unit |
| Report.Row | bench-radar/measure.py:117-118 | one object per topic, in topic order, named `topic//metric` |
| Report.LinesLength | bench-radar/measure.py:115-118 | there are |results|·|topics| objects |
| Report.LinesAt | bench-radar/measure.py:115-118 | the object for result i and topic j is at position i·|topics| + j (result-major) and is named `topic//metric` |
| Report.Run | bench-radar/measure.py:115-118 | a run that ends early emits nothing and ends with that failure; otherwise it emits the result-major objects |
| Scenarios.CollectOne | bench-radar/measure.py:61-65 | one counter record gives a one-entry map |
| Scenarios.Counter | bench-radar/measure.py:64-65 | a record written the way perf writes a count is kept, names its event, and its counter text converts back to that count |
| Scenarios.OneProfilerMetric | bench-radar/measure.py:98-106 | requesting one profiler metric over a single record for its event gives one result: the count times the registered factor, with the registered unit |
| Scenarios.TaskClockInSeconds | bench-radar/measure.py:35 | a task-clock record of n ns is reported as n·10⁻⁹ with unit "s"; 2,000,000,000 ns are 2.0 seconds |
| Scenarios.MaxrssInBytes | bench-radar/measure.py:41 | maxrss requests no perf event, and 4096 KiB is reported as 4,096,000 with unit "b" |
| Scenarios.UserspaceFallback | bench-radar/measure.py:99-104 | only `instructions:u` present gives its value; with both present the plain counter wins; with neither the lookup fails |
| Scenarios.EventSelection | bench-radar/measure.py:87-90 | wall-clock, maxrss, instructions, wall-clock select duration_time, instructions, duration_time |
| Scenarios.BogusMetricRejected | bench-radar/measure.py:79-84 | requesting task-clock and bogus-metric launches nothing and fails naming bogus-metric |
| Scenarios.ChildStatusPassesThrough | bench-radar/measure.py:56-58 | a command exiting with 3 ends the run with 3 |
| Scenarios.MetricLineIsAuxiliary | bench-radar/measure.py:64 | a perf metric line, which has no `event` key, is not kept |
| Scenarios.OverwriteAcrossAuxiliary | bench-radar/measure.py:61-65 | for any two counter records for one event with an auxiliary record between them, the fold keeps only the later value |
| Scenarios.LaterRecordWins | bench-radar/measure.py:64-65 | an auxiliary record between two records for one event is skipped, and the later record overwrites the earlier value |
| Scenarios.CommandLine | bench-radar/measure.py:47-51 | the exact command line for two events around `make -j 8` |

## Left out

- Process execution is not modelled: `subprocess.run`, the temporary file, its removal on every exit path, and the `LC_ALL=C` copy of the environment. The model takes the child's return code and perf's records as inputs and returns the command line that would be launched.
- `resource.getrusage(RUSAGE_CHILDREN)` is an operating-system call. It is an input snapshot holding only `ru_maxrss`, the one field the table names, and `Aggregator.GetAttr` stands in for `getattr` on that one-field snapshot (the real `struct_rusage` has every `ru_*` field).
- `json.loads` is not modelled. Records arrive already parsed, as maps from text keys to text values. Lines that are not JSON objects are not represented. In the source a line that is not valid JSON raises; a number, boolean or `null` raises at the membership test of line 64; an array or string is tested by membership or substring, so one lacking either name is skipped and one holding both raises at the indexing of line 65.
- `json.dumps` and `print` are not modelled. The output is the list of objects `print_result` would serialise; the `radar::measurement=` prefix of each printed line is not modelled.
- PerfStat.ParseFloat: reads plain decimal notation only (an optional sign, digits, an optional '.' fraction). Python's `float()` also accepts exponents, `inf`, `nan`, surrounding whitespace and digit underscores.
- Floating point is not modelled. Values are exact reals, so `1e-9` is exactly 10⁻⁹ and there is no rounding. `ru_maxrss * 1000` is an integer in Python and prints without a fraction; here it is a real.
- Aggregator.Measure: passes a negative return code (a child killed by a signal) through unchanged. Python's `sys.exit` turns it into the process exit status modulo 256.
- The text of the validation exception (`unknown metrics: a, b`) is not modelled. The failure carries the list of unknown names it is built from.
- The `argparse` command-line wiring (lines 121-127) is not modelled. `Run` takes the topics, metric names and command directly.
