/** The profiler collector: the `perf stat` command line it launches, the reading of
    the counter-value text, and the folding of perf's JSON records into a counter map. */
module PerfStat {
  import opened Outcomes

  // ---------------------------------------------------------------------------
  // The perf command line
  // ---------------------------------------------------------------------------

  /** One `-e <event>` pair per requested event, in order. */
  function EventArgs(events: seq<string>): (args: seq<string>)
    ensures |args| == 2 * |events|
  {
    if events == [] then [] else ["-e", events[0]] + EventArgs(events[1..])
  }

  /** Pair i of the event arguments is `-e` followed by event i. */
  lemma {:induction false} EventArgsAt(events: seq<string>, i: nat)
    requires i < |events|
    ensures EventArgs(events)[2 * i] == "-e" && EventArgs(events)[2 * i + 1] == events[i]
  {
    if i > 0 {
      EventArgsAt(events[1..], i - 1);
    }
  }

  /** The argument vector handed to the operating system: perf writing JSON to `tmp`,
      the event pairs, the `--` separator, then the profiled command untouched. */
  function PerfArgv(tmp: string, events: seq<string>, cmd: seq<string>): (argv: seq<string>)
    ensures |argv| == 5 + 2 * |events| + 1 + |cmd|
  {
    ["perf", "stat", "-j", "-o", tmp] + EventArgs(events) + ["--"] + cmd
  }

  /** Where each part of the command line sits. */
  lemma PerfArgvLayout(tmp: string, events: seq<string>, cmd: seq<string>)
    ensures var argv := PerfArgv(tmp, events, cmd);
      && argv[..5] == ["perf", "stat", "-j", "-o", tmp]
      && (forall i :: 0 <= i < |events| ==> argv[5 + 2 * i] == "-e" && argv[6 + 2 * i] == events[i])
      && argv[5 + 2 * |events|] == "--"
      && argv[6 + 2 * |events|..] == cmd
  {
    var argv := PerfArgv(tmp, events, cmd);
    var ev := EventArgs(events);
    assert argv == ["perf", "stat", "-j", "-o", tmp] + (ev + ["--"] + cmd);
    forall i | 0 <= i < |events|
      ensures argv[5 + 2 * i] == "-e" && argv[6 + 2 * i] == events[i]
    {
      EventArgsAt(events, i);
      assert argv[5 + 2 * i] == ev[2 * i];
      assert argv[6 + 2 * i] == ev[2 * i + 1];
    }
    assert argv[6 + 2 * |events|..] == cmd;
  }

  /** Reads back the layout PerfArgv builds: `-e` pairs up to the `--` separator. */
  function SplitEvents(rest: seq<string>): Option<(seq<string>, seq<string>)>
  {
    if |rest| >= 2 && rest[0] == "-e" then
      match SplitEvents(rest[2..])
      case None => None
      case Some(parts) => Some(([rest[1]] + parts.0, parts.1))
    else if |rest| >= 1 && rest[0] == "--" then Some(([], rest[1..]))
    else None
  }

  /** Recovers the output file, the events and the profiled command from a perf command line. */
  function SplitArgv(argv: seq<string>): Option<(string, seq<string>, seq<string>)>
  {
    if |argv| >= 5 && argv[..4] == ["perf", "stat", "-j", "-o"] then
      match SplitEvents(argv[5..])
      case None => None
      case Some(parts) => Some((argv[4], parts.0, parts.1))
    else None
  }

  lemma {:induction false} SplitEventsRoundTrip(events: seq<string>, cmd: seq<string>)
    ensures SplitEvents(EventArgs(events) + ["--"] + cmd) == Some((events, cmd))
  {
    if events != [] {
      var rest := EventArgs(events) + ["--"] + cmd;
      assert rest[2..] == EventArgs(events[1..]) + ["--"] + cmd;
      SplitEventsRoundTrip(events[1..], cmd);
      assert [events[0]] + events[1..] == events;
    } else {
      assert ([] + ["--"] + cmd)[1..] == cmd;
    }
  }

  /** The command line is unambiguous: the events and the command, including any of its
      arguments that look like perf options, are read back exactly. */
  lemma PerfArgvRoundTrip(tmp: string, events: seq<string>, cmd: seq<string>)
    ensures SplitArgv(PerfArgv(tmp, events, cmd)) == Some((tmp, events, cmd))
  {
    var argv := PerfArgv(tmp, events, cmd);
    assert argv[5..] == EventArgs(events) + ["--"] + cmd;
    assert argv[..4] == ["perf", "stat", "-j", "-o"];
    SplitEventsRoundTrip(events, cmd);
  }

  // ---------------------------------------------------------------------------
  // Reading counter values: float() on the text perf writes
  // ---------------------------------------------------------------------------

  predicate AllDigits(s: string)
  {
    forall i :: 0 <= i < |s| ==> '0' <= s[i] <= '9'
  }

  /** The number a string of decimal digits denotes. */
  function DigitsValue(s: string): nat
    requires AllDigits(s)
  {
    if s == [] then 0 else DigitsValue(s[..|s| - 1]) * 10 + (s[|s| - 1] as int - '0' as int)
  }

  function Pow10(n: nat): (p: nat)
    ensures p > 0
  {
    if n == 0 then 1 else 10 * Pow10(n - 1)
  }

  /** Position of the first '.', or |s| when there is none. */
  function DotIndex(s: string): (k: nat)
    ensures k <= |s|
    ensures forall i :: 0 <= i < k ==> s[i] != '.'
    ensures k < |s| ==> s[k] == '.'
  {
    if s == [] || s[0] == '.' then 0 else 1 + DotIndex(s[1..])
  }

  /** Digits, optionally followed by a '.' and more digits, with at least one digit. */
  function ParseUnsigned(s: string): Option<real>
  {
    var k := DotIndex(s);
    var whole := s[..k];
    var frac := if k < |s| then s[k + 1..] else [];
    if AllDigits(whole) && AllDigits(frac) && |whole| + |frac| > 0 then Some(Decimal(whole, frac))
    else None
  }

  /** The value of `whole.frac` written in decimal. */
  function Decimal(whole: string, frac: string): real
    requires AllDigits(whole) && AllDigits(frac)
  {
    DigitsValue(whole) as real + DigitsValue(frac) as real / Pow10(|frac|) as real
  }

  /** float() of a counter-value text in plain decimal notation; None where float() raises. */
  function ParseFloat(text: string): Option<real>
  {
    if |text| > 0 && text[0] == '-' then
      match ParseUnsigned(text[1..])
      case None => None
      case Some(x) => Some(-x)
    else if |text| > 0 && text[0] == '+' then ParseUnsigned(text[1..])
    else ParseUnsigned(text)
  }

  /** The decimal text of a natural number. */
  function NatText(n: nat): (s: string)
    ensures |s| > 0 && AllDigits(s)
  {
    var d := ['0' + (n % 10) as char];
    if n < 10 then d else NatText(n / 10) + d
  }

  function Zeros(k: nat): (s: string)
    ensures |s| == k && AllDigits(s)
  {
    if k == 0 then [] else Zeros(k - 1) + ['0']
  }

  lemma {:induction false} NatTextValue(n: nat)
    ensures DigitsValue(NatText(n)) == n
  {
    var s := NatText(n);
    if n >= 10 {
      assert s[..|s| - 1] == NatText(n / 10);
      NatTextValue(n / 10);
    }
  }

  lemma {:induction false} ZerosValue(k: nat)
    ensures DigitsValue(Zeros(k)) == 0
  {
    if k > 0 {
      assert Zeros(k)[..k - 1] == Zeros(k - 1);
      ZerosValue(k - 1);
    }
  }

  lemma {:induction false} DotIndexOfDigits(a: string, b: string)
    requires AllDigits(a)
    ensures DotIndex(a) == |a|
    ensures DotIndex(a + ['.'] + b) == |a|
  {
    if a != [] {
      assert (a + ['.'] + b)[1..] == a[1..] + ['.'] + b;
      DotIndexOfDigits(a[1..], b);
    } else {
      assert (a + ['.'] + b)[0] == '.';
    }
  }

  /** Digits with an optional '.' fraction read as their decimal value. */
  lemma ParseUnsignedDigits(a: string, b: string)
    requires AllDigits(a) && AllDigits(b) && |a| > 0
    ensures ParseUnsigned(a) == Some(Decimal(a, []))
    ensures ParseUnsigned(a + ['.'] + b) == Some(Decimal(a, b))
  {
    DotIndexOfDigits(a, b);
    assert a[..|a|] == a;
    var t := a + ['.'] + b;
    assert t[..|a|] == a;
    assert t[|a| + 1..] == b;
  }

  /** Unsigned text reads the same with or without the sign check. */
  lemma ParseFloatUnsigned(t: string)
    requires |t| > 0 && '0' <= t[0] <= '9'
    ensures ParseFloat(t) == ParseUnsigned(t)
  {
  }

  /** A zero fraction adds nothing to the value. */
  lemma DecimalZeroFraction(a: string, k: nat)
    requires AllDigits(a)
    ensures Decimal(a, Zeros(k)) == Decimal(a, [])
  {
    ZerosValue(k);
    var p := Pow10(k) as real;
    assert 0.0 / p == 0.0;
  }

  /** The text perf writes for a whole count, with or without a zero fraction,
      reads back as that count. */
  lemma CountTextRoundTrip(n: nat, k: nat)
    ensures ParseFloat(NatText(n)) == Some(n as real)
    ensures ParseFloat(NatText(n) + "." + Zeros(k)) == Some(n as real)
  {
    var s := NatText(n);
    var t := s + "." + Zeros(k);
    assert t == s + ['.'] + Zeros(k);
    ParseUnsignedDigits(s, Zeros(k));
    NatTextValue(n);
    DecimalZeroFraction(s, k);
    ParseFloatUnsigned(s);
    assert t[0] == s[0];
    ParseFloatUnsigned(t);
  }

  /** Text that starts with neither a sign, a digit nor a '.' is not a number. */
  lemma ParseFloatRejects(s: string)
    requires |s| > 0 && s[0] !in "+-.0123456789"
    ensures ParseFloat(s) == None
  {
    var k := DotIndex(s);
    assert k > 0;
    assert s[..k][0] == s[0];
  }

  /** The placeholders perf writes for a counter it could not read are not numbers. */
  lemma NotCountedIsNotANumber()
    ensures ParseFloat("<not counted>") == None
    ensures ParseFloat("<not supported>") == None
  {
    ParseFloatRejects("<not counted>");
    ParseFloatRejects("<not supported>");
  }

  // ---------------------------------------------------------------------------
  // Folding perf's JSON records into a counter map
  // ---------------------------------------------------------------------------

  /** One JSON object of `perf stat -j` output; perf writes every field as text. */
  type Record = map<string, string>

  /** A record that reports a counter; all others are auxiliary and skipped. */
  predicate Kept(r: Record)
  {
    "event" in r && "counter-value" in r
  }

  /** The counter map after reading `lines` in order; the first kept record whose
      counter-value is not a number ends the run. */
  function Collect(lines: seq<Record>): (out: Outcome<map<string, real>>)
    ensures out.Fail? ==> out.failure.BadCounterValue?
  {
    if lines == [] then Ok(map[])
    else
      match Collect(lines[..|lines| - 1])
      case Fail(f) => Fail(f)
      case Ok(perf) =>
        var r := lines[|lines| - 1];
        if Kept(r) then
          match ParseFloat(r["counter-value"])
          case None => Fail(BadCounterValue(r["counter-value"]))
          case Some(v) => Ok(perf[r["event"] := v])
        else Ok(perf)
  }

  /** Reading one more record: an auxiliary record changes nothing. */
  lemma CollectSkip(lines: seq<Record>, r: Record)
    requires !Kept(r)
    ensures Collect(lines + [r]) == Collect(lines)
  {
    assert (lines + [r])[..|lines|] == lines;
  }

  /** Reading one more record: a counter record sets (or overwrites) its event's value. */
  lemma CollectAdd(lines: seq<Record>, r: Record, perf: map<string, real>, v: real)
    requires Collect(lines) == Ok(perf) && Kept(r) && ParseFloat(r["counter-value"]) == Some(v)
    ensures Collect(lines + [r]) == Ok(perf[r["event"] := v])
  {
    assert (lines + [r])[..|lines|] == lines;
  }

  /** The events named by kept records. */
  function KeptEvents(lines: seq<Record>): set<string>
  {
    set i | 0 <= i < |lines| && Kept(lines[i]) :: lines[i]["event"]
  }

  /** Record i is kept and no later kept record names the same event. */
  predicate LastFor(lines: seq<Record>, i: int)
  {
    && 0 <= i < |lines| && Kept(lines[i])
    && forall j :: i < j < |lines| && Kept(lines[j]) ==> lines[j]["event"] != lines[i]["event"]
  }

  /** A kept record whose counter-value float() refuses. */
  predicate BadAt(lines: seq<Record>, i: int)
  {
    0 <= i < |lines| && Kept(lines[i]) && ParseFloat(lines[i]["counter-value"]).None?
  }

  /** Once a prefix has failed, the whole fold fails the same way. */
  lemma {:induction false} CollectFailPersists(lines: seq<Record>, k: nat)
    requires k <= |lines| && Collect(lines[..k]).Fail?
    ensures Collect(lines) == Collect(lines[..k])
    decreases |lines| - k
  {
    if k < |lines| {
      assert lines[..k + 1][..k] == lines[..k];
      CollectFailPersists(lines, k + 1);
    } else {
      assert lines[..k] == lines;
    }
  }

  /** The fold fails exactly when some kept record carries a counter-value that is not a number. */
  lemma {:induction false} CollectFails(lines: seq<Record>)
    ensures Collect(lines).Fail? <==> exists i :: BadAt(lines, i)
  {
    if lines != [] {
      var last := |lines| - 1;
      var init := lines[..last];
      var r := lines[last];
      CollectFails(init);
      if Collect(init).Fail? {
        var i :| BadAt(init, i);
        assert lines[i] == init[i];
        assert BadAt(lines, i);
      } else if Kept(r) && ParseFloat(r["counter-value"]).None? {
        assert BadAt(lines, last);
      } else {
        assert Collect(lines).Ok?;
        forall i | 0 <= i < |lines| ensures !BadAt(lines, i) {
          if i < last {
            assert lines[i] == init[i];
            assert !BadAt(init, i);
          }
        }
      }
    }
  }

  /** The kept events of one more record. */
  lemma KeptEventsSnoc(lines: seq<Record>, r: Record)
    ensures KeptEvents(lines + [r]) == KeptEvents(lines) + (if Kept(r) then {r["event"]} else {})
  {
    var all := lines + [r];
    forall e | e in KeptEvents(all) ensures e in KeptEvents(lines) + (if Kept(r) then {r["event"]} else {}) {
      var i :| 0 <= i < |all| && Kept(all[i]) && all[i]["event"] == e;
      if i < |lines| { assert all[i] == lines[i]; }
    }
    forall e | e in KeptEvents(lines) ensures e in KeptEvents(all) {
      var i :| 0 <= i < |lines| && Kept(lines[i]) && lines[i]["event"] == e;
      assert all[i] == lines[i];
    }
    if Kept(r) {
      assert all[|lines|] == r;
    }
  }

  /** The keys of the counter map are exactly the events of the kept records. */
  lemma {:induction false} CollectKeys(lines: seq<Record>)
    requires Collect(lines).Ok?
    ensures Collect(lines).value.Keys == KeptEvents(lines)
  {
    if lines != [] {
      var init := lines[..|lines| - 1];
      var r := lines[|lines| - 1];
      assert lines == init + [r];
      CollectKeys(init);
      KeptEventsSnoc(init, r);
    }
  }

  /** Each event's value comes from the last kept record that names it: later records
      overwrite earlier ones. */
  lemma {:induction false} CollectLatest(lines: seq<Record>, i: int)
    requires Collect(lines).Ok? && LastFor(lines, i)
    ensures lines[i]["event"] in Collect(lines).value
    ensures Some(Collect(lines).value[lines[i]["event"]]) == ParseFloat(lines[i]["counter-value"])
  {
    var init := lines[..|lines| - 1];
    var r := lines[|lines| - 1];
    if i == |lines| - 1 {
    } else {
      assert LastFor(init, i) by {
        forall j | i < j < |init| && Kept(init[j]) ensures init[j]["event"] != init[i]["event"] {
          assert init[j] == lines[j];
        }
      }
      CollectLatest(init, i);
    }
  }

  // ---------------------------------------------------------------------------
  // measure_perf
  // ---------------------------------------------------------------------------

  /** Runs the command under perf: `argv` is what is launched, `returncode` the child's
      exit status, `output` the records perf wrote to `tmp`. A non-zero status ends the
      run with that status before any record is read; otherwise the records are folded. */
  method MeasurePerf(cmd: seq<string>, events: seq<string>, tmp: string, returncode: int, output: seq<Record>)
    returns (argv: seq<string>, out: Outcome<map<string, real>>)
    ensures argv == PerfArgv(tmp, events, cmd)
    ensures returncode != 0 ==> out == Fail(ChildExit(returncode))
    ensures returncode == 0 ==> out == Collect(output)
  {
    argv := ["perf", "stat", "-j", "-o", tmp] + EventArgs(events) + ["--"] + cmd;
    if returncode != 0 {
      return argv, Fail(ChildExit(returncode));
    }
    var perf: map<string, real> := map[];
    var i := 0;
    while i < |output|
      invariant 0 <= i <= |output|
      invariant Collect(output[..i]) == Ok(perf)
    {
      var data := output[i];
      assert output[..i + 1][..i] == output[..i];
      if "event" in data && "counter-value" in data {
        var value := ParseFloat(data["counter-value"]);
        if value.None? {
          CollectFailPersists(output, i + 1);
          return argv, Fail(BadCounterValue(data["counter-value"]));
        }
        perf := perf[data["event"] := value.value];
      }
      i := i + 1;
    }
    assert output[..i] == output;
    out := Ok(perf);
  }
}
