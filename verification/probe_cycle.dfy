/** One run of the hourly job `ping_site` (Ping_time.py:40-94): build the
    probe's argument vector, run the probe, read its summary line, stamp the
    time, and append one record to the log.

    The probe run, the clock and the file system are outside the model: the
    probe's outcome, the timestamp and the outcome of the file writes are
    parameters, and the log is the file's text before and after. The
    function returns what the run leaves behind: how it ended and the
    file's text afterwards. */
module ProbeCycle {
  import opened Wrappers
  import opened PyStr
  import opened Decimals
  import opened StatsParser
  import opened PingLog

  /** The configuration written into `ping_site`. The address is left blank
      in the repository, for the operator to fill in. */
  const ConfiguredAddress: string := ""
  const ConfiguredCount: nat := 8
  const ConfiguredPause: nat := 1

  /** `"ping -c {} -W {} {}".format(count, pause, address).split(' ')`: the
      fixed words `ping -c <count> -W <pause>` followed by the address cut at
      spaces, so an address without spaces is one argument. */
  function Command(count: nat, pause: nat, address: string): (r: seq<string>)
    ensures r == ["ping", "-c", DecimalString(count), "-W", DecimalString(pause)] + Split(address, ' ')
    ensures Avoids(address, At(' ')) ==>
              r == ["ping", "-c", DecimalString(count), "-W", DecimalString(pause), address]
  {
    var c := DecimalString(count);
    var p := DecimalString(pause);
    var head := "ping -c " + c + " -W " + p;
    CommandHead(c, p);
    assert head + " " + address == head + [' '] + address;
    SplitOnAppend(head, ' ', address, At(' '));
    assert Avoids(address, At(' ')) ==> Split(address, ' ') == [address] by {
      if Avoids(address, At(' ')) {
        SplitOnNone(address, At(' '));
      }
    }
    Split(head + " " + address, ' ')
  }

  /** What `subprocess.check_output(cmd).decode()` gave: the probe's text,
      or an exception (spawn failure, non-zero exit status, undecodable
      output). */
  datatype ProbeResult = ProbeOutput(text: string) | ProbeFailed

  /** What the `f.write` calls did: all of them completed, or an exception
      stopped them after `written` characters of the record reached the
      file. */
  datatype WriteResult = WriteCompleted | WriteInterrupted(written: nat)

  /** How `ping_site` ended. */
  datatype Outcome =
    | ProbeError                  // the probe raised: `return False`
    | ParseRaised(error: ParseError)  // lines 59-65 raised; nothing catches it
    | WriteError                  // a write raised: `return False`
    | Recorded                    // the record was written: `return` (None)

  datatype CycleResult = CycleResult(outcome: Outcome, log: string)

  /** One run of `ping_site` against a log whose text is `log`. */
  function PingSite(probe: ProbeResult, now: string, write: WriteResult, log: string): (r: CycleResult)
    ensures |r.log| >= |log| && r.log[..|log|] == log
    ensures probe.ProbeFailed? ==> r == CycleResult(ProbeError, log)
    ensures r.outcome.ProbeError? <==> probe.ProbeFailed?
    ensures r.outcome.WriteError? <==>
              probe.ProbeOutput? && ParseProbeOutput(probe.text).Success? && write.WriteInterrupted?
    ensures r.outcome.Recorded? <==>
              probe.ProbeOutput? && ParseProbeOutput(probe.text).Success? && write.WriteCompleted?
    ensures r.outcome.ParseRaised? <==>
              probe.ProbeOutput? && ParseProbeOutput(probe.text).Failure?
    ensures r.outcome.ParseRaised? ==>
              r.log == log && r.outcome.error == ParseProbeOutput(probe.text).error
    ensures r.outcome.Recorded? ==>
              r.log == Append(log, Sample(now, ParseProbeOutput(probe.text).value))
    ensures r.outcome.WriteError? ==>
              IsPrefix(r.log[|log|..], Record(Sample(now, ParseProbeOutput(probe.text).value)))
  {
    match probe
    case ProbeFailed => CycleResult(ProbeError, log)
    case ProbeOutput(text) =>
      match ParseProbeOutput(text)
      case Failure(e) => CycleResult(ParseRaised(e), log)
      case Success(stats) =>
        var x := Sample(now, stats);
        match write
        case WriteCompleted => CycleResult(Recorded, Append(log, x))
        case WriteInterrupted(k) => CycleResult(WriteError, PartialAppend(log, Record(x), k))
  }

  /** `p` is a leading part of `s`. */
  predicate IsPrefix(p: string, s: string) {
    |p| <= |s| && p == s[..|p|]
  }

  /** The file after the writes stopped with `k` characters of `record`
      written (never more than the whole record). */
  function PartialAppend(log: string, record: string, k: nat): (r: string)
    ensures |log| <= |r| && r[..|log|] == log
    ensures IsPrefix(r[|log|..], record)
  {
    var kept := if k < |record| then k else |record|;
    var r := log + record[..kept];
    assert r[..|log|] == log && r[|log|..] == record[..kept];
    r
  }

  // ---------------------------------------------------------------------
  // Lemmas

  /** The fixed part of the command splits into its five words. */
  lemma CommandHead(c: string, p: string)
    requires AllDigits(c) && AllDigits(p)
    ensures Split("ping -c " + c + " -W " + p, ' ') == ["ping", "-c", c, "-W", p]
  {
    var words := ["ping", "-c", c, "-W", p];
    DigitsAvoid(c, ' ');
    DigitsAvoid(p, ' ');
    assert forall i :: 0 <= i < 5 ==> Avoids(words[i], At(' '));
    JoinFive("ping", "-c", c, "-W", p, ' ');
    assert "ping -c " + c + " -W " + p == "ping" + [' '] + "-c" + [' '] + c + [' '] + "-W" + [' '] + p;
    SplitJoin(words, ' ');
  }


  /** With the repository's configuration the vector is
      `["ping", "-c", "8", "-W", "1", ""]`: the blank address becomes an
      empty last argument. */
  lemma ConfiguredCommand()
    ensures Command(ConfiguredCount, ConfiguredPause, ConfiguredAddress) == ["ping", "-c", "8", "-W", "1", ""]
  {
    assert DecimalString(8) == "8";
    assert DecimalString(1) == "1";
  }

  /** A successful run adds exactly one line to the log, after the lines
      already there, and that line reads back as the run's timestamp and the
      parsed statistics rounded to thousandths. */
  lemma RecordedRunAddsOneLine(probe: ProbeResult, now: string, write: WriteResult, log: string)
    requires ValidTimestamp(now)
    requires probe.ProbeOutput? && ParseProbeOutput(probe.text).Success? && write.WriteCompleted?
    ensures PingSite(probe, now, write, log).outcome.Recorded?
    ensures var stats := ParseProbeOutput(probe.text).value;
      && Lines(PingSite(probe, now, write, log).log) == Lines(log) + [RecordLine(Sample(now, stats))]
      && ReadRecord(RecordLine(Sample(now, stats))) == Some(Sample(now, Rounded(stats)))
  {
    var x := Sample(now, ParseProbeOutput(probe.text).value);
    AppendAddsOneLine(log, x);
    RecordRoundTrip(x);
  }

  /** A run that fails before writing leaves the log exactly as it was; only
      an interrupted write can leave part of a record behind. */
  lemma FailedRunKeepsLog(probe: ProbeResult, now: string, write: WriteResult, log: string)
    requires probe.ProbeFailed? || ParseProbeOutput(probe.text).Failure?
    ensures PingSite(probe, now, write, log).log == log
    ensures !PingSite(probe, now, write, log).outcome.Recorded?
  {
  }

  // ---------------------------------------------------------------------
  // A worked example

  const ExampleToken: string := "12.345/15.678/20.901/2.345"
  const ExampleLine: string := "rtt min/avg/max/mdev = " + ExampleToken + " ms"
  const ExampleStamp: string := "2024-01-01T00:14:00"

  function ExampleStats(): Stats {
    Stats(Decimal(12345, 3), Decimal(15678, 3), Decimal(20901, 3), Decimal(2345, 3))
  }

  lemma ExampleSpelling()
    ensures DecimalString(12) + "." + ThreeDigits(345) == "12.345"
    ensures DecimalString(15) + "." + ThreeDigits(678) == "15.678"
    ensures DecimalString(20) + "." + ThreeDigits(901) == "20.901"
    ensures DecimalString(2) + "." + ThreeDigits(345) == "2.345"
  {
    ExampleWholes();
    ExampleFractions();
  }

  lemma ExampleWholes()
    ensures DecimalString(12) == "12" && DecimalString(15) == "15"
    ensures DecimalString(20) == "20" && DecimalString(2) == "2"
  {
    assert DecimalString(1) == "1";
  }

  lemma ExampleFractions()
    ensures ThreeDigits(345) == "345" && ThreeDigits(678) == "678" && ThreeDigits(901) == "901"
  {
  }

  /** `{0:.3f}` of a value that already has three decimals. */
  lemma ExampleFormat(x: Decimal, whole: nat, frac: nat)
    requires x.scale == 3 && frac < 1000 && x.digits == whole * 1000 + frac
    ensures Thousandths(x) == x.digits
    ensures Format3(x) == DecimalString(whole) + "." + ThreeDigits(frac)
  {
    assert Pow10(0) == 1;
    ThousandsSplit(whole, frac);
  }

  lemma ThousandsSplit(whole: nat, frac: nat)
    requires frac < 1000
    ensures (whole * 1000 + frac) / 1000 == whole && (whole * 1000 + frac) % 1000 == frac
  {
  }

  lemma ExampleFormats()
    ensures Format3(Decimal(12345, 3)) == "12.345"
    ensures Format3(Decimal(15678, 3)) == "15.678"
    ensures Format3(Decimal(20901, 3)) == "20.901"
    ensures Format3(Decimal(2345, 3)) == "2.345"
    ensures Rounded(ExampleStats()) == ExampleStats()
  {
    ExampleSpelling();
    ExampleFormat(Decimal(12345, 3), 12, 345);
    ExampleFormat(Decimal(15678, 3), 15, 678);
    ExampleFormat(Decimal(20901, 3), 20, 901);
    ExampleFormat(Decimal(2345, 3), 2, 345);
  }

  /** The example line is the summary line the probe prints for the example
      statistics. */
  lemma ExampleSummary()
    ensures SummaryLine(ExampleStats()) == ExampleLine
  {
    ExampleFormats();
    ExampleTokenPieces();
  }

  lemma ExampleTokenPieces()
    ensures "12.345" + "/" + "15.678" + "/" + "20.901" + "/" + "2.345" == ExampleToken
  {
    assert "12.345" + "/" + "15.678" == "12.345/15.678";
    assert "20.901" + "/" + "2.345" == "20.901/2.345";
  }

  /** The summary line `rtt min/avg/max/mdev = 12.345/15.678/20.901/2.345 ms`
      reads as min 12.345, avg 15.678, max 20.901 and mdev 2.345, both as
      the probe's whole output and after whatever it printed before, with
      the line break the probe ends its output with. */
  lemma ExampleParse(earlier: string)
    ensures ParseProbeOutput(ExampleLine + "\n") == Success(ExampleStats())
    ensures ParseProbeOutput(earlier + "\n" + ExampleLine + "\n") == Success(ExampleStats())
  {
    ExampleSummary();
    ExampleFormats();
    assert AllWhite("\n");
    ProbeOutputRoundTrip(earlier, ExampleStats(), "\n");
  }

  /** The record written for the example at `2024-01-01T00:14:00` is
      `2024-01-01T00:14:00,15.678,12.345,20.901,2.345`: avg first, then min,
      max and mdev. */
  lemma ExampleRecord()
    ensures RecordLine(Sample(ExampleStamp, ExampleStats()))
              == ExampleStamp + "," + "15.678" + "," + "12.345" + "," + "20.901" + "," + "2.345"
  {
    ExampleFormats();
  }

  /** A run whose probe output reads as `stats` and whose write completes
      appends one line break and the record line. */
  lemma CompletedRun(output: string, now: string, log: string, stats: Stats)
    requires ParseProbeOutput(output) == Success(stats)
    ensures PingSite(ProbeOutput(output), now, WriteCompleted, log)
              == CycleResult(Recorded, log + "\n" + RecordLine(Sample(now, stats)))
  {
    Regroup(log, "\n", RecordLine(Sample(now, stats)));
  }

  /** Regrouping a concatenation, kept apart so that the proof above does
      not search for it among the facts about `PingSite`. */
  lemma Regroup(a: string, b: string, c: string)
    ensures a + (b + c) == a + b + c
  {
  }

  /** End to end: a run whose output ends with the example line and a line
      break, and whose write completes, appends exactly
      `\n2024-01-01T00:14:00,15.678,12.345,20.901,2.345` to the log. */
  lemma ExampleRun(earlier: string, log: string)
    ensures PingSite(ProbeOutput(earlier + "\n" + ExampleLine + "\n"), ExampleStamp, WriteCompleted, log)
              == CycleResult(Recorded, log + "\n" + RecordLine(Sample(ExampleStamp, ExampleStats())))
    ensures RecordLine(Sample(ExampleStamp, ExampleStats()))
              == ExampleStamp + "," + "15.678" + "," + "12.345" + "," + "20.901" + "," + "2.345"
  {
    ExampleParse(earlier);
    CompletedRun(earlier + "\n" + ExampleLine + "\n", ExampleStamp, log, ExampleStats());
    ExampleRecord();
  }
}
