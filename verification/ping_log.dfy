/** The time-series log `ping.csv` (Ping_time.py:71-87). The file is opened
    in append mode and each cycle writes a line break followed by one
    record: the timestamp, then avg, min, max and mdev, each with three
    decimals, separated by commas. The log is modelled as the file's text;
    its lines are that text cut at line breaks. `ReadRecord` is the reading
    side the plotting stage relies on (five comma-separated fields), stated
    here as the partner of the writer. */
module PingLog {
  import opened Wrappers
  import opened PyStr
  import opened Decimals
  import opened StatsParser

  /** One measurement: when it was taken and what the probe reported. */
  datatype Sample = Sample(timestamp: string, stats: Stats)

  /** `datetime.isoformat()` never writes a comma or a line break. */
  predicate ValidTimestamp(ts: string) {
    Avoids(ts, At(',')) && Avoids(ts, At('\n'))
  }

  /** The fields of a record, in the order they are written: the timestamp,
      then avg, min, max and mdev with three decimals. */
  function RecordFields(x: Sample): seq<string> {
    [x.timestamp, Format3(x.stats.avgMs), Format3(x.stats.minMs),
     Format3(x.stats.maxMs), Format3(x.stats.mdevMs)]
  }

  /** The body of the record line, after the line break. Cut at commas it
      gives back exactly its five fields, and it holds no line break. */
  function RecordLine(x: Sample): (r: string)
    ensures ValidTimestamp(x.timestamp) ==> Split(r, ',') == RecordFields(x)
    ensures ValidTimestamp(x.timestamp) ==> Avoids(r, At('\n'))
  {
    var f := RecordFields(x);
    JoinFive(f[0], f[1], f[2], f[3], f[4], ',');
    assert ValidTimestamp(x.timestamp) ==>
             Split(Join(f, ','), ',') == f && Avoids(Join(f, ','), At('\n')) by {
      if ValidTimestamp(x.timestamp) {
        FieldsAvoid(x, ',');
        SplitJoin(f, ',');
        FieldsAvoid(x, '\n');
        JoinAvoids(f, ',', At('\n'));
      }
    }
    x.timestamp + "," + Format3(x.stats.avgMs) + "," + Format3(x.stats.minMs)
      + "," + Format3(x.stats.maxMs) + "," + Format3(x.stats.mdevMs)
  }

  /** The text the ten `f.write` calls append: a line break, then the
      record line, which is one line of its own. */
  function Record(x: Sample): (r: string)
    ensures ValidTimestamp(x.timestamp) ==> Split(r, '\n') == ["", RecordLine(x)]
  {
    assert ValidTimestamp(x.timestamp) ==> Split("\n" + RecordLine(x), '\n') == ["", RecordLine(x)] by {
      if ValidTimestamp(x.timestamp) {
        SplitOnAppend("", '\n', RecordLine(x), At('\n'));
        SplitOnNone(RecordLine(x), At('\n'));
        assert "" + "\n" + RecordLine(x) == "\n" + RecordLine(x);
      }
    }
    "\n" + RecordLine(x)
  }

  /** The file after a successful append: the old text, untouched, then
      exactly the record. */
  function Append(log: string, x: Sample): (r: string)
    ensures |r| > |log| && r[..|log|] == log
    ensures r[|log|..] == Record(x)
  {
    log + Record(x)
  }

  /** The file's lines, as `text.split("\n")`. */
  function Lines(log: string): seq<string> {
    Split(log, '\n')
  }

  /** Successive cycles, oldest first, each appending its record. */
  function AppendAll(log: string, xs: seq<Sample>): (r: string)
    ensures |r| >= |log| && r[..|log|] == log
  {
    if xs == [] then log else Append(AppendAll(log, xs[..|xs| - 1]), xs[|xs| - 1])
  }

  /** The record lines of `xs`, oldest first. */
  function RecordLines(xs: seq<Sample>): (r: seq<string>)
    ensures |r| == |xs|
  {
    if xs == [] then [] else RecordLines(xs[..|xs| - 1]) + [RecordLine(xs[|xs| - 1])]
  }

  /** Reading one record line back: five comma-separated fields, the first a
      timestamp and the others avg, min, max and mdev. */
  function ReadRecord(line: string): Option<Sample> {
    var fields := Split(line, ',');
    if |fields| != 5 then None
    else
      var avgMs :- ParseFloat(fields[1]);
      var minMs :- ParseFloat(fields[2]);
      var maxMs :- ParseFloat(fields[3]);
      var mdevMs :- ParseFloat(fields[4]);
      Some(Sample(fields[0], Stats(minMs, avgMs, maxMs, mdevMs)))
  }

  // ---------------------------------------------------------------------
  // Lemmas

  /** Reading a written record back gives its timestamp and its statistics
      rounded to thousandths, each within half a thousandth of the value
      written and equal to it when it had at most three decimals. */
  lemma RecordRoundTrip(x: Sample)
    requires ValidTimestamp(x.timestamp)
    ensures ReadRecord(RecordLine(x)) == Some(Sample(x.timestamp, Rounded(x.stats)))
    ensures x.stats.minMs.scale <= 3 ==> SameValue(Rounded(x.stats).minMs, x.stats.minMs)
    ensures x.stats.avgMs.scale <= 3 ==> SameValue(Rounded(x.stats).avgMs, x.stats.avgMs)
    ensures x.stats.maxMs.scale <= 3 ==> SameValue(Rounded(x.stats).maxMs, x.stats.maxMs)
    ensures x.stats.mdevMs.scale <= 3 ==> SameValue(Rounded(x.stats).mdevMs, x.stats.mdevMs)
  {
    Format3RoundTrip(x.stats.avgMs);
    Format3RoundTrip(x.stats.minMs);
    Format3RoundTrip(x.stats.maxMs);
    Format3RoundTrip(x.stats.mdevMs);
  }

  /** No field holds `c` when the timestamp does not and `c` is neither a
      digit nor the point. */
  lemma FieldsAvoid(x: Sample, c: char)
    requires Avoids(x.timestamp, At(c)) && !IsDigit(c) && c != '.'
    ensures forall i :: 0 <= i < 5 ==> Avoids(RecordFields(x)[i], At(c))
  {
    Format3Avoids(x.stats.avgMs, c);
    Format3Avoids(x.stats.minMs, c);
    Format3Avoids(x.stats.maxMs, c);
    Format3Avoids(x.stats.mdevMs, c);
  }

  /** Append mode adds exactly one line, the record, after the lines already
      in the file, and changes none of them. */
  lemma AppendAddsOneLine(log: string, x: Sample)
    requires ValidTimestamp(x.timestamp)
    ensures Lines(Append(log, x)) == Lines(log) + [RecordLine(x)]
  {
    SplitOnAppend(log, '\n', RecordLine(x), At('\n'));
    SplitOnNone(RecordLine(x), At('\n'));
    assert Append(log, x) == log + "\n" + RecordLine(x);
  }

  /** The first record written to an empty file leaves an empty first line:
      the writer adds no header, and the file's first line is blank. */
  lemma FirstRecordAfterBlankLine(x: Sample)
    requires ValidTimestamp(x.timestamp)
    ensures Lines(Append("", x)) == ["", RecordLine(x)]
  {
    AppendAddsOneLine("", x);
    assert Lines("") == [""];
  }

  /** After N successful cycles the file holds exactly N new lines beyond its
      earlier ones, in the order the cycles ran. */
  lemma {:induction false} AppendAllLines(log: string, xs: seq<Sample>)
    requires forall i :: 0 <= i < |xs| ==> ValidTimestamp(xs[i].timestamp)
    ensures Lines(AppendAll(log, xs)) == Lines(log) + RecordLines(xs)
    decreases |xs|
  {
    if xs != [] {
      var init, last := xs[..|xs| - 1], xs[|xs| - 1];
      assert forall i :: 0 <= i < |init| ==> ValidTimestamp(init[i].timestamp) by {
        forall i | 0 <= i < |init| ensures ValidTimestamp(init[i].timestamp) {
          assert init[i] == xs[i];
        }
      }
      AppendAllLines(log, init);
      var before := AppendAll(log, init);
      assert AppendAll(log, xs) == Append(before, last);
      AppendAddsOneLine(before, last);
      assert RecordLines(xs) == RecordLines(init) + [RecordLine(last)];
      assert Lines(AppendAll(log, xs)) == (Lines(log) + RecordLines(init)) + [RecordLine(last)];
      LinesAssoc(Lines(log), RecordLines(init), [RecordLine(last)]);
    } else {
      assert Lines(log) + RecordLines(xs) == Lines(log);
    }
  }

  /** Regrouping a concatenation, kept apart so that the induction step
      above does not search for it among its other facts. */
  lemma LinesAssoc(a: seq<string>, b: seq<string>, c: seq<string>)
    ensures (a + b) + c == a + (b + c)
  {
  }
}
