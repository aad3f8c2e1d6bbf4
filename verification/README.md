# ping-monitor: the probe cycle in Dafny

This project models the core of ping-monitor's hourly job `ping_site`
(`Ping_time.py`). The job runs `ping` against a fixed address and reads the
summary line `rtt min/avg/max/mdev = 12.345/15.678/20.901/2.345 ms`. It then
appends one record to the time-series log `ping.csv`. The record is a line
break, the ISO timestamp, and avg, min, max and mdev with three decimals,
separated by commas.

Modules, in dependency order:

- `Wrappers` (`wrappers.dfy`): `Option` and `Result`, usable with `:-`.
- `PyStr` (`pystr.dfy`): the Python string operations `ping_site` relies on,
  with Python's semantics written out.
  - `str.split(sep)` keeps empty pieces.
  - `str.split()` keeps only the non-empty runs of non-whitespace.
  - `str.strip()` trims `str.isspace` characters at both ends.
  - `sep.join`.
- `Decimals` (`decimals.dfy`): latency values as exact decimals.
  - `float()` on the unsigned literals the probe prints.
  - `"{0:.3f}".format(x)` as rounding to thousandths.
- `StatsParser` (`stats_parser.dfy`): from the probe's text to the four
  statistics. Each step is modelled: strip, last line, fourth token, `/`-parts,
  `float`. `SummaryLine` is the line the probe prints for given statistics.
  It is the partner the parser's round-trip lemmas are stated against.
- `PingLog` (`ping_log.dfy`): the record `ping_site` writes and the log's text
  before and after an append. `ReadRecord` is a reader of one record line. It
  is the partner the round-trip lemma is stated against.
- `ProbeCycle` (`probe_cycle.dfy`): the command vector and one whole run of
  `ping_site`, plus a worked example from summary line to record.

The probe, the clock and the file are parameters of `ProbeCycle.PingSite`:
- the probe's outcome is a `ProbeResult` (its text, or a failure);
- the timestamp is a string;
- how far the writes got is a `WriteResult`;
- the log is the file's text, and its lines are that text cut at `\n`.

`PingSite` returns how the run ended (`Outcome`) and the file's text afterwards.

## Model

| member | source | states |
|---|---|---|
| `PyStr.IsSpace` | Ping_time.py:52-60 | the characters `str.isspace` accepts, which `strip()` trims and `split()` cuts at: tab to carriage return, the separators U+001C to U+001F, space, U+0085, U+00A0 and the Unicode space, line and paragraph separators |
| `PyStr.Split` | Ping_time.py:59-60 | `s.split(sep)` gives at least one piece, no piece holds `sep`, and joining the pieces with `sep` gives `s` back, which pins the pieces down |
| `PyStr.Tokens` | Ping_time.py:60 | `str.split()`: every token is non-empty and free of whitespace; which tokens, in which order, is fixed by `TokensJoin`, `TokensAtSpace` and `TokensOfRun` below, which together determine the result on every string |
| `PyStr.TokensJoin` | Ping_time.py:60 | words free of whitespace joined by spaces are exactly the tokens `split()` returns, in order |
| `PyStr.TokensAtSpace` | Ping_time.py:60 | a whitespace character separates tokens: the tokens of `a + c + b` are those of `a` followed by those of `b` |
| `PyStr.TokensOfRun` | Ping_time.py:60 | a non-empty string without whitespace is a single token, and a whitespace-only string has none |
| `PyStr.Strip` | Ping_time.py:52 | `strip()` yields a slice of its input with only whitespace cut off on either side, and neither end of the result is whitespace |
| `PyStr.SplitOnAppend` | Ping_time.py:59-60 | cutting `a + sep + b` at `sep` gives the pieces of `a` followed by the pieces of `b` |
| `PyStr.JoinSplit` | Ping_time.py:48 | `sep.join(s.split(sep)) == s` for every string |
| `PyStr.SplitJoin` | Ping_time.py:48 | `sep.join(parts).split(sep) == parts` when no part holds the separator |
| `PyStr.TokensStrip` | Ping_time.py:52-60 | `s.strip().split() == s.split()`: stripping never changes the whitespace tokens |
| `Decimals.DecimalString` | Ping_time.py:48 | `str(n)` is a non-empty digit string denoting `n` without a leading zero |
| `Decimals.ParseFloat` | Ping_time.py:62-65 | what `float()` accepts here holds only digits and points |
| `Decimals.ParseFloatNoDigits` | Ping_time.py:62-65 | the empty string (an empty `/`-part) and a lone point are rejected |
| `Decimals.ParseFloatPoint` | Ping_time.py:62-65 | `float("W.F")` reads the digits of `W` and `F` as one number scaled by the length of `F` |
| `Decimals.ParseFloatWhole` | Ping_time.py:62-65 | `float("W")` without a point is the integer `W` |
| `Decimals.ParseFloatTwoPoints` | Ping_time.py:62-65 | a literal with two points is rejected |
| `Decimals.RoundHalfEven` | Ping_time.py:80 | the result is within half a unit of `m / d`, and an exact tie goes to the even neighbour |
| `Decimals.Thousandths` | Ping_time.py:80 | the value in thousandths is within half a thousandth of the exact value, and is exact when the value has at most three decimals |
| `Decimals.Format3` | Ping_time.py:80 | `{0:.3f}` output is digits without a leading zero, a point, and exactly three digits |
| `Decimals.Format3Chars` | Ping_time.py:80 | `{0:.3f}` writes only digits and the decimal point |
| `Decimals.Format3RoundTrip` | Ping_time.py:80 | reading back the three-decimal text gives the value rounded to thousandths |
| `Decimals.Format3Faithful` | Ping_time.py:80-86 | the value read back differs from the value written by at most half a thousandth, and not at all when the value had at most three decimals |
| `Decimals.Format3Stable` | Ping_time.py:80 | formatting a value read back from its own three-decimal text gives the same text |
| `StatsParser.LastLine` | Ping_time.py:59-60 | `text.split("\n")[-1]` holds no line break |
| `StatsParser.ReadStat` | Ping_time.py:62-65 | `float(parts[i])` succeeds exactly when part `i` exists and is a number, and gives that number |
| `StatsParser.ParseStatsToken` | Ping_time.py:60-65 | the token reads as statistics exactly when its first four `/`-parts exist and are numbers; parts 0, 1, 2, 3 become min, avg, max, mdev |
| `StatsParser.ParseSummaryLine` | Ping_time.py:60 | the line fails with the token-lookup error exactly when it has fewer than four tokens; otherwise only the fourth token is read |
| `StatsParser.ParseProbeOutput` | Ping_time.py:52-65 | output that is a single line reads as that line's summary: stripping never changes its tokens |
| `StatsParser.SingleLineOutput` | Ping_time.py:52-60 | a one-line output followed by any whitespace, such as the probe's closing line break, reads as that line |
| `StatsParser.OnlyLastLineMatters` | Ping_time.py:52-60 | whatever precedes the last line break and whatever whitespace follows the line, the output reads as that line alone, provided the line is not blank |
| `StatsParser.EarlierLinesIgnored` | Ping_time.py:52-60 | two outputs that differ only before a non-blank last line, followed by the same whitespace, read the same |
| `StatsParser.ExtraPartsIgnored` | Ping_time.py:60-65 | parts after the fourth `/`-part change nothing |
| `StatsParser.PartsInOrder` | Ping_time.py:62-65 | a token `a/b/c/d` of numbers reads as min `a`, avg `b`, max `c`, mdev `d` |
| `StatsParser.SummaryTokenRoundTrip` | Ping_time.py:60-65 | the token the probe prints, `min/avg/max/mdev` each with three decimals, reads back as those four statistics at three decimals, each in its place |
| `StatsParser.SummaryLineRoundTrip` | Ping_time.py:60-65 | the probe's summary line `rtt min/avg/max/mdev = ... ms` reads back as its statistics |
| `StatsParser.ProbeOutputRoundTrip` | Ping_time.py:52-65 | a summary line as the whole output or as its last line, followed by any whitespace such as the closing line break, reads back as its statistics |
| `StatsParser.TooFewTokensFails` | Ping_time.py:60 | a last line with fewer than four tokens raises and yields no statistics |
| `StatsParser.TooFewPartsFails` | Ping_time.py:60-65 | a token with fewer than four `/`-parts, all of them numbers, raises `IndexError` at the first missing part |
| `StatsParser.EmptyOutputFails` | Ping_time.py:52-60 | empty probe output raises at the token lookup |
| `PingLog.Append` | Ping_time.py:76-87 | append mode keeps the old text as a prefix and adds exactly the record after it |
| `PingLog.AppendAll` | Ping_time.py:76-87 | successive appends never change text already in the file |
| `PingLog.RecordLine` | Ping_time.py:78-86 | a record line cut at commas gives back exactly its five fields, timestamp, avg, min, max, mdev, in that order, and it holds no line break |
| `PingLog.Record` | Ping_time.py:77-86 | the appended text is a line break followed by exactly one line, the record line |
| `PingLog.RecordRoundTrip` | Ping_time.py:77-86 | reading a record line back gives its timestamp and the statistics rounded to thousandths, which are unchanged when they had at most three decimals |
| `PingLog.AppendAddsOneLine` | Ping_time.py:76-87 | an append adds exactly one line, the record, after the file's existing lines, which are unchanged |
| `PingLog.FirstRecordAfterBlankLine` | Ping_time.py:76-78 | the first record written to an empty file is preceded by an empty first line |
| `PingLog.AppendAllLines` | Ping_time.py:76-87 | after N appends the file holds its old lines followed by exactly the N records, in order |
| `ProbeCycle.Command` | Ping_time.py:48 | the vector is `ping -c <count> -W <pause>` followed by the address cut at spaces, and `[..., address]` when the address has no space |
| `ProbeCycle.ConfiguredCommand` | Ping_time.py:44-48 | with the configured values the vector is `["ping", "-c", "8", "-W", "1", ""]` |
| `ProbeCycle.PingSite` | Ping_time.py:51-94 | a probe failure ends the run with the log unchanged; a parse failure propagates with the log unchanged; a record is written exactly when the probe, the parse and the writes all succeed; the run ends in a probe error exactly when the probe fails, and in a write error exactly when the writes are interrupted after a successful parse, leaving only part of the record |
| `ProbeCycle.PartialAppend` | Ping_time.py:75-91 | an interrupted write leaves the old text followed by a leading part of the record |
| `ProbeCycle.RecordedRunAddsOneLine` | Ping_time.py:75-94 | a successful run adds one line, and that line reads back as the run's timestamp and rounded statistics |
| `ProbeCycle.FailedRunKeepsLog` | Ping_time.py:51-91 | a run whose probe fails or whose output does not parse records nothing and leaves the log exactly as it was |
| `ProbeCycle.ExampleParse` | Ping_time.py:52-65 | `rtt min/avg/max/mdev = 12.345/15.678/20.901/2.345 ms` followed by a line break, alone or as the last line of the output, reads as min 12.345, avg 15.678, max 20.901, mdev 2.345 |
| `ProbeCycle.ExampleRecord` | Ping_time.py:77-86 | those statistics at `2024-01-01T00:14:00` are written as `2024-01-01T00:14:00,15.678,12.345,20.901,2.345` |
| `ProbeCycle.ExampleRun` | Ping_time.py:52-87 | with that summary line and a line break ending the output, and timestamp `2024-01-01T00:14:00`, the run appends `\n2024-01-01T00:14:00,15.678,12.345,20.901,2.345` |

## Behaviour of the code worth noting

The model follows the code in each case.

- A summary line that cannot be read raises. Lines 59-65 sit outside any
  `try`, so the exception escapes `ping_site`, unlike the probe and write
  failures, which return `False`. A hardened version would return a typed
  parse failure. The model's outcome is `ParseRaised(error)`, and the log is
  left unchanged.
- A token with more than four `/`-parts is accepted. The extra parts are
  ignored (`ExtraPartsIgnored`); nothing checks that there are exactly four.
- A failed write can leave part of a record in the file. The writes are
  separate calls, and `return False` does not undo the ones that completed.
  `PingSite` states what the code guarantees: the old text, then a leading
  part of the record.
- "Only the last line matters" holds for a non-blank last line. `strip()`
  runs before the split at line breaks, so a whitespace-only last line is
  removed and the line before it is read instead. For the same reason the
  line break the probe ends its output with does no harm: trailing
  whitespace is stripped before the last line is taken.
- The configured address is blank, so the last argument of the command is
  the empty string (`ConfiguredCommand`).
- Every record starts with a line break. `ping_site` never writes a header;
  on an empty or absent file the first line is blank
  (`FirstRecordAfterBlankLine`). The plotting stage reads the columns
  `datetime`, `avg_ping`, `min_ping` and `max_ping` (lines 104-128), so it
  relies on a header line put into the file by other means.

## Left out

- Running the probe: `subprocess.check_output(cmd).decode()` (line 52) is the
  parameter `ProbeResult`. Spawn failures, a non-zero exit status and
  undecodable bytes are all `ProbeFailed`.
- The clock: `datetime.now().isoformat()` (lines 67, 78) is the parameter
  `now`. `ValidTimestamp` assumes it holds no comma and no line break, which
  is true of `isoformat()`.
- Opening and closing the file (lines 76, 87): the file is its text. A
  failing `open` is `WriteInterrupted(0)`. The ten writes go to the file
  object's buffer and normally reach the file only when `close` flushes it,
  so a failing `close` may leave any leading part of the record, including
  none. `WriteInterrupted(k)` covers every `k`, and buffering is not modelled
  further.
- The console messages (`print`, lines 43, 50, 54-55, 58, 69, 73, 89-90, 93):
  they have no effect on the result or the log.
- Python's return values: `False` for a failed probe or write, `None` for
  success. They are the `Outcome` constructors.
- Plotting (`write_plots`, lines 97-140): it is pandas, seaborn and
  matplotlib work on floats.
- The Airflow wiring (lines 28-37, 143-161): scheduling and retries belong to
  the external scheduler.
- No `min <= avg <= max` ordering is claimed: the code never checks it.
- Purity of parsing needs no lemma: every Dafny function is deterministic.
- `Decimals.ParseFloat`: accepts only unsigned decimal literals (digits with
  at most one point). Python's `float()` also accepts a sign, an exponent,
  `inf`/`nan`, underscores between digits, surrounding whitespace and
  non-ASCII digits. The probe never prints those in its summary, so such
  parts are rejected here as `NotAFloat`.
- `Decimals.Format3`: rounds the exact decimal value half-to-even. Python
  rounds the binary double nearest to that value. The two can differ on a
  decimal tie such as `0.0125`, whose double lies slightly off the tie.
  Binary floating point is not modelled.
- `Decimals.Thousandths`: the same rounding caveat as `Format3` applies.
- `Decimals.Format3Faithful`: "unchanged at three decimals" holds in Python
  only while the value survives `float()` exactly enough, that is for at
  most 15 significant digits (below 10^12 ms at three decimals).
- `PingLog.RecordRoundTrip`: the same 15-significant-digit bound applies to
  its "unchanged at three decimals" clauses.
- Overlapping runs: two runs of `ping_site` appending to the file at the
  same time could interleave their writes. `AppendAll` and `AppendAllLines`
  model runs one after another, as the hourly schedule runs them.
