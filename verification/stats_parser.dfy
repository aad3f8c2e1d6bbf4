/** Reading the probe's summary line (Ping_time.py:59-65). The cycle strips
    the probe's output, takes its last line, takes the fourth
    whitespace-separated token of that line (`12.345/15.678/20.901/2.345` in
    `rtt min/avg/max/mdev = 12.345/15.678/20.901/2.345 ms`), cuts it at `/`
    and reads the first four parts, in order, as min, avg, max and mdev.
    A missing token or part, or a part `float()` rejects, raises instead of
    producing any value. */
module StatsParser {
  import opened Wrappers
  import opened PyStr
  import opened Decimals

  /** The four round-trip statistics the probe reports, in milliseconds. */
  datatype Stats = Stats(minMs: Decimal, avgMs: Decimal, maxMs: Decimal, mdevMs: Decimal)

  /** The exception the parsing lines raise. */
  datatype ParseError =
    | NoStatsToken(tokens: seq<string>)       // `split()[3]`: the line has fewer than four tokens
    | MissingPart(index: nat, token: string)  // `timing[index]`: the token has too few `/`-parts
    | NotAFloat(part: string)                 // `float(part)` rejects the part

  /** `text.split("\n")[-1]`. */
  function LastLine(text: string): (r: string)
    ensures Avoids(r, At('\n'))
  {
    var lines := Split(text, '\n');
    lines[|lines| - 1]
  }

  /** `float(parts[i])`, raising when the part is missing or not a number. */
  function ReadStat(parts: seq<string>, i: nat, token: string): (r: Result<Decimal, ParseError>)
    ensures r.Success? <==> i < |parts| && ParseFloat(parts[i]).Some?
    ensures r.Success? ==> r.value == ParseFloat(parts[i]).value
  {
    if i >= |parts| then Failure(MissingPart(i, token))
    else match ParseFloat(parts[i])
      case None => Failure(NotAFloat(parts[i]))
      case Some(d) => Success(d)
  }

  /** The four parts of `min/avg/max/mdev` in order; parts past the fourth
      are never looked at. */
  function ParseStatsToken(token: string): (r: Result<Stats, ParseError>)
    ensures var parts := Split(token, '/');
      r.Success? <==> |parts| >= 4 && forall i :: 0 <= i < 4 ==> ParseFloat(parts[i]).Some?
    ensures var parts := Split(token, '/');
      r.Success? ==> |parts| >= 4 && r.value == Stats(ParseFloat(parts[0]).value, ParseFloat(parts[1]).value,
                                                     ParseFloat(parts[2]).value, ParseFloat(parts[3]).value)
  {
    var parts := Split(token, '/');
    var minMs :- ReadStat(parts, 0, token);
    var avgMs :- ReadStat(parts, 1, token);
    var maxMs :- ReadStat(parts, 2, token);
    var mdevMs :- ReadStat(parts, 3, token);
    Success(Stats(minMs, avgMs, maxMs, mdevMs))
  }

  /** `line.split()[3].split('/')` read as statistics. */
  function ParseSummaryLine(line: string): (r: Result<Stats, ParseError>)
    ensures r == Failure(NoStatsToken(Tokens(line))) <==> |Tokens(line)| < 4
    ensures |Tokens(line)| >= 4 ==> r == ParseStatsToken(Tokens(line)[3])
  {
    var tokens := Tokens(line);
    if |tokens| < 4 then Failure(NoStatsToken(tokens)) else ParseStatsToken(tokens[3])
  }

  /** Everything between `check_output(...).decode()` and the four `float`
      calls: strip, last line, fourth token, four parts. */
  function ParseProbeOutput(output: string): (r: Result<Stats, ParseError>)
    ensures Avoids(output, At('\n')) ==> r == ParseSummaryLine(output)
  {
    assert Avoids(output, At('\n')) ==>
             ParseSummaryLine(LastLine(Strip(output))) == ParseSummaryLine(output) by {
      if Avoids(output, At('\n')) {
        StripKeepsNoBreak(output);
        LastLineSingle(Strip(output));
        TokensStrip(output);
      }
    }
    ParseSummaryLine(LastLine(Strip(output)))
  }

  /** Each statistic rounded to thousandths, the precision the probe prints
      and the log stores. */
  function Rounded(s: Stats): Stats {
    Stats(Decimal(Thousandths(s.minMs), 3), Decimal(Thousandths(s.avgMs), 3),
          Decimal(Thousandths(s.maxMs), 3), Decimal(Thousandths(s.mdevMs), 3))
  }

  /** The statistics token the probe prints, each value with three
      decimals. */
  function SummaryToken(s: Stats): string {
    Format3(s.minMs) + "/" + Format3(s.avgMs) + "/" + Format3(s.maxMs) + "/" + Format3(s.mdevMs)
  }

  /** The probe's summary line for `s`. */
  function SummaryLine(s: Stats): string {
    "rtt min/avg/max/mdev = " + SummaryToken(s) + " ms"
  }

  // ---------------------------------------------------------------------
  // Lemmas

  /** A text without line breaks is its own last line. */
  lemma LastLineSingle(line: string)
    requires Avoids(line, At('\n'))
    ensures LastLine(line) == line
  {
    SplitOnNone(line, At('\n'));
  }

  /** The last line is what follows the last line break. */
  lemma LastLineAfterBreak(earlier: string, line: string)
    requires Avoids(line, At('\n'))
    ensures LastLine(earlier + "\n" + line) == line
  {
    SplitOnAppend(earlier, '\n', line, At('\n'));
    SplitOnNone(line, At('\n'));
  }

  /** Output that is one line, followed by any whitespace (the probe ends
      its output with a line break), reads as that line. */
  lemma SingleLineOutput(line: string, trailing: string)
    requires Avoids(line, At('\n')) && AllWhite(trailing)
    ensures ParseProbeOutput(line + trailing) == ParseSummaryLine(line)
  {
    StripTrailingWhite(line, trailing);
    assert ParseProbeOutput(line + trailing) == ParseSummaryLine(LastLine(Strip(line)));
    assert ParseProbeOutput(line) == ParseSummaryLine(line);
  }

  /** Only the last line of the output decides the statistics: whatever comes
      before the final line break, and whatever whitespace follows the line
      (the probe ends its output with a line break), the result is the
      summary line's. The line must hold a non-whitespace character, since
      `strip()` would otherwise remove it and expose the line before. */
  lemma OnlyLastLineMatters(earlier: string, line: string, trailing: string)
    requires Avoids(line, At('\n')) && !AllWhite(line) && AllWhite(trailing)
    ensures ParseProbeOutput(earlier + "\n" + line + trailing) == ParseSummaryLine(line)
  {
    StripTrailingWhite(earlier + "\n" + line, trailing);
    if AllWhite(earlier) {
      LastLineAfterBlank(earlier, line);
      TokensStrip(line);
    } else {
      LastLineAfterText(earlier, line);
      TokensRStrip(line);
    }
  }

  /** Changing the lines before a non-blank last line never changes what is
      read. */
  lemma EarlierLinesIgnored(earlier: string, other: string, line: string, trailing: string)
    requires Avoids(line, At('\n')) && !AllWhite(line) && AllWhite(trailing)
    ensures ParseProbeOutput(earlier + "\n" + line + trailing)
              == ParseProbeOutput(other + "\n" + line + trailing)
  {
    OnlyLastLineMatters(earlier, line, trailing);
    OnlyLastLineMatters(other, line, trailing);
  }

  /** When nothing but whitespace precedes the last line, stripping leaves
      that line alone, stripped. */
  lemma LastLineAfterBlank(earlier: string, line: string)
    requires Avoids(line, At('\n')) && AllWhite(earlier)
    ensures LastLine(Strip(earlier + "\n" + line)) == Strip(line)
  {
    var white := earlier + "\n";
    assert AllWhite(white) by {
      forall i | 0 <= i < |white| ensures IsSpace(white[i]) {
        if i < |earlier| { assert white[i] == earlier[i]; }
      }
    }
    LStripWhitePrefix(white, line);
    assert Strip(earlier + "\n" + line) == Strip(line);
    StripKeepsNoBreak(line);
    LastLineSingle(Strip(line));
  }

  lemma StripKeepsNoBreak(line: string)
    requires Avoids(line, At('\n'))
    ensures Avoids(Strip(line), At('\n'))
  {
    var i :| SliceBetweenWhite(line, i, Strip(line));
    forall k | 0 <= k < |Strip(line)| ensures Strip(line)[k] != '\n' {
      assert Strip(line)[k] == line[i + k];
    }
  }

  /** When text precedes the last line, stripping only trims the end of that
      line. */
  lemma LastLineAfterText(earlier: string, line: string)
    requires Avoids(line, At('\n')) && !AllWhite(line) && !AllWhite(earlier)
    ensures LastLine(Strip(earlier + "\n" + line)) == RStrip(line)
  {
    var text := earlier + "\n" + line;
    LStripConcat(earlier, "\n" + line);
    assert text == earlier + ("\n" + line);
    var kept := LStrip(earlier) + "\n";
    assert LStrip(text) == kept + line;
    RStripConcat(kept, line);
    assert Strip(text) == LStrip(earlier) + "\n" + RStrip(line);
    assert Avoids(RStrip(line), At('\n')) by {
      forall k | 0 <= k < |RStrip(line)| ensures RStrip(line)[k] != '\n' {
        assert RStrip(line)[k] == line[k];
      }
    }
    LastLineAfterBreak(LStrip(earlier), RStrip(line));
  }

  /** Parts after the fourth `/`-part of the token are ignored. */
  lemma ExtraPartsIgnored(token: string, rest: string)
    requires |Split(token, '/')| >= 4
    ensures ParseStatsToken(token + "/" + rest) == ParseStatsToken(token)
  {
    SplitOnAppend(token, '/', rest, At('/'));
    var parts := Split(token, '/');
    var longer := Split(token + "/" + rest, '/');
    assert longer == parts + Split(rest, '/');
    assert longer[..4] == parts[..4];
  }

  /** The parts are read positionally: the first is min, the second avg, the
      third max and the fourth mdev. */
  lemma PartsInOrder(token: string, a: string, b: string, c: string, d: string,
                     lo: Decimal, mean: Decimal, hi: Decimal, dev: Decimal)
    requires Split(token, '/') == [a, b, c, d]
    requires ParseFloat(a) == Some(lo) && ParseFloat(b) == Some(mean)
    requires ParseFloat(c) == Some(hi) && ParseFloat(d) == Some(dev)
    ensures ParseStatsToken(token) == Success(Stats(lo, mean, hi, dev))
  {
  }

  lemma SummaryTokenParts(s: Stats)
    ensures Split(SummaryToken(s), '/')
              == [Format3(s.minMs), Format3(s.avgMs), Format3(s.maxMs), Format3(s.mdevMs)]
  {
    var a, b, c, d := Format3(s.minMs), Format3(s.avgMs), Format3(s.maxMs), Format3(s.mdevMs);
    Format3Avoids(s.minMs, '/');
    Format3Avoids(s.avgMs, '/');
    Format3Avoids(s.maxMs, '/');
    Format3Avoids(s.mdevMs, '/');
    assert SummaryToken(s) == a + ['/'] + b + ['/'] + c + ['/'] + d;
    SplitFour(a, b, c, d, '/');
  }

  /** The parser reads back the token the probe prints: each statistic, in
      its place, at the three decimals printed. */
  lemma SummaryTokenRoundTrip(s: Stats)
    ensures ParseStatsToken(SummaryToken(s)) == Success(Rounded(s))
  {
    SummaryTokenParts(s);
    Format3RoundTrip(s.minMs);
    Format3RoundTrip(s.avgMs);
    Format3RoundTrip(s.maxMs);
    Format3RoundTrip(s.mdevMs);
    PartsInOrder(SummaryToken(s), Format3(s.minMs), Format3(s.avgMs), Format3(s.maxMs), Format3(s.mdevMs),
                 Rounded(s).minMs, Rounded(s).avgMs, Rounded(s).maxMs, Rounded(s).mdevMs);
  }

  lemma SummaryTokenNoSpace(s: Stats)
    ensures Avoids(SummaryToken(s), AnySpace) && SummaryToken(s) != ""
  {
    var a, b, c, d := Format3(s.minMs), Format3(s.avgMs), Format3(s.maxMs), Format3(s.mdevMs);
    Format3NoSpace(s.minMs);
    Format3NoSpace(s.avgMs);
    Format3NoSpace(s.maxMs);
    Format3NoSpace(s.mdevMs);
    var slash := "/";
    assert Avoids(slash, AnySpace);
    ConcatAvoids(a, slash, AnySpace);
    ConcatAvoids(a + slash, b, AnySpace);
    ConcatAvoids(a + slash + b, slash, AnySpace);
    ConcatAvoids(a + slash + b + slash, c, AnySpace);
    ConcatAvoids(a + slash + b + slash + c, slash, AnySpace);
    ConcatAvoids(a + slash + b + slash + c + slash, d, AnySpace);
  }

  function SummaryWords(s: Stats): seq<string> {
    ["rtt", "min/avg/max/mdev", "=", SummaryToken(s), "ms"]
  }

  lemma SummaryLineWords(s: Stats)
    ensures SummaryLine(s) == Join(SummaryWords(s), ' ')
    ensures forall i :: 0 <= i < 5 ==> SummaryWords(s)[i] != "" && Avoids(SummaryWords(s)[i], AnySpace)
  {
    SummaryLineJoin(s);
    SummaryTokenNoSpace(s);
    FixedWordsPlain();
  }

  lemma SummaryLineJoin(s: Stats)
    ensures SummaryLine(s) == Join(SummaryWords(s), ' ')
  {
    LineAroundToken(SummaryToken(s));
  }

  /** The summary line is its five words joined by single spaces. */
  lemma LineAroundToken(t: string)
    ensures "rtt min/avg/max/mdev = " + t + " ms" == Join(["rtt", "min/avg/max/mdev", "=", t, "ms"], ' ')
  {
    JoinFive("rtt", "min/avg/max/mdev", "=", t, "ms", ' ');
    assert "rtt min/avg/max/mdev = " == "rtt" + [' '] + "min/avg/max/mdev" + [' '] + "=" + [' '];
  }

  lemma FixedWordsPlain()
    ensures Avoids("rtt", AnySpace) && Avoids("min/avg/max/mdev", AnySpace)
    ensures Avoids("=", AnySpace) && Avoids("ms", AnySpace)
  {
  }

  /** The parser reads back the summary line the probe prints. */
  lemma SummaryLineRoundTrip(s: Stats)
    ensures ParseSummaryLine(SummaryLine(s)) == Success(Rounded(s))
  {
    SummaryLineWords(s);
    SplitOnJoin(SummaryWords(s), ' ', AnySpace);
    NonEmptyKeepsAll(SummaryWords(s));
    SummaryTokenRoundTrip(s);
  }

  /** Whatever the probe printed before it, and whatever whitespace ends
      the output, a summary line as the last line of the output, or as the
      whole output, reads back as its statistics at three decimals. */
  lemma ProbeOutputRoundTrip(earlier: string, s: Stats, trailing: string)
    requires AllWhite(trailing)
    ensures ParseProbeOutput(earlier + "\n" + SummaryLine(s) + trailing) == Success(Rounded(s))
    ensures ParseProbeOutput(SummaryLine(s) + trailing) == Success(Rounded(s))
  {
    SummaryLineWords(s);
    var w := SummaryWords(s);
    forall i | 0 <= i < |w| ensures Avoids(w[i], At('\n')) {
      NoSpaceNoBreak(w[i]);
    }
    JoinAvoids(w, ' ', At('\n'));
    assert SummaryLine(s)[0] == 'r';
    OnlyLastLineMatters(earlier, SummaryLine(s), trailing);
    SingleLineOutput(SummaryLine(s), trailing);
    SummaryLineRoundTrip(s);
  }

  /** A summary line with fewer than four tokens raises, and no statistics
      come out. */
  lemma TooFewTokensFails(line: string)
    requires |Tokens(line)| < 4
    ensures ParseSummaryLine(line) == Failure(NoStatsToken(Tokens(line)))
  {
  }

  /** A statistics token with fewer than four `/`-parts raises `IndexError`
      at the first missing part (when the parts before it are numbers), and
      no statistics come out. */
  lemma TooFewPartsFails(line: string)
    requires |Tokens(line)| >= 4 && |Split(Tokens(line)[3], '/')| < 4
    requires forall i :: 0 <= i < |Split(Tokens(line)[3], '/')| ==> ParseFloat(Split(Tokens(line)[3], '/')[i]).Some?
    ensures var token := Tokens(line)[3];
      ParseSummaryLine(line) == Failure(MissingPart(|Split(token, '/')|, token))
  {
  }

  /** Empty probe output raises at the token lookup. */
  lemma EmptyOutputFails()
    ensures ParseProbeOutput("") == Failure(NoStatsToken([]))
  {
    assert LStrip("") == "";
    assert Strip("") == "";
    assert LastLine("") == "";
    assert Tokens("") == [];
  }
}
