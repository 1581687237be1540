/**
  The `helios` command: it asks the external `heliocron` tool for a solar
  report on one date and place, and pulls the sunrise and sunset times out of
  the report's text.

  The child process is an input here: `source` maps the argument list that
  `heliocron` is started with to what the finished child left behind (its exit
  status, standard output and standard error).
 */
module Helios {
  import opened Wrappers
  import opened RustStr

  // ---------------------------------------------------------------------------
  // Query and the default substitution in `main`

  /** One query: the four strings handed to `heliocron`. */
  datatype Query = Query(date: string, timezone: string, latitude: string, longitude: string)

  /** The optional command-line values `main` reads (`--date`, `--latitude`, `--longitude`, `--time-zone`). */
  datatype Options = Options(date: Option<string>, latitude: Option<string>,
                             longitude: Option<string>, timeZone: Option<string>)

  const DefaultDate := "2022-01-24"
  const DefaultLatitude := "40.7128N"
  const DefaultLongitude := "74.0060W"
  const DefaultTimeZone := "-05:00"

  function OrDefault(o: Option<string>, default: string): string {
    match o
    case None => default
    case Some(v) => v
  }

  /** The four `match`es in `main`: each absent option takes its fixed default, each given one is kept. */
  function Resolve(opts: Options): (q: Query)
    ensures opts.date.Some? ==> q.date == opts.date.value
    ensures opts.date.None? ==> q.date == DefaultDate
    ensures opts.latitude.Some? ==> q.latitude == opts.latitude.value
    ensures opts.latitude.None? ==> q.latitude == DefaultLatitude
    ensures opts.longitude.Some? ==> q.longitude == opts.longitude.value
    ensures opts.longitude.None? ==> q.longitude == DefaultLongitude
    ensures opts.timeZone.Some? ==> q.timezone == opts.timeZone.value
    ensures opts.timeZone.None? ==> q.timezone == DefaultTimeZone
  {
    Query(OrDefault(opts.date, DefaultDate), OrDefault(opts.timeZone, DefaultTimeZone),
          OrDefault(opts.latitude, DefaultLatitude), OrDefault(opts.longitude, DefaultLongitude))
  }

  /** The options that spell out a query in full. */
  function Given(q: Query): Options {
    Options(Some(q.date), Some(q.latitude), Some(q.longitude), Some(q.timezone))
  }

  /** Supplied values pass through unchanged. */
  lemma ResolveGiven(q: Query)
    ensures Resolve(Given(q)) == q
  {
  }

  /** With no option at all, the query is New York City on 2022-01-24 at UTC-05:00. */
  lemma ResolveNothing()
    ensures Resolve(Options(None, None, None, None))
         == Query("2022-01-24", "-05:00", "40.7128N", "74.0060W")
  {
  }

  // ---------------------------------------------------------------------------
  // The argument list

  /**
    The argument list `heliocron` is started with: four flag/value pairs, then
    `report`. It reads back as exactly the query it was built from.
   */
  function HeliocronArgs(q: Query): (args: seq<string>)
    ensures QueryOfArgs(args) == Some(q)
  {
    ["--date", q.date, "--latitude", q.latitude, "--longitude", q.longitude,
     "--time-zone", q.timezone, "report"]
  }

  /** How the receiving side reads such an argument list: the fixed shape, or nothing. */
  function QueryOfArgs(args: seq<string>): Option<Query> {
    if |args| == 9 && args[0] == "--date" && args[2] == "--latitude"
       && args[4] == "--longitude" && args[6] == "--time-zone" && args[8] == "report"
    then Some(Query(args[1], args[7], args[3], args[5]))
    else None
  }

  /**
    The argument list carries the query whole and in the fixed order, with
    `report` last: reading it back gives the query, and the only argument
    list that reads back as a query is the one built for it.
   */
  lemma ArgsRoundTrip(q: Query, args: seq<string>)
    ensures QueryOfArgs(HeliocronArgs(q)) == Some(q)
    ensures QueryOfArgs(args) == Some(q) ==> args == HeliocronArgs(q)
  {
  }

  // ---------------------------------------------------------------------------
  // Scanning the report

  const SunrisePrefix := "Sunrise is at:"
  const SunsetPrefix := "Sunset is at:"
  /** Position of the time among the tokens of `Sunrise is at:  <date> <time> <offset>`. */
  const TimeIndex := 4

  /** The `(sunrise, sunset)` pair; both start out empty. */
  datatype Times = Times(sunrise: string, sunset: string)
  const NoTimes := Times("", "")

  /**
    What the routine ends with: the pair, or the panic that indexing a line
    with fewer than five tokens raises, with the index of that stdout line.
   */
  datatype Outcome = Done(times: Times) | Panicked(line: nat)

  /** What the finished child process leaves behind. */
  datatype ChildOutput = ChildOutput(success: bool, stdout: string, stderr: string)

  /**
    The `extract_time` closure: the fifth whitespace-separated token of the
    line; `None` stands for the out-of-bounds panic of `vec[4]`.
   */
  function ExtractTime(line: string): (r: Option<string>)
    ensures r.Some? <==> |SplitWhitespace(line)| > TimeIndex
    ensures r.Some? ==> IsToken(r.value)
  {
    var vec := SplitWhitespace(line);
    if |vec| > TimeIndex then Some(vec[TimeIndex]) else None
  }

  /** A line the loop would panic on: it carries a prefix but too few tokens. */
  predicate Malformed(line: string) {
    (StartsWith(line, SunrisePrefix) || StartsWith(line, SunsetPrefix)) && ExtractTime(line).None?
  }

  /** The body of the `for line in lines` loop: the sunrise test, then the sunset test. */
  function ScanLine(t: Times, line: string): (r: Option<Times>)
    ensures r.None? <==> Malformed(line)
  {
    var afterSunrise :=
      if !StartsWith(line, SunrisePrefix) then Some(t)
      else match ExtractTime(line)
        case None => None
        case Some(v) => Some(t.(sunrise := v));
    match afterSunrise
    case None => None
    case Some(t1) =>
      if !StartsWith(line, SunsetPrefix) then Some(t1)
      else match ExtractTime(line)
        case None => None
        case Some(v) => Some(t1.(sunset := v))
  }

  /** The loop over all lines, from the empty pair; it stops at the first panic. */
  function Scan(lines: seq<string>): (r: Outcome)
    ensures r.Panicked? ==> r.line < |lines| && Malformed(lines[r.line])
    decreases |lines|
  {
    if lines == [] then Done(NoTimes)
    else
      match Scan(lines[..|lines| - 1])
      case Panicked(k) => Panicked(k)
      case Done(t) =>
        match ScanLine(t, lines[|lines| - 1])
        case None => Panicked(|lines| - 1)
        case Some(t') => Done(t')
  }

  /** `invoke_heliocron_report` on a given child output: only a successful child's stdout is read. */
  function Report(child: ChildOutput): (r: Outcome)
    ensures !child.success ==> r == Done(NoTimes)
    ensures r.Panicked? ==>
      child.success && r.line < |Lines(child.stdout)| && Malformed(Lines(child.stdout)[r.line])
  {
    if child.success then Scan(Lines(child.stdout)) else Done(NoTimes)
  }

  /**
    `invoke_heliocron_report`: starts `heliocron` with the argument list for
    the query, then either scans its stdout line by line or, when it failed,
    hands its stderr on (`surfaced`) and keeps the empty pair.
   */
  method InvokeHeliocronReport(date: string, timezone: string, latitude: string, longitude: string,
                               source: seq<string> -> ChildOutput)
    returns (result: Outcome, surfaced: string)
    ensures var child := source(HeliocronArgs(Query(date, timezone, latitude, longitude)));
            result == Report(child) && surfaced == (if child.success then "" else child.stderr)
  {
    var sunriseSunset := NoTimes;
    var report := source(HeliocronArgs(Query(date, timezone, latitude, longitude)));
    surfaced := "";
    if report.success {
      var lines := Lines(report.stdout);
      for i := 0 to |lines|
        invariant Scan(lines[..i]) == Done(sunriseSunset)
      {
        var line := lines[i];
        ghost var before := sunriseSunset;
        ScanPrefixStep(lines, i);
        if StartsWith(line, SunrisePrefix) {
          var time := ExtractTime(line);
          if time.None? {
            ScanPanicPersists(lines, i + 1);
            return Panicked(i), surfaced;
          }
          sunriseSunset := sunriseSunset.(sunrise := time.value);
        }
        if StartsWith(line, SunsetPrefix) {
          var time := ExtractTime(line);
          if time.None? {
            ScanPanicPersists(lines, i + 1);
            return Panicked(i), surfaced;
          }
          sunriseSunset := sunriseSunset.(sunset := time.value);
        }
        assert ScanLine(before, line) == Some(sunriseSunset);
      }
      assert lines[..|lines|] == lines;
    } else {
      surfaced := report.stderr;
    }
    result := Done(sunriseSunset);
  }

  /** The scan of the first `i + 1` lines is the scan of the first `i`, then one loop step on line `i`. */
  lemma ScanPrefixStep(lines: seq<string>, i: nat)
    requires i < |lines|
    ensures Scan(lines[..i + 1]) == match Scan(lines[..i])
              case Panicked(k) => Panicked(k)
              case Done(t) => (if ScanLine(t, lines[i]).None? then Panicked(i)
                               else Done(ScanLine(t, lines[i]).value))
  {
    ScanSnoc(lines[..i + 1]);
    assert lines[..i + 1][..i] == lines[..i] && lines[..i + 1][i] == lines[i];
  }

  /** Once the loop has panicked on some line, no later line changes the outcome. */
  lemma {:induction false} ScanPanicPersists(lines: seq<string>, n: nat)
    requires n <= |lines| && Scan(lines[..n]).Panicked?
    ensures Scan(lines) == Scan(lines[..n])
    decreases |lines| - n
  {
    if n < |lines| {
      ScanPrefixStep(lines, n);
      ScanPanicPersists(lines, n + 1);
    } else {
      assert lines[..n] == lines;
    }
  }

  // ---------------------------------------------------------------------------
  // What the scan computes

  /** Index of the last line that starts with `prefix`, or -1 when none does. */
  function LastMatch(lines: seq<string>, prefix: string): (k: int)
    ensures -1 <= k < |lines|
    ensures k >= 0 ==> StartsWith(lines[k], prefix)
    ensures forall j :: k < j < |lines| ==> !StartsWith(lines[j], prefix)
    decreases |lines|
  {
    if lines == [] then -1
    else if StartsWith(lines[|lines| - 1], prefix) then |lines| - 1
    else LastMatch(lines[..|lines| - 1], prefix)
  }

  /**
    The time on the last line that starts with `prefix`, or "" when there is
    no such line. It is only used for reports with no malformed line, where
    that last line always has a time; the `None` case below is then never taken.
   */
  function FieldValue(lines: seq<string>, prefix: string): string {
    var k := LastMatch(lines, prefix);
    if k < 0 then ""
    else match ExtractTime(lines[k])
      case Some(v) => v
      case None => ""
  }

  /** One step of the loop sets only the field whose prefix the line carries, to the line's time. */
  lemma ScanLineEffect(t: Times, line: string)
    requires !Malformed(line)
    ensures ScanLine(t, line).value.sunrise
              == (if StartsWith(line, SunrisePrefix) then ExtractTime(line).value else t.sunrise)
    ensures ScanLine(t, line).value.sunset
              == (if StartsWith(line, SunsetPrefix) then ExtractTime(line).value else t.sunset)
  {
  }

  /** Adding a line at the end: the field's value moves to that line exactly when it carries the prefix. */
  lemma {:induction false} FieldValueSnoc(lines: seq<string>, prefix: string)
    requires lines != []
    ensures var init, last := lines[..|lines| - 1], lines[|lines| - 1];
            FieldValue(lines, prefix)
              == if StartsWith(last, prefix)
                 then (match ExtractTime(last) case Some(v) => v case None => "")
                 else FieldValue(init, prefix)
  {
  }

  /** Scanning one more line: the outcome so far, then one step of the loop. */
  lemma ScanSnoc(lines: seq<string>)
    requires lines != []
    ensures var init, last := lines[..|lines| - 1], lines[|lines| - 1];
            Scan(lines) == match Scan(init)
              case Panicked(k) => Panicked(k)
              case Done(t) => (if ScanLine(t, last).None? then Panicked(|lines| - 1)
                               else Done(ScanLine(t, last).value))
  {
  }

  /** One more line keeps the scan complete exactly when the scan so far completed and that line is well formed. */
  lemma ScanDoneStep(lines: seq<string>)
    requires lines != []
    ensures Scan(lines).Done? <==> Scan(lines[..|lines| - 1]).Done? && !Malformed(lines[|lines| - 1])
  {
    ScanSnoc(lines);
  }

  /** The scan completes exactly when no line is malformed. */
  lemma {:induction false} ScanCompletes(lines: seq<string>)
    ensures Scan(lines).Done? <==> forall j :: 0 <= j < |lines| ==> !Malformed(lines[j])
    decreases |lines|
  {
    if lines != [] {
      var init := lines[..|lines| - 1];
      ScanCompletes(init);
      ScanDoneStep(lines);
      assert forall j :: 0 <= j < |init| ==> init[j] == lines[j];
    }
  }

  /**
    The scan completes exactly when no line is malformed, and then each field
    holds the time from the LAST line carrying its prefix, or "" when no line
    carries it. The two fields do not depend on each other's lines.
   */
  lemma {:induction false} ScanIsLastMatch(lines: seq<string>)
    ensures Scan(lines).Done? <==> forall j :: 0 <= j < |lines| ==> !Malformed(lines[j])
    ensures Scan(lines).Done? ==>
      Scan(lines).times == Times(FieldValue(lines, SunrisePrefix), FieldValue(lines, SunsetPrefix))
    decreases |lines|
  {
    ScanCompletes(lines);
    if lines != [] && Scan(lines).Done? {
      var init, last := lines[..|lines| - 1], lines[|lines| - 1];
      ScanSnoc(lines);
      ScanIsLastMatch(init);
      var t := Scan(init).times;
      ScanLineEffect(t, last);
      FieldValueSnoc(lines, SunrisePrefix);
      FieldValueSnoc(lines, SunsetPrefix);
      assert Scan(lines) == Done(ScanLine(t, last).value);
    }
  }

  /** When the scan panics, it does so on the FIRST malformed line. */
  lemma {:induction false} ScanPanicsAtFirstMalformed(lines: seq<string>)
    ensures Scan(lines).Panicked? ==>
      Scan(lines).line < |lines| && Malformed(lines[Scan(lines).line])
      && forall j :: 0 <= j < Scan(lines).line ==> !Malformed(lines[j])
    decreases |lines|
  {
    if lines != [] {
      var init, last := lines[..|lines| - 1], lines[|lines| - 1];
      ScanPanicsAtFirstMalformed(init);
      ScanIsLastMatch(init);
      assert forall j :: 0 <= j < |init| ==> init[j] == lines[j];
      match Scan(init)
      case Panicked(_) =>
      case Done(t) =>
    }
  }

  /** Without a "Sunrise is at:" line the sunrise stays "", whatever the sunset lines say. */
  lemma NoSunriseLine(lines: seq<string>)
    requires forall j :: 0 <= j < |lines| ==> !StartsWith(lines[j], SunrisePrefix)
    ensures Scan(lines).Done? ==> Scan(lines).times.sunrise == ""
  {
  }

  /** Without a "Sunset is at:" line the sunset stays "", whatever the sunrise lines say. */
  lemma NoSunsetLine(lines: seq<string>)
    requires forall j :: 0 <= j < |lines| ==> !StartsWith(lines[j], SunsetPrefix)
    ensures Scan(lines).Done? ==> Scan(lines).times.sunset == ""
  {
  }

  /** No line carries both prefixes, so a line updates at most one field. */
  lemma PrefixesExclusive(line: string)
    ensures !(StartsWith(line, SunrisePrefix) && StartsWith(line, SunsetPrefix))
  {
    if StartsWith(line, SunrisePrefix) {
      assert line[3] == SunrisePrefix[3] == 'r';
      assert SunsetPrefix[3] == 's';
    }
  }

  /** A line carrying neither prefix changes nothing. */
  lemma IgnoredLine(lines: seq<string>, line: string)
    requires !StartsWith(line, SunrisePrefix) && !StartsWith(line, SunsetPrefix)
    ensures Scan(lines + [line]) == Scan(lines)
  {
  }

  /** A well-formed sunrise line overwrites the sunrise seen so far and leaves the sunset alone. */
  lemma LaterSunriseWins(lines: seq<string>, line: string)
    requires StartsWith(line, SunrisePrefix) && ExtractTime(line).Some?
    requires Scan(lines).Done?
    ensures Scan(lines + [line]) == Done(Scan(lines).times.(sunrise := ExtractTime(line).value))
  {
    assert (lines + [line])[..|lines|] == lines;
    PrefixesExclusive(line);
  }

  /** A well-formed sunset line overwrites the sunset seen so far and leaves the sunrise alone. */
  lemma LaterSunsetWins(lines: seq<string>, line: string)
    requires StartsWith(line, SunsetPrefix) && ExtractTime(line).Some?
    requires Scan(lines).Done?
    ensures Scan(lines + [line]) == Done(Scan(lines).times.(sunset := ExtractTime(line).value))
  {
    assert (lines + [line])[..|lines|] == lines;
    PrefixesExclusive(line);
  }

  /** A failed child yields the empty pair, whatever its stdout holds: no line is read. */
  lemma FailureGivesEmpty(stdout: string, stderr: string)
    ensures Report(ChildOutput(false, stdout, stderr)) == Done(NoTimes)
  {
  }

  // ---------------------------------------------------------------------------
  // Whitespace-run tolerance

  /**
    The time taken from a line depends only on its tokens: whatever whitespace
    runs separate them, it is the fifth token, the same as for the
    single-spaced line, and a line with fewer than five tokens panics either way.
   */
  lemma WhitespaceRunTolerance(ts: seq<string>, gaps: seq<string>)
    requires |gaps| == |ts| && ValidGaps(gaps)
    requires forall i :: 0 <= i < |ts| ==> IsToken(ts[i])
    ensures ExtractTime(Spaced(ts, gaps)) == ExtractTime(Spaced(ts, SingleGaps(|ts|)))
    ensures ExtractTime(Spaced(ts, gaps)) == if |ts| > TimeIndex then Some(ts[TimeIndex]) else None
  {
    SplitSpaced("", ts, gaps);
    SplitSpaced("", ts, SingleGaps(|ts|));
    assert "" + Spaced(ts, gaps) == Spaced(ts, gaps);
    assert "" + Spaced(ts, SingleGaps(|ts|)) == Spaced(ts, SingleGaps(|ts|));
  }

  /** Two lines that agree on both prefix tests and on their tokens. */
  predicate SameReading(a: string, b: string) {
    StartsWith(a, SunrisePrefix) == StartsWith(b, SunrisePrefix)
    && StartsWith(a, SunsetPrefix) == StartsWith(b, SunsetPrefix)
    && SplitWhitespace(a) == SplitWhitespace(b)
  }

  /** Re-spacing the lines of a report (keeping their prefixes) does not change what is extracted. */
  lemma {:induction false} ScanRespaced(a: seq<string>, b: seq<string>)
    requires |a| == |b|
    requires forall i :: 0 <= i < |a| ==> SameReading(a[i], b[i])
    ensures Scan(a) == Scan(b)
    decreases |a|
  {
    if a != [] {
      var n := |a| - 1;
      assert forall i :: 0 <= i < n ==> a[..n][i] == a[i] && b[..n][i] == b[i];
      ScanRespaced(a[..n], b[..n]);
      assert SameReading(a[n], b[n]);
    }
  }

  /**
    A report line as `heliocron` lays it out: `<event> is at:`, then a date, a
    time and a UTC offset, with a whitespace run after the colon and after
    each of them (the last one may be empty).
   */
  function ReportLine(event: string, gaps: seq<string>, date: string, time: string, offset: string): string
    requires |gaps| == 4
  {
    event + " is at:" + gaps[0] + date + gaps[1] + time + gaps[2] + offset + gaps[3]
  }

  /** The date, time and offset part of a report line, as laid out tokens. */
  lemma ReportLineFields(gaps: seq<string>, date: string, time: string, offset: string)
    requires |gaps| == 4
    ensures Spaced([date, time, offset], gaps[1..]) == date + gaps[1] + time + gaps[2] + offset + gaps[3]
  {
    SpacedCons(offset, gaps[3], [], []);
    SpacedCons(time, gaps[2], [offset], [gaps[3]]);
    assert [gaps[2], gaps[3]] == gaps[2..];
    SpacedCons(date, gaps[1], [time, offset], gaps[2..]);
    assert [gaps[1]] + gaps[2..] == gaps[1..];
  }

  /** Such a line is the six tokens `event`, `is`, `at:`, date, time, offset laid out with these gaps. */
  lemma {:induction false} ReportLineLayout(event: string, gaps: seq<string>, date: string, time: string, offset: string)
    requires |gaps| == 4
    ensures ReportLine(event, gaps, date, time, offset)
         == Spaced([event, "is", "at:", date, time, offset], [" ", " "] + gaps)
  {
    var fields := Spaced([date, time, offset], gaps[1..]);
    ReportLineFields(gaps, date, time, offset);
    var all := Spaced([event, "is", "at:", date, time, offset], [" ", " "] + gaps);
    assert all == event + " " + "is" + " " + "at:" + gaps[0] + fields by {
      SpacedCons("at:", gaps[0], [date, time, offset], gaps[1..]);
      assert [gaps[0]] + gaps[1..] == gaps;
      assert ["at:"] + [date, time, offset] == ["at:", date, time, offset];
      SpacedCons("is", " ", ["at:", date, time, offset], gaps);
      assert ["is"] + ["at:", date, time, offset] == ["is", "at:", date, time, offset];
      SpacedCons(event, " ", ["is", "at:", date, time, offset], [" "] + gaps);
      assert [event] + ["is", "at:", date, time, offset] == [event, "is", "at:", date, time, offset];
      assert [" "] + ([" "] + gaps) == [" ", " "] + gaps;
    }
    assert " is at:" == " " + "is" + " " + "at:";
  }

  /**
    The time of any report line is the one extracted: whatever the event word,
    whatever non-empty whitespace runs separate the fields, `extract_time`
    returns the third field after the colon, and the line carries the
    `<event> is at:` prefix.
   */
  lemma ReportLineTime(event: string, gaps: seq<string>, date: string, time: string, offset: string)
    requires |gaps| == 4 && ValidGaps(gaps)
    requires IsToken(event) && IsToken(date) && IsToken(time) && IsToken(offset)
    ensures StartsWith(ReportLine(event, gaps, date, time, offset), event + " is at:")
    ensures ExtractTime(ReportLine(event, gaps, date, time, offset)) == Some(time)
  {
    ReportLinePrefix(event, gaps, date, time, offset);
    var line := ReportLine(event, gaps, date, time, offset);
    var ts, allGaps := [event, "is", "at:", date, time, offset], [" ", " "] + gaps;
    ReportLineLayout(event, gaps, date, time, offset);
    assert ValidGaps(allGaps) by {
      assert AllWhitespace(" ");
      assert forall i :: 2 <= i < 6 ==> allGaps[i] == gaps[i - 2];
    }
    assert forall i :: 0 <= i < |ts| ==> IsToken(ts[i]) by {
      assert IsToken("is") && IsToken("at:");
    }
    WhitespaceRunTolerance(ts, allGaps);
  }

  lemma ReportLinePrefix(event: string, gaps: seq<string>, date: string, time: string, offset: string)
    requires |gaps| == 4
    ensures StartsWith(ReportLine(event, gaps, date, time, offset), event + " is at:")
  {
  }

  /** The pieces of the documented line are tokens and whitespace runs. */
  lemma DocumentedLinePieces()
    ensures IsToken("Sunrise") && IsToken("2022-01-22") && IsToken("10:51:47") && IsToken("+03:00")
    ensures ValidGaps(["            ", " ", " ", ""])
  {
    assert AllWhitespace("            ") && AllWhitespace(" ") && AllWhitespace("");
  }

  /** `Sunrise is at:            2022-01-22 10:51:47 +03:00`, the line documented beside `extract_time`, yields `10:51:47`. */
  lemma DocumentedSunriseLine()
    ensures var line := ReportLine("Sunrise", ["            ", " ", " ", ""], "2022-01-22", "10:51:47", "+03:00");
            StartsWith(line, SunrisePrefix) && ExtractTime(line) == Some("10:51:47")
  {
    DocumentedLinePieces();
    ReportLineTime("Sunrise", ["            ", " ", " ", ""], "2022-01-22", "10:51:47", "+03:00");
    assert SunrisePrefix == "Sunrise" + " is at:";
  }

  /** Report lines hold no line break and, when the run after the offset does not end in '\r', no trailing '\r'. */
  lemma ReportLineIsOneLine(event: string, gaps: seq<string>, date: string, time: string, offset: string)
    requires |gaps| == 4 && !EndsWithCr(gaps[3])
    requires forall i :: 0 <= i < 4 ==> '\n' !in gaps[i]
    requires IsToken(event) && IsToken(date) && IsToken(time) && IsToken(offset)
    ensures '\n' !in ReportLine(event, gaps, date, time, offset)
    ensures !EndsWithCr(ReportLine(event, gaps, date, time, offset))
  {
    var line := ReportLine(event, gaps, date, time, offset);
    var body := event + " is at:" + gaps[0] + date + gaps[1] + time + gaps[2] + offset;
    assert line == body + gaps[3];
    if gaps[3] == [] {
      assert line == body && line[|line| - 1] == offset[|offset| - 1];
      assert IsWhitespace('\r');
    } else {
      assert line[|line| - 1] == gaps[3][|gaps[3]| - 1];
    }
  }

  /**
    A successful run whose stdout is a sunrise line and a sunset line in the
    report layout gives exactly those two times.
   */
  lemma SunriseSunsetReport(riseGaps: seq<string>, setGaps: seq<string>, date: string,
                            sunrise: string, sunset: string, offset: string, stderr: string)
    requires |riseGaps| == 4 && ValidGaps(riseGaps) && !EndsWithCr(riseGaps[3])
    requires |setGaps| == 4 && ValidGaps(setGaps) && !EndsWithCr(setGaps[3])
    requires forall i :: 0 <= i < 4 ==> '\n' !in riseGaps[i] && '\n' !in setGaps[i]
    requires IsToken(date) && IsToken(sunrise) && IsToken(sunset) && IsToken(offset)
    ensures var stdout := Unlines([ReportLine("Sunrise", riseGaps, date, sunrise, offset),
                                   ReportLine("Sunset", setGaps, date, sunset, offset)]);
            Report(ChildOutput(true, stdout, stderr)) == Done(Times(sunrise, sunset))
  {
    var rise := ReportLine("Sunrise", riseGaps, date, sunrise, offset);
    var fall := ReportLine("Sunset", setGaps, date, sunset, offset);
    assert IsToken("Sunrise") && IsToken("Sunset");
    assert SunrisePrefix == "Sunrise" + " is at:" && SunsetPrefix == "Sunset" + " is at:";
    assert Lines(Unlines([rise, fall])) == [rise, fall] by {
      ReportLineIsOneLine("Sunrise", riseGaps, date, sunrise, offset);
      ReportLineIsOneLine("Sunset", setGaps, date, sunset, offset);
      LinesUnlines([rise, fall]);
    }
    assert StartsWith(rise, SunrisePrefix) && ExtractTime(rise) == Some(sunrise) by {
      ReportLineTime("Sunrise", riseGaps, date, sunrise, offset);
    }
    assert StartsWith(fall, SunsetPrefix) && ExtractTime(fall) == Some(sunset) by {
      ReportLineTime("Sunset", setGaps, date, sunset, offset);
    }
    assert Scan([rise]) == Done(Times(sunrise, "")) by {
      LaterSunriseWins([], rise);
      assert [] + [rise] == [rise];
    }
    assert Scan([rise, fall]) == Done(Times(sunrise, sunset)) by {
      LaterSunsetWins([rise], fall);
      assert [rise] + [fall] == [rise, fall];
    }
  }

  /** The pieces of the two New York report lines are tokens and whitespace runs. */
  lemma NewYorkPieces()
    ensures IsToken("2022-01-24") && IsToken("07:12:36") && IsToken("17:03:42") && IsToken("-05:00")
    ensures ValidGaps(["            ", " ", " ", ""]) && ValidGaps(["             ", " ", " ", ""])
    ensures !EndsWithCr("")
    ensures forall i :: 0 <= i < 4 ==>
      '\n' !in ["            ", " ", " ", ""][i] && '\n' !in ["             ", " ", " ", ""][i]
  {
    assert AllWhitespace("            ") && AllWhitespace("             ") && AllWhitespace(" ");
  }

  /**
    The report the first unit test expects for New York City: if `heliocron`
    reports sunrise at 07:12:36 and sunset at 17:03:42 in the report layout,
    those are the times returned.
   */
  lemma NewYorkReport(stderr: string)
    ensures var stdout := Unlines([ReportLine("Sunrise", ["            ", " ", " ", ""], "2022-01-24", "07:12:36", "-05:00"),
                                   ReportLine("Sunset", ["             ", " ", " ", ""], "2022-01-24", "17:03:42", "-05:00")]);
            Report(ChildOutput(true, stdout, stderr)) == Done(Times("07:12:36", "17:03:42"))
  {
    NewYorkPieces();
    SunriseSunsetReport(["            ", " ", " ", ""], ["             ", " ", " ", ""],
                        "2022-01-24", "07:12:36", "17:03:42", "-05:00", stderr);
  }

  /**
    `main` from the parsed options to the pair: the defaults are filled in
    and `invoke_heliocron_report` is called with date, time zone, latitude
    and longitude, so `heliocron` receives the argument list of the resolved
    query.
   */
  method Run(opts: Options, source: seq<string> -> ChildOutput) returns (result: Outcome, surfaced: string)
    ensures var child := source(HeliocronArgs(Resolve(opts)));
            result == Report(child) && surfaced == (if child.success then "" else child.stderr)
  {
    var date := OrDefault(opts.date, DefaultDate);
    var latitude := OrDefault(opts.latitude, DefaultLatitude);
    var longitude := OrDefault(opts.longitude, DefaultLongitude);
    var timezone := OrDefault(opts.timeZone, DefaultTimeZone);
    result, surfaced := InvokeHeliocronReport(date, timezone, latitude, longitude, source);
  }
}
