# helios: sunrise and sunset from a `heliocron` report

`helios` is a small Rust command that prints the sunrise and sunset times for
one date, place and UTC offset as a JSON object. It does no astronomy itself:
`invoke_heliocron_report` starts the external `heliocron` tool with a fixed
argument list, and when the tool succeeds it reads its text report line by
line. A line that starts with `Sunrise is at:` or `Sunset is at:` is split on
whitespace runs, and its fifth token (index 4, the `HH:MM:SS` time) is stored
into a `(sunrise, sunset)` pair that starts as two empty strings. When the tool
fails, its standard error is passed on and the pair stays empty. Before that,
`main` fills in each absent command-line option with a fixed default.

The model has three modules:

- `Wrappers` (wrappers.dfy): Rust's `Option`.
- `RustStr` (rust_str.dfy): the parts of Rust's `str` and `char` API that the
  scanner uses. These are `char::is_whitespace` (the whole Unicode White_Space
  set), `starts_with`, `split_whitespace` and `lines`. `lines` is modelled as
  Rust does it today: split at '\n', drop a '\r' just before a '\n', and do not
  produce an empty last line after a final '\n'.
- `Helios` (helios.dfy): the query and its defaults, the argument list, the
  report scanner and the routine itself.

The child process is an input. `InvokeHeliocronReport` takes a total function
`source` from the argument list to what the finished child left behind: its
success flag, its stdout text and its stderr text. The method applies `source`
to `HeliocronArgs(query)`. So its contract states exactly which argument list
the tool receives and what is made of the tool's answer.

The routine is imperative in Rust: a mutable pair is overwritten inside a
`for` loop. It is modelled as a method with that loop, proved against the
specification function `Report`, and `Report` is characterised by lemmas. The
`vec[4]` lookup panics on a matching line with fewer than five tokens. That
panic is modelled as the outcome `Panicked(i)`, where `i` is the index of the
stdout line. No later line is read after it. A more forgiving design would
leave the field empty instead; the model keeps the panic, as the code has it.

The prefixes are matched literally, so the scanner tolerates varied whitespace
only between the tokens that follow them. A line `Sunrise  is at: ...` with
two spaces inside the prefix matches neither prefix and is ignored. The
lemmas about whitespace differ in scope:

- `WhitespaceRunTolerance` is about `extract_time` alone, which never looks at
  the prefix. It tolerates every whitespace run of the line, including the
  two inside `Sunrise is at:`.
- `ReportLineTime` varies only the whitespace runs after the prefix, so its
  lines always carry the prefix.
- `ScanRespaced` compares two reports whose lines agree on both prefix tests,
  as well as on their tokens.

## Model

| member | source | states |
|---|---|---|
| `Helios.Resolve` | src/main.rs:119-135 | Each given option (date, latitude, longitude, time zone) passes through to the query. Each absent one becomes "2022-01-24", "40.7128N", "74.0060W" or "-05:00". |
| `Helios.ResolveGiven` | src/main.rs:120-135 | Options that give every value resolve to exactly that query. |
| `Helios.ResolveNothing` | src/main.rs:120-135 | With no options, the query is New York City on 2022-01-24 at UTC-05:00. This is the query of the first unit test. |
| `Helios.HeliocronArgs` | src/main.rs:73-78 | Round trip: reading the argument list back with `QueryOfArgs` gives exactly the query it was built from. |
| `Helios.ArgsRoundTrip` | src/main.rs:73-78 | The argument list is `--date d --latitude lat --longitude lon --time-zone tz report`, with `report` last. Reading it back gives the query. The only argument list that reads back as a query is the one built for that query. |
| `Helios.InvokeHeliocronReport` | src/main.rs:66-110 | The child is started with `HeliocronArgs` of the query. The result is `Report` of the child's output. The child's stderr is surfaced exactly when the child failed. |
| `Helios.ExtractTime` | src/main.rs:92-98 | The closure yields a value exactly when the line has more than four whitespace-separated tokens; otherwise `vec[4]` panics. The value is a non-empty, whitespace-free token. |
| `Helios.ScanLine` | src/main.rs:92-104 | One loop step panics exactly when the line is malformed: it starts with `Sunrise is at:` or `Sunset is at:` and has fewer than five tokens. |
| `Helios.ScanLineEffect` | src/main.rs:99-104 | A step on a well-formed line sets the sunrise only if the line starts with the sunrise prefix, and the sunset only if it starts with the sunset prefix, each to the line's time. The other field keeps its value. |
| `Helios.Scan` | src/main.rs:91-105 | A panic is reported at an index of a line that exists and is malformed. `ScanIsLastMatch` and `ScanPanicsAtFirstMalformed` state the rest: which fields a completed scan holds, and that the panic is at the first malformed line. |
| `Helios.Report` | src/main.rs:88-109 | A failed child gives `("", "")`. A panic is possible only for a successful child, at a malformed line of its stdout. `InvokeHeliocronReport` is proved equal to it, and `FailureGivesEmpty` restates the failure case for any stdout. |
| `Helios.ScanCompletes` | src/main.rs:91-105 | The scan completes exactly when no line is malformed. |
| `Helios.ScanIsLastMatch` | src/main.rs:91-105 | The scan completes exactly when no line is malformed. Then each field holds the time from the last line that carries its prefix, or "" when no line carries it. |
| `Helios.ScanPanicsAtFirstMalformed` | src/main.rs:91-105 | A panic happens on the first malformed line. |
| `Helios.ScanPanicPersists` | src/main.rs:91-105 | After a panic, the later lines do not change the outcome. |
| `Helios.NoSunriseLine` | src/main.rs:99-101 | With no `Sunrise is at:` line, the sunrise stays "" whatever the sunset lines are. |
| `Helios.NoSunsetLine` | src/main.rs:102-104 | With no `Sunset is at:` line, the sunset stays "" whatever the sunrise lines are. |
| `Helios.PrefixesExclusive` | src/main.rs:99-104 | No line starts with both prefixes, so a line updates at most one field. |
| `Helios.IgnoredLine` | src/main.rs:99-104 | A line with neither prefix leaves the outcome unchanged. |
| `Helios.LaterSunriseWins` | src/main.rs:99-101 | A later well-formed sunrise line overwrites the sunrise and keeps the sunset. |
| `Helios.LaterSunsetWins` | src/main.rs:102-104 | A later well-formed sunset line overwrites the sunset and keeps the sunrise. |
| `Helios.FailureGivesEmpty` | src/main.rs:88-109 | When the child fails, the result is `("", "")` whatever its stdout holds. |
| `Helios.WhitespaceRunTolerance` | src/main.rs:93-96 | Tokens separated by any non-empty whitespace runs extract the same value as the single-spaced line: the fifth token, or a panic when there are fewer than five. |
| `Helios.ScanRespaced` | src/main.rs:91-104 | Two reports whose lines agree on the prefix tests and on their tokens scan to the same outcome. |
| `Helios.ReportLineTime` | src/main.rs:92-96 | For any event word, date, time, offset and whitespace runs, a line laid out as `<event> is at: <date> <time> <offset>` carries the `<event> is at:` prefix and yields its time. |
| `Helios.DocumentedSunriseLine` | src/main.rs:94-95 | The documented line `Sunrise is at:            2022-01-22 10:51:47 +03:00` matches the sunrise prefix and yields `10:51:47`. |
| `Helios.SunriseSunsetReport` | src/main.rs:88-105 | A successful stdout made of a sunrise line and a sunset line in the report layout yields exactly those two times. Any whitespace runs may separate the fields, and trailing whitespace is allowed except a final '\r', which `lines` would strip. |
| `Helios.NewYorkReport` | src/main.rs:165-173 | A report that shows 07:12:36 and 17:03:42 yields the pair the New York unit test expects. |
| `Helios.Run` | src/main.rs:119-138 | `main` up to the call: the child is started with the argument list of the resolved query, and the result is `Report` of its output. The child's stderr is surfaced exactly when it failed. |
| `RustStr.IsWhitespace` | src/main.rs:93 | On ASCII, whitespace is exactly space, tab, '\n', vertical tab, form feed and '\r'. No ASCII letter or digit is whitespace. |
| `RustStr.StartsWithIndexwise` | src/main.rs:99-104 | `starts_with` holds exactly when the line is at least as long as the prefix and agrees with it at every index of the prefix. |
| `RustStr.SplitWhitespace` | src/main.rs:93 | Every token is non-empty and free of whitespace. Joined together, the tokens are exactly the non-whitespace characters of the line, in order. |
| `RustStr.SplitSkipsWhitespace` | src/main.rs:93 | Leading whitespace does not change the tokens. |
| `RustStr.SplitSpaced` | src/main.rs:93 | Round trip: tokens laid out with any non-empty whitespace runs between them (and any before or after) split back into exactly those tokens. |
| `RustStr.Lines` | src/main.rs:90 | No line contains '\n'. |
| `RustStr.LinesUnlines` | src/main.rs:90 | Round trip: text written as '\n'-terminated lines (none ending in '\r') splits back into exactly those lines. |
| `RustStr.LinesCrLf` | src/main.rs:90 | A "\r\n" terminator ends a line just as '\n' does, and the '\r' is not part of the line. |
| `RustStr.LinesUnterminatedLast` | src/main.rs:90 | The final terminator is optional: a last line without '\n' is still one line. |

## Left out

- Spawning `heliocron` and waiting for it, and the `.expect` abort when it cannot be started (src/main.rs:73-80). This is operating-system I/O. The finished child is an input (`source`).
- The astronomy itself. It lives in the external `heliocron` binary, which is not part of this model. So the unit tests at src/main.rs:164-184 cannot be proved. `NewYorkReport` states only the extraction half of the first test.
- `String::from_utf8_lossy` (src/main.rs:89): stdout is taken as already-decoded text.
- Writing the child's stderr to our own stderr (src/main.rs:107). It is modelled as the returned string `surfaced`, not as a write.
- The verbose `println!` echoes (src/main.rs:82-86, 115-117, 139-141). These are output only.
- Command-line parsing with StructOpt (src/main.rs:30-64, 114). This includes the rule that latitude and longitude come together, and the unused `--date-format`. That library is not part of this model. `Options` holds what the parser hands to `main`.
- Building the JSON object `{"day_start", "day_end"}` with `serde_json` and writing it to stdout or to a file (src/main.rs:143-155). These are a foreign library and file I/O.
- Helios.InvokeHeliocronReport: a panic is an outcome value (`Panicked(i)`), not a process abort. What the outcome records matches the source: nothing after the failing line is read, and no pair is returned.
- RustStr.IsWhitespace: it is a fixed table of the Unicode White_Space characters, written out by hand rather than taken from a Unicode database.
