# rpi_dashboard: a Dafny model of the dashboard core

rpi_dashboard is a Flask application that monitors a small fleet of Raspberry
Pis over SSH. It runs load tests that sample each Pi once a minute, it runs
ad-hoc commands on every Pi, and it parses `vcgencmd`, `/proc/loadavg` and
`free -m` output into a metrics dictionary. This project models the logic in
app.py that sits between the HTTP handlers and the network:

- `pystr.dfy` (module `PyStr`) defines the Python `str` operations the parsers
  rely on, on `seq<char>`, with CPython's behaviour:
  - `isspace`, `strip()`, `split(sep)`, `split()`, `splitlines()` and
    `replace(old, "")`;
  - each one is characterised by lemmas: round trips, idempotence, and what
    it returns for the shapes of text the commands print.
- `remote.dfy` (module `Remote`) models `check_hostname` and
  `run_ssh_command`:
  - name resolution and the SSH session are parameters (a resolver and a
    transport);
  - the request handlers see only an executor, a function from host and
    command to an optional output.
- `metrics.dfy` (module `Metrics`) models `get_rpi_metrics`:
  - there are six parsers, each of which fails (`None`) where the Python code
    raises;
  - the metrics record exists only when all six succeed.
- `collector.dfy` (module `Collector`) models `DATA_COLUMNS`, the `num_runs`
  arithmetic of `run_tests` and `collect_data`:
  - `CollectData` is an imperative loop proved equal to the specification
    function `Collected`;
  - the flag that the loop reads at the top of pass `k` is an input
    `running(k)`, and so is the timestamp of pass `k`.
- `app.dfy` (module `Dashboard`) holds the global `test_running` flag in a
  class `App`:
  - `run_tests` sets it and `stop_test` clears it;
  - `run_command` and `index` fill their per-host dictionaries one host at a
    time;
  - what other requests do to the flag before the first check and while a
    collector sleeps is a sequence of `Request`s, and `FlagAt` folds it into
    the flag each pass observes.
- `options.dfy` holds the `Option` datatype.

The thread fan-outs in `index`, `run_tests` and `run_command` start one
thread per host and join them all, and each is modelled as a sequential loop
over `rpi_hostnames`. In `index` and `run_command` each thread writes only its
own host's key, so the loop gives the same dictionary. The `run_tests`
threads instead append to one shared list of file paths (left out below),
and they all read the global flag; the model has every collector read one
flag sequence, which `Dashboard.Trajectory` derives from the requests served
before the first check and during each sleep.

### Behaviour a reader might expect that app.py does not have (the model follows app.py)

- A run that completes on its own does not return the dashboard to idle.
  `test_running` stays true after `collect_data` finishes; only `stop_test`
  clears it. This is visible in `Dashboard.App.RunTests` (final flag) and
  `Dashboard.QuietKeepsFlag`.
- A second start is not rejected: `run_tests` sets the flag unconditionally
  (`Dashboard.RestartRevives`). A start that follows a stop does not bring
  back collectors that already read the stop (`Dashboard.RestartDoesNotResume`).
- A fractional duration such as `0.1` hours never reaches the collectors:
  `int("0.1")` raises. It raises after `test_running` was set, so the flag
  stays true with no collector running (`Dashboard.App.RunTests` with
  duration `None`).
- The collected rows hold fixed simulated readings, not the output of
  `get_rpi_metrics`. The host argument of `collect_data` is unused
  (`Collector.RowsDifferOnlyInStamp`).

## Model

| member | source | states |
|---|---|---|
| PyStr.IsSpace | app.py:46 | within ASCII, `isspace()` holds exactly for tab, line feed, vertical tab, form feed, carriage return, `\x1c`-`\x1f` and the space |
| PyStr.IsLineBreak | app.py:166 | every boundary `splitlines()` recognises is whitespace for `split()` |
| PyStr.Strip | app.py:46 | `.strip()` leaves no whitespace at either end and never lengthens the text |
| PyStr.StripOf | app.py:46 | surrounding whitespace runs are removed and a stripped body is kept exactly |
| PyStr.StripIdempotent | app.py:46 | stripping twice is stripping once |
| PyStr.Split | app.py:162 | `split(sep)` always yields at least one piece; no piece contains the separator; there are two or more pieces exactly when the separator occurs |
| PyStr.SplitJoin | app.py:162 | joining the pieces of `split(sep)` with `sep` gives back the original text |
| PyStr.JoinSplit | app.py:162 | splitting a join of separator-free pieces gives back the pieces |
| PyStr.SplitNoSep | app.py:162 | a text without the separator splits into itself alone |
| PyStr.SplitFirst | app.py:162 | the first piece is the text before the first separator, and the rest is the split of what follows it |
| PyStr.SecondField | app.py:162-163 | `split(sep)[1]` exists exactly when `sep` occurs, and it contains no `sep` |
| PyStr.SecondFieldOf | app.py:162-163 | `split(sep)[1]` is the text between the first and the second separator (or the end) |
| PyStr.RemoveAll | app.py:162-163 | `replace(old, "")` never lengthens the text and introduces no character; a one-character pattern is gone afterwards |
| PyStr.RemoveAllKeeps | app.py:162-163 | a prefix that cannot start the pattern passes through unchanged |
| PyStr.RemoveAllDrops | app.py:162-163 | an occurrence of the pattern at the front is removed |
| PyStr.RemoveCharConcat | app.py:162 | removing a single character distributes over concatenation, so every occurrence goes wherever it stands |
| PyStr.RemoveAllFirst | app.py:163 | text that cannot start the pattern is kept, its first occurrence is removed, and the scan goes on after it |
| PyStr.Words | app.py:165-166 | `split()` never yields more tokens than the text has characters |
| PyStr.Tokens | app.py:165 | the tokens of a text are empty exactly when the text is |
| PyStr.WordsAreTokens | app.py:165-166 | every token of `split()` is non-empty and has no whitespace |
| PyStr.WordsBlank | app.py:165 | `split()` is empty exactly when the text is all whitespace |
| PyStr.WordsCons | app.py:165 | a token followed by whitespace or the end is the first token |
| PyStr.WordsSkipsSpace | app.py:165 | leading whitespace does not change the tokens |
| PyStr.WordsTokenGap | app.py:166 | a token and a whitespace run in front of a text add exactly that token |
| PyStr.WordsSpaced | app.py:165 | `split()` recovers the words of a single-space join |
| PyStr.ThirdWord | app.py:166 | with three whitespace-separated tokens, `split()[2]` is the third |
| PyStr.Lines | app.py:166 | `splitlines()` is empty exactly when the text is |
| PyStr.LinesHaveNoBreaks | app.py:166 | no line returned by `splitlines()` contains a line boundary |
| PyStr.LinesNewline | app.py:166 | a line ended by `\n` is the first line, and the rest are the lines after it |
| PyStr.LinesCrLf | app.py:166 | `\r\n` ends a line as a single terminator |
| PyStr.LinesSingle | app.py:166 | a non-empty text without boundaries is one line |
| PyStr.FirstLine | app.py:166 | a line followed by `\n` or the end is the first line of `splitlines()` |
| PyStr.SecondLine | app.py:166 | after a `\n`-terminated first line, `splitlines()[1]` is the next line |
| PyStr.LinesTerminated | app.py:166 | `splitlines()` recovers the lines of a `\n`-terminated text, with no empty last line |
| Remote.RunSshCommand | app.py:38-51 | an unresolvable host gives `None`; otherwise the output exists exactly when the session produced one, and it is stripped |
| Remote.SshExecutor | app.py:38-51 | the executor the handlers call gives `None` for every unresolvable host and only stripped output |
| Remote.Truthy | app.py:81 | Python truthiness of the result: false exactly for `None` and the empty string |
| Remote.UnresolvedIgnoresTransport | app.py:39-40 | for an unresolvable host the answer is `None` whatever the transport would do: no session is attempted |
| Remote.OutputIsTrimmed | app.py:46 | output padded with whitespace arrives as its stripped body |
| Metrics.Field | app.py:162-167 | `out.split('=')[1]` exists exactly when there is output and it contains `=`; the field has no `=` |
| Metrics.ParseVoltage | app.py:162 | voltage exists exactly when the output has an `=`; it contains no `V` and no `=` |
| Metrics.ParseTemperature | app.py:163 | temperature exists exactly when the output has an `=`; it is no longer than the field |
| Metrics.ParseFrequencyText | app.py:164 | the text handed to `float()` exists exactly when the output has an `=` |
| Metrics.ParseThrottled | app.py:167 | the throttled status exists exactly when the output has an `=`, and it has no `=` |
| Metrics.ParseLoadAverage | app.py:165 | the load average exists exactly when there is output that is not all whitespace; it is one non-empty token |
| Metrics.ParseMemory | app.py:166 | a value exists exactly when there is output with a second line holding at least three tokens; it is that third token followed by `MB` |
| Metrics.GetRpiMetrics | app.py:159-169 | the metrics exist exactly when all six parsers succeed, and each field is its own command's output run through its own parser |
| Metrics.VoltageOfReading | app.py:162 | `volt=<v>V` gives `<v>` |
| Metrics.VoltageRemovesEveryV | app.py:162 | the voltage is the field between the first `=` and the second (or the end) with every `V` removed, wherever it stands |
| Metrics.TemperatureOfReading | app.py:163 | `temp=<v>'C` gives `<v>` |
| Metrics.TemperatureRemovesEveryUnit | app.py:163 | the temperature is the field between the first `=` and the second (or the end) with every `'C` removed: the text before the first unit is kept and the rest is cleaned the same way |
| Metrics.FrequencyOfReading | app.py:164 | `frequency(48)=<v>` hands `<v>` to `float()` |
| Metrics.ThrottledOfReading | app.py:167 | `throttled=<v>` gives `<v>` unchanged |
| Metrics.FieldStopsAtSecondEquals | app.py:162-167 | a second `=` ends the field |
| Metrics.LoadAverageOfReading | app.py:165 | the load average is the first whitespace-separated token, after any leading whitespace |
| Metrics.MemoryLine | app.py:166 | the `Mem:` line of `free -m` is one line whose third token is the used column |
| Metrics.MemoryOfReading | app.py:166 | a header line followed by the `Mem:` line gives the used column followed by `MB` |
| Metrics.MetricsOfReadings | app.py:159-169 | for the outputs the six commands print, the dictionary holds the voltage, temperature, clock text, first load token, used memory with `MB`, and throttled status, each from its own command |
| Metrics.NoOutputNoMetrics | app.py:162 | a missing command output means no metrics at all |
| Metrics.UnresolvedHostHasNoMetrics | app.py:39-40 | an unresolvable host yields no metrics, whatever the transport does |
| Collector.MakeEntry | app.py:59-69 | a row has exactly the `DATA_COLUMNS` keys and carries the pass's date and time |
| Collector.NumRuns | app.py:100-104 | `num_runs` is `duration_hours * 60`, and it is non-negative exactly for non-negative durations |
| Collector.PassesFrom | app.py:56-58 | from pass `k` on, the loop stops at the first pass whose flag check fails, or after `num_runs` passes |
| Collector.Passes | app.py:56-58 | no passes when `num_runs` is not positive; otherwise at most `num_runs`; the flag held at every completed pass, and it was false at the stopping pass if that came early |
| Collector.Collected | app.py:53-72 | at most `num_runs` rows and none if the flag is false on entry; each row follows a true flag check, has the `DATA_COLUMNS` keys and its pass's timestamp; an early stop means the flag was false |
| Collector.CollectData | app.py:53-72 | the loop returns exactly `Collected` |
| Collector.RowsDifferOnlyInStamp | app.py:63-68 | two rows of one run agree on every column except `Date` and `Time` |
| Collector.UninterruptedRunCollectsAll | app.py:56-58 | with the flag true throughout, every one of the `num_runs` passes yields a row |
| Collector.RowsPerHour | app.py:100-104 | an uninterrupted run of `duration_hours` yields 60 rows per hour |
| Dashboard.FlagAt | app.py:97-98 | the flag after the first `k` requests, starting from `start`: `start` itself when `k` is 0, false right after a stop, true right after a start |
| Dashboard.Trajectory | app.py:57 | the flag the check of pass `k` reads: false when a stop was served just before that check (before the first check for pass 0, during the previous sleep otherwise); true at the first check when no stop came before it, since `run_tests` has just set it |
| Dashboard.AfterRequest | app.py:97-98 | a start request sets the flag, a stop request clears it, and no request leaves it alone |
| Dashboard.QuietKeepsFlag | app.py:53-72 | with no other requests the flag keeps its value: nothing resets it when a run ends |
| Dashboard.StopHolds | app.py:130-131 | after a stop, the flag stays false until a later start |
| Dashboard.StopEndsCollection | app.py:56-58 | a stop served before the check of pass `k` leaves at most `k` rows, whatever requests follow |
| Dashboard.EarlyStopCollectsNothing | app.py:56-58 | a stop served between `run_tests` setting the flag and the first check leaves no rows at all |
| Dashboard.RestartRevives | app.py:97-98 | a start after a stop sets the flag again: a second start is not rejected |
| Dashboard.RestartDoesNotResume | app.py:56-58 | a start right behind a stop sets the flag, yet the rows stay capped at `k`: the collectors have already returned |
| Dashboard.App.constructor | app.py:20-22 | the hosts are `rpi_hostnames` and no test is running |
| Dashboard.App.StopTest | app.py:130-131 | the flag is false whatever it was before |
| Dashboard.App.Serve | app.py:97-98 | serving a request changes the flag as `AfterRequest` says |
| Dashboard.App.RunTests | app.py:95-125 | the flag is set first; a duration that fails `int()` leaves it set and collects nothing; otherwise every host gets exactly the rows `collect_data` returns for `num_runs` passes, and the final flag is the value after the requests served from the start to the collectors' return |
| Dashboard.App.RunCommand | app.py:172-195 | every configured host gets an entry; it is the output when that is truthy, otherwise `No result or connection error`; no entry is empty |
| Dashboard.App.Index | app.py:75-92 | a host is listed exactly when it is configured and its ping output is truthy, and it maps to its `hostname` output |
| Dashboard.CommandOutput | app.py:174-178 | a missing `command` field yields no output; otherwise the host's output for that command |
| Dashboard.UnresolvedHostReportsError | app.py:177-182 | on the SSH executor, an unresolvable host's output is falsy, so `run_command` reports the error text for it |

## Left out

- Flask routing, `render_template` and `jsonify`: these are HTTP and presentation plumbing. The handlers return their dictionaries instead.
- paramiko SSH sessions and `socket.gethostbyname`: these are network I/O. They are the `transport` and `resolves` parameters of `Remote.RunSshCommand`, and the UTF-8 `decode()` is part of the transport.
- `threading.Thread` fan-out and join: these are modelled as sequential loops over the hosts. In `index` and `run_command` each join is a full barrier and each thread writes only its own host's key, so the loop gives the same dictionary. The `run_tests` collectors instead share the global flag and the `results` list; how the model approximates that is on the Dashboard.App.RunTests line below.
- The pandas DataFrame, the Excel file, `save_path`/`os.path` handling and the `results` list of file paths in `run_tests`: these are foreign libraries and file I/O. `Dashboard.App.RunTests` returns the rows handed to the DataFrame instead.
- Metrics.ParseFrequencyText: it stops at the text handed to `float()`. The floating-point conversion, the division by 1,000,000 and `float()` raising on malformed text are not modelled.
- `get_progress`: its percentage is floating-point arithmetic, and it sleeps one second per step.
- `sleep`, `datetime.now`, `strftime` and logging: these are wall clock and side effects. Timestamps are opaque inputs (`clock`). The flag each check reads is derived by `Dashboard.Trajectory` from the input `requests`: one request is served before the first check, and one during each sleep.
- Dashboard.App.RunTests: every collector reads one shared flag sequence, which is an approximation. In app.py the threads start one after another and read the global flag at different instants, so a stop that lands between two hosts' checks of the same pass leaves their row counts one apart; the model cannot produce that difference. A stop before the first check, which leaves no rows, is in the model (`Dashboard.EarlyStopCollectsNothing`). How `int()` parses the form text is not modelled either: the duration is the parsed integer, or `None` when `int()` raises.
- Dashboard.App.RunCommand: the form field `command` is an `Option`; a missing command is treated as a failed session, which is how `exec_command(None)` ends in app.py.
- `USERNAME`, `PASSWORD`, `SSH_PORT` and the connection timeout: these are only used by the SSH session, which is outside the model.
