/** The data collection of a load test in app.py: the number of sampling
    passes `run_tests` derives from the requested duration, and
    `collect_data`, which appends one row of (simulated) metrics per pass
    until the passes run out or the run flag is found false. The clock and
    `sleep` are outside the model: the timestamp of pass `k` is an input,
    and so is the value the flag has when pass `k` checks it. */
module Collector {

  /** `run_interval_seconds` in `run_tests`. */
  const RunIntervalSeconds := 60

  /** `DATA_COLUMNS`: the columns of every collected row, in spreadsheet order. */
  const DataColumns: seq<string> :=
    ["Date", "Time", "Core Voltage", "CPU Temp", "CPU Frequency (MHz)",
     "Load Average", "Memory Usage", "Throttled Status"]

  /** `datetime.now()` as `collect_data` formats it: `%m/%d/%Y` and `%H:%M:%S`. */
  datatype Stamp = Stamp(date: string, time: string)

  /** One row of collected data, keyed by column name. */
  type Entry = map<string, string>

  /** A row with exactly the columns of `DATA_COLUMNS`. */
  predicate HasColumns(e: Entry)
  {
    e.Keys == set c | c in DataColumns
  }

  /** The row built for one pass: the timestamp and the fixed simulated
      readings. */
  function MakeEntry(now: Stamp): (e: Entry)
    ensures HasColumns(e)
    ensures e["Date"] == now.date && e["Time"] == now.time
  {
    map["Date" := now.date, "Time" := now.time,
        "Core Voltage" := "0.97", "CPU Temp" := "33.1",
        "CPU Frequency (MHz)" := "2000.478", "Load Average" := "0.13",
        "Memory Usage" := "Used: 356MB, Free: 284MB", "Throttled Status" := "0x0"]
  }

  /** `num_runs = (duration_hours * 3600) // run_interval_seconds`. Python's
      `//` floors; for the positive divisor used here Dafny's `/` agrees. */
  function NumRuns(durationHours: int): (n: int)
    ensures n == durationHours * 60
    ensures n >= 0 <==> durationHours >= 0
  {
    (durationHours * 3600) / RunIntervalSeconds
  }

  /** The passes `collect_data` completes when it is at pass `k`: it goes on
      while passes remain and the flag reads true. */
  function PassesFrom(numRuns: int, running: nat -> bool, k: nat): (m: nat)
    requires k <= numRuns
    ensures k <= m <= numRuns
    ensures forall j :: k <= j < m ==> running(j)
    ensures m < numRuns ==> !running(m)
    decreases numRuns - k
  {
    if k == numRuns || !running(k) then k else PassesFrom(numRuns, running, k + 1)
  }

  /** The number of rows `collect_data` returns: the first pass whose flag
      check fails, or `num_runs` (none when `num_runs` is not positive,
      as `range` is then empty). */
  function Passes(numRuns: int, running: nat -> bool): (m: nat)
    ensures numRuns <= 0 ==> m == 0
    ensures numRuns > 0 ==> m <= numRuns
    ensures forall j :: 0 <= j < m ==> running(j)
    ensures m < numRuns ==> !running(m)
  {
    if numRuns <= 0 then 0 else PassesFrom(numRuns, running, 0)
  }

  /** What `collect_data` returns, given the flag at each check and the
      clock at each pass. */
  function Collected(numRuns: int, running: nat -> bool, clock: nat -> Stamp): (data: seq<Entry>)
    ensures |data| <= if numRuns <= 0 then 0 else numRuns
    ensures !running(0) ==> data == []
    ensures forall k :: 0 <= k < |data| ==> running(k)
    ensures forall k :: 0 <= k < |data| ==> HasColumns(data[k])
    ensures forall k :: 0 <= k < |data| ==>
      "Date" in data[k] && data[k]["Date"] == clock(k).date && "Time" in data[k] && data[k]["Time"] == clock(k).time
    ensures |data| < numRuns ==> !running(|data|)
  {
    var data := seq(Passes(numRuns, running), k requires 0 <= k => MakeEntry(clock(k)));
    assert forall k :: 0 <= k < |data| ==> data[k] == MakeEntry(clock(k));
    data
  }

  /** `collect_data(rpi, num_runs, run_interval_seconds)`. The host is not
      consulted (the readings are simulated) and the interval only feeds
      `sleep`. */
  method CollectData(rpi: string, numRuns: int, runIntervalSeconds: int,
                     running: nat -> bool, clock: nat -> Stamp) returns (data: seq<Entry>)
    ensures data == Collected(numRuns, running, clock)
  {
    data := [];
    var run := 0;
    while run < numRuns
      invariant 0 <= run <= if numRuns <= 0 then 0 else numRuns
      invariant forall j :: 0 <= j < run ==> running(j)
      invariant data == seq(run, k requires 0 <= k => MakeEntry(clock(k)))
    {
      if !running(run) {
        break;
      }
      data := data + [MakeEntry(clock(run))];
      run := run + 1;
    }
    assert run == Passes(numRuns, running);
  }

  /** When the flag stays true, every one of the `num_runs` passes yields a row. */
  lemma UninterruptedRunCollectsAll(numRuns: nat, running: nat -> bool, clock: nat -> Stamp)
    requires forall k :: 0 <= k < numRuns ==> running(k)
    ensures |Collected(numRuns, running, clock)| == numRuns
  {
  }

  /** The readings are simulated: two rows of one run differ at most in
      their `Date` and `Time`. */
  lemma RowsDifferOnlyInStamp(numRuns: int, running: nat -> bool, clock: nat -> Stamp, j: nat, k: nat)
    requires j < |Collected(numRuns, running, clock)| && k < |Collected(numRuns, running, clock)|
    ensures var data := Collected(numRuns, running, clock);
      forall c :: c in data[j] && c != "Date" && c != "Time" ==> c in data[k] && data[j][c] == data[k][c]
  {
    var data := Collected(numRuns, running, clock);
    assert data[j] == MakeEntry(clock(j)) && data[k] == MakeEntry(clock(k));
  }

  /** A row per pass for a whole run of `duration_hours`: 60 an hour. */
  lemma RowsPerHour(durationHours: nat, running: nat -> bool, clock: nat -> Stamp)
    requires forall k :: 0 <= k < durationHours * 60 ==> running(k)
    ensures |Collected(NumRuns(durationHours), running, clock)| == 60 * durationHours
  {
    UninterruptedRunCollectsAll(NumRuns(durationHours), running, clock);
  }
}
