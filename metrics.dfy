/** `get_rpi_metrics` of app.py: six commands run on one Raspberry Pi, each
    output cut down to one field by string operations. Python raises when
    the executor returned `None` or an index is missing, and the exception
    aborts the whole dictionary; here each parser returns `None` instead
    and `GetRpiMetrics` is `None` when any of them is. */
module Metrics {

  import opened Options
  import opened PyStr
  import opened Remote

  const VoltsCommand := "vcgencmd measure_volts core"
  const TempCommand := "vcgencmd measure_temp"
  const ClockCommand := "vcgencmd measure_clock arm"
  const LoadCommand := "cat /proc/loadavg"
  const MemoryCommand := "free -m"
  const ThrottledCommand := "vcgencmd get_throttled"

  /** The metrics dictionary. `cpuFreqHz` is the text app.py hands to
      `float()` before dividing by one million. */
  datatype Metrics = Metrics(coreVoltage: string, cpuTemp: string, cpuFreqHz: string,
                             loadAverage: string, memoryUsage: string, throttledStatus: string)

  /** `out.split('=')[1]`, failing on `None` as the attribute lookup does. */
  function Field(out: Option<string>): (r: Option<string>)
    ensures r.Some? <==> out.Some? && '=' in out.value
    ensures r.Some? ==> '=' !in r.value
  {
    match out
    case None => None
    case Some(text) => SecondField(text, '=')
  }

  /** `core_voltage`: the second `=`-field with every `V` removed. */
  function ParseVoltage(out: Option<string>): (r: Option<string>)
    ensures r.Some? <==> out.Some? && '=' in out.value
    ensures r.Some? ==> 'V' !in r.value && '=' !in r.value
  {
    match Field(out)
    case None => None
    case Some(v) => Some(RemoveAll(v, "V"))
  }

  /** `cpu_temp`: the second `=`-field with every `'C` removed. */
  function ParseTemperature(out: Option<string>): (r: Option<string>)
    ensures r.Some? <==> out.Some? && '=' in out.value
    ensures r.Some? ==> '=' !in r.value && |r.value| <= |Field(out).value|
  {
    match Field(out)
    case None => None
    case Some(v) => Some(RemoveAll(v, "'C"))
  }

  /** `cpu_freq_mhz` up to `float()`: the second `=`-field. */
  function ParseFrequencyText(out: Option<string>): (r: Option<string>)
    ensures r.Some? <==> out.Some? && '=' in out.value
    ensures r.Some? ==> '=' !in r.value
  {
    Field(out)
  }

  /** `throttled_status`: the second `=`-field, unchanged. */
  function ParseThrottled(out: Option<string>): (r: Option<string>)
    ensures r.Some? <==> out.Some? && '=' in out.value
    ensures r.Some? ==> '=' !in r.value
  {
    Field(out)
  }

  /** `load_average`: the first whitespace-separated token; missing when the
      output is blank. */
  function ParseLoadAverage(out: Option<string>): (r: Option<string>)
    ensures r.Some? <==> out.Some? && !AllSpace(out.value)
    ensures r.Some? ==> r.value != [] && NoSpace(r.value)
  {
    match out
    case None => None
    case Some(text) =>
      WordsBlank(text);
      WordsAreTokens(text);
      var ws := Words(text);
      if |ws| == 0 then None else Some(ws[0])
  }

  /** `memory_usage`: the third token of the second line, followed by `MB`;
      missing when there is no second line or it has fewer than three tokens. */
  function ParseMemory(out: Option<string>): (r: Option<string>)
    ensures out.None? ==> r.None?
    ensures out.Some? && |Lines(out.value)| < 2 ==> r.None?
    ensures r.Some? <==> out.Some? && |Lines(out.value)| >= 2 && |Words(Lines(out.value)[1])| >= 3
    ensures r.Some? ==> r.value == Words(Lines(out.value)[1])[2] + "MB"
    ensures r.Some? ==> |r.value| > 2 && r.value[|r.value| - 2..] == "MB"
    ensures r.Some? ==> NoSpace(r.value[..|r.value| - 2])
  {
    match out
    case None => None
    case Some(text) =>
      var ls := Lines(text);
      if |ls| < 2 then None
      else
        var ws := Words(ls[1]);
        WordsAreTokens(ls[1]);
        if |ws| < 3 then None
        else
          assert (ws[2] + "MB")[..|ws[2]|] == ws[2];
          Some(ws[2] + "MB")
  }

  /** `get_rpi_metrics(hostname)`: all six fields, or `None` as soon as one of
      them cannot be extracted. */
  function GetRpiMetrics(exec: Executor, hostname: string): (r: Option<Metrics>)
    ensures r.Some? <==>
      && ParseVoltage(exec(hostname, VoltsCommand)).Some?
      && ParseTemperature(exec(hostname, TempCommand)).Some?
      && ParseFrequencyText(exec(hostname, ClockCommand)).Some?
      && ParseLoadAverage(exec(hostname, LoadCommand)).Some?
      && ParseMemory(exec(hostname, MemoryCommand)).Some?
      && ParseThrottled(exec(hostname, ThrottledCommand)).Some?
    ensures r.Some? ==> r.value == Metrics(ParseVoltage(exec(hostname, VoltsCommand)).value,
                                          ParseTemperature(exec(hostname, TempCommand)).value,
                                          ParseFrequencyText(exec(hostname, ClockCommand)).value,
                                          ParseLoadAverage(exec(hostname, LoadCommand)).value,
                                          ParseMemory(exec(hostname, MemoryCommand)).value,
                                          ParseThrottled(exec(hostname, ThrottledCommand)).value)
    ensures r.Some? ==> 'V' !in r.value.coreVoltage && r.value.loadAverage != []
  {
    var volts := ParseVoltage(exec(hostname, VoltsCommand));
    var temp := ParseTemperature(exec(hostname, TempCommand));
    var freq := ParseFrequencyText(exec(hostname, ClockCommand));
    var load := ParseLoadAverage(exec(hostname, LoadCommand));
    var mem := ParseMemory(exec(hostname, MemoryCommand));
    var throttled := ParseThrottled(exec(hostname, ThrottledCommand));
    if volts.Some? && temp.Some? && freq.Some? && load.Some? && mem.Some? && throttled.Some? then
      Some(Metrics(volts.value, temp.value, freq.value, load.value, mem.value, throttled.value))
    else None
  }

  // ---------------------------------------------------------------------
  // What the parsers make of the outputs of the commands

  /** `volt=0.8600V` gives `0.8600`. */
  lemma VoltageOfReading(v: string)
    requires '=' !in v && 'V' !in v
    ensures ParseVoltage(Some("volt=" + v + "V")) == Some(v)
  {
    assert "volt=" + v + "V" == "volt" + ['='] + (v + "V") + [];
    SecondFieldOf("volt", '=', v + "V", []);
    RemoveAllKeeps(v, "V", "V");
    RemoveAllDrops("V", []);
    assert v + [] == v && "V" + [] == "V";
  }

  /** Every `V` of the field goes, wherever it stands, and nothing else:
      the field between the first `=` and the second (or the end) is
      `a + b`, with its parts cleaned apart. */
  lemma VoltageRemovesEveryV(name: string, a: string, b: string, rest: string)
    requires '=' !in name && '=' !in a && '=' !in b
    requires rest == [] || rest[0] == '='
    ensures ParseVoltage(Some(name + "=" + (a + b) + rest)) == Some(RemoveAll(a, "V") + RemoveAll(b, "V"))
  {
    var v := a + b;
    assert '=' !in v;
    assert name + "=" + v + rest == name + ['='] + v + rest;
    SecondFieldOf(name, '=', v, rest);
    RemoveCharConcat(a, b, 'V');
  }

  /** `temp=48.3'C` gives `48.3`. */
  lemma TemperatureOfReading(v: string)
    requires '=' !in v && '\'' !in v
    ensures ParseTemperature(Some("temp=" + v + "'C")) == Some(v)
  {
    assert "temp=" + v + "'C" == "temp" + ['='] + (v + "'C") + [];
    SecondFieldOf("temp", '=', v + "'C", []);
    RemoveAllKeeps(v, "'C", "'C");
    RemoveAllDrops("'C", []);
    assert v + [] == v && "'C" + [] == "'C";
  }

  /** Every `'C` of the field between the first `=` and the second (or the
      end) goes: text without a quote is kept, the first unit is dropped,
      and the rest is cleaned in the same way. */
  lemma TemperatureRemovesEveryUnit(name: string, a: string, b: string, rest: string)
    requires '=' !in name && '=' !in a && '=' !in b && '\'' !in a
    requires rest == [] || rest[0] == '='
    ensures ParseTemperature(Some(name + "=" + (a + "'C" + b) + rest)) == Some(a + RemoveAll(b, "'C"))
  {
    var v := a + "'C" + b;
    assert '=' !in v;
    assert name + "=" + v + rest == name + ['='] + v + rest;
    SecondFieldOf(name, '=', v, rest);
    RemoveAllFirst(a, "'C", b);
  }

  /** `frequency(48)=1500398464` gives the digits after the `=`. */
  lemma FrequencyOfReading(name: string, v: string)
    requires '=' !in name && '=' !in v
    ensures ParseFrequencyText(Some(name + "=" + v)) == Some(v)
  {
    assert name + "=" + v == name + ['='] + v + [];
    SecondFieldOf(name, '=', v, []);
  }

  /** `throttled=0x0` gives `0x0`: the field is not otherwise changed. */
  lemma ThrottledOfReading(v: string)
    requires '=' !in v
    ensures ParseThrottled(Some("throttled=" + v)) == Some(v)
  {
    assert "throttled=" + v == "throttled" + ['='] + v + [];
    SecondFieldOf("throttled", '=', v, []);
  }

  /** A second `=` ends the field: only the text between the first two
      `=` is returned. */
  lemma FieldStopsAtSecondEquals(name: string, v: string, rest: string)
    requires '=' !in name && '=' !in v
    ensures ParseThrottled(Some(name + "=" + v + "=" + rest)) == Some(v)
  {
    assert name + "=" + v + "=" + rest == name + ['='] + v + ("=" + rest);
    SecondFieldOf(name, '=', v, "=" + rest);
  }

  /** `/proc/loadavg` reads `0.13 0.08 0.02 1/123 4567`: the first token. */
  lemma LoadAverageOfReading(pre: string, w: string, rest: string)
    requires AllSpace(pre) && w != [] && NoSpace(w)
    requires rest == [] || IsSpace(rest[0])
    ensures ParseLoadAverage(Some(pre + w + rest)) == Some(w)
  {
    assert pre + w + rest == pre + (w + rest);
    WordsSkipsSpace(pre, w + rest);
    WordsCons(w, rest);
  }

  /** The `Mem:` line of `free -m`: one line whose third token is the used
      column. */
  lemma MemoryLine(name: string, gap1: string, total: string, gap2: string, used: string, tail: string)
    requires name != [] && NoSpace(name) && total != [] && NoSpace(total) && used != [] && NoSpace(used)
    requires gap1 != [] && AllSpace(gap1) && NoLineBreak(gap1)
    requires gap2 != [] && AllSpace(gap2) && NoLineBreak(gap2)
    requires NoLineBreak(tail) && (tail == [] || IsSpace(tail[0]))
    ensures var line := name + gap1 + total + gap2 + used + tail;
      line != [] && NoLineBreak(line) && |Words(line)| >= 3 && Words(line)[2] == used
  {
    var line := name + gap1 + total + gap2 + used + tail;
    assert line == name + (gap1 + (total + (gap2 + (used + tail))));
    ThirdWord(name, gap1, total, gap2, used, tail);
    NoSpaceNoLineBreak(name);
    NoSpaceNoLineBreak(total);
    NoSpaceNoLineBreak(used);
    NoLineBreakConcat(name, gap1);
    NoLineBreakConcat(name + gap1, total);
    NoLineBreakConcat(name + gap1 + total, gap2);
    NoLineBreakConcat(name + gap1 + total + gap2, used);
    NoLineBreakConcat(name + gap1 + total + gap2 + used, tail);
  }

  /** `free -m` prints a header line and then `Mem: total used ...`: the
      used column, followed by `MB`. */
  lemma MemoryOfReading(header: string, line: string, more: string, name: string, total: string, used: string,
                        gap1: string, gap2: string, tail: string)
    requires NoLineBreak(header) && (more == [] || more[0] == '\n')
    requires line == name + gap1 + total + gap2 + used + tail
    requires name != [] && NoSpace(name) && total != [] && NoSpace(total) && used != [] && NoSpace(used)
    requires gap1 != [] && AllSpace(gap1) && NoLineBreak(gap1)
    requires gap2 != [] && AllSpace(gap2) && NoLineBreak(gap2)
    requires NoLineBreak(tail) && (tail == [] || IsSpace(tail[0]))
    ensures ParseMemory(Some(header + ("\n" + (line + more)))) == Some(used + "MB")
  {
    MemoryLine(name, gap1, total, gap2, used, tail);
    SecondLine(header, line, more);
  }

  /** The whole dictionary for the outputs the six commands print: each
      field comes from its own command. */
  lemma MetricsOfReadings(exec: Executor, hostname: string, volts: string, temp: string,
                          clockName: string, clock: string, loadPre: string, load: string, loadRest: string,
                          header: string, line: string, more: string, name: string, total: string, used: string,
                          gap1: string, gap2: string, tail: string, throttled: string)
    requires exec(hostname, VoltsCommand) == Some("volt=" + volts + "V") && '=' !in volts && 'V' !in volts
    requires exec(hostname, TempCommand) == Some("temp=" + temp + "'C") && '=' !in temp && '\'' !in temp
    requires exec(hostname, ClockCommand) == Some(clockName + "=" + clock) && '=' !in clockName && '=' !in clock
    requires exec(hostname, LoadCommand) == Some(loadPre + load + loadRest)
    requires AllSpace(loadPre) && load != [] && NoSpace(load) && (loadRest == [] || IsSpace(loadRest[0]))
    requires exec(hostname, MemoryCommand) == Some(header + ("\n" + (line + more)))
    requires NoLineBreak(header) && (more == [] || more[0] == '\n')
    requires line == name + gap1 + total + gap2 + used + tail
    requires name != [] && NoSpace(name) && total != [] && NoSpace(total) && used != [] && NoSpace(used)
    requires gap1 != [] && AllSpace(gap1) && NoLineBreak(gap1)
    requires gap2 != [] && AllSpace(gap2) && NoLineBreak(gap2)
    requires NoLineBreak(tail) && (tail == [] || IsSpace(tail[0]))
    requires exec(hostname, ThrottledCommand) == Some("throttled=" + throttled) && '=' !in throttled
    ensures GetRpiMetrics(exec, hostname) == Some(Metrics(volts, temp, clock, load, used + "MB", throttled))
  {
    VoltageOfReading(volts);
    TemperatureOfReading(temp);
    FrequencyOfReading(clockName, clock);
    LoadAverageOfReading(loadPre, load, loadRest);
    MemoryOfReading(header, line, more, name, total, used, gap1, gap2, tail);
    ThrottledOfReading(throttled);
  }

  /** A host whose output never arrives has no metrics: one missing command
      output is enough, the first one checked included. */
  lemma NoOutputNoMetrics(exec: Executor, hostname: string)
    requires exec(hostname, VoltsCommand).None?
    ensures GetRpiMetrics(exec, hostname).None?
  {
  }

  /** An unresolvable host yields no metrics, whatever the transport does. */
  lemma UnresolvedHostHasNoMetrics(resolves: string -> bool, transport: (string, string) -> Option<string>,
                                   hostname: string)
    requires !resolves(hostname)
    ensures GetRpiMetrics(SshExecutor(resolves, transport), hostname).None?
  {
    assert SshExecutor(resolves, transport)(hostname, VoltsCommand).None?;
  }
}
