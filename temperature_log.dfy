/**
 * One call of `log_temperature` and the loop that repeats it, over an
 * abstract file system that maps each file name to the lines appended to it.
 */
module TemperatureLog {
  import opened Options
  import opened Decimal
  import opened LogFormat
  import opened Sensor

  /** The outcome of `read_temperature`: a sample, or a failure that raises inside the `try`. */
  datatype Reading = Sampled(raw: RawSample) | SensorFailed

  /**
   * What one call observes of the world outside the program: the sensor;
   * the clock as read for the timestamp, `None` when that read raises; the
   * clock as read again by `get_log_file_path`; and whether the month's file
   * could be opened and written. A second clock read that raises ends the
   * call at the same point as a file that cannot be opened, before anything
   * is written, so it is the case `fileWritable == false`.
   */
  datatype Observation = Observation(reading: Reading, stampClock: Option<Clock>, fileClock: Clock, fileWritable: bool)

  /** Each log file's lines, oldest first. A file that was never created is absent. */
  type LogFiles = map<string, seq<string>>

  /** The lines of a file, none if it does not exist. */
  function Lines(files: LogFiles, name: string): seq<string> {
    if name in files then files[name] else []
  }

  /** The call builds its entry and prints it: the sensor and the first clock read both return. */
  predicate Prints(obs: Observation) {
    obs.reading.Sampled? && obs.stampClock.Some?
  }

  /** The call reaches the write and the write succeeds. */
  predicate Succeeds(obs: Observation) {
    Prints(obs) && obs.fileWritable
  }

  /** The call appends its entry to the file `name`. */
  predicate WritesTo(obs: Observation, name: string) {
    Succeeds(obs) && FileOf(obs) == name
  }

  /** The file `get_log_file_path` names for this call. */
  function FileOf(obs: Observation): string {
    LogFileName(obs.fileClock.year, obs.fileClock.month)
  }

  /** The entry built for a successful read, the temperature rendered by `render` (`{:.2f}`). */
  function EntryOf(obs: Observation, render: real -> string): string
    requires Prints(obs)
  {
    LogEntry(FormatTimestamp(obs.stampClock.value), render(ReadTemperature(obs.reading.raw)))
  }

  /**
   * Opening `name` in append mode and writing `line`: the file gets `line` at
   * its end, and is created first if it does not exist; no other file changes.
   */
  function Append(files: LogFiles, name: string, line: string): (r: LogFiles)
    ensures r.Keys == files.Keys + {name}
    ensures Lines(r, name) == Lines(files, name) + [line]
    ensures forall other :: other != name ==> Lines(r, other) == Lines(files, other)
  {
    files[name := Lines(files, name) + [line]]
  }

  /**
   * The file system after one call: on success the entry is appended to the
   * month's file, which is created if absent; on any failure nothing changes.
   */
  function Step(files: LogFiles, obs: Observation, render: real -> string): (r: LogFiles)
    ensures !Succeeds(obs) ==> r == files
    ensures Succeeds(obs) ==> r.Keys == files.Keys + {FileOf(obs)}
    ensures Succeeds(obs) ==> Lines(r, FileOf(obs)) == Lines(files, FileOf(obs)) + [EntryOf(obs, render)]
    ensures forall name :: name != FileOf(obs) ==> Lines(r, name) == Lines(files, name)
  {
    if Succeeds(obs) then Append(files, FileOf(obs), EntryOf(obs, render)) else files
  }

  /** The file system after the loop has made one call per observation, in order. */
  function Run(files: LogFiles, observations: seq<Observation>, render: real -> string): LogFiles
  {
    if observations == [] then files
    else
      var last := |observations| - 1;
      Step(Run(files, observations[..last], render), observations[last], render)
  }

  /** The entries that the calls of `observations` append to the file `name`, in order. */
  function EntriesFor(observations: seq<Observation>, name: string, render: real -> string): seq<string>
  {
    if observations == [] then []
    else
      var last := |observations| - 1;
      var obs := observations[last];
      EntriesFor(observations[..last], name, render)
        + if WritesTo(obs, name) then [EntryOf(obs, render)] else []
  }

  /**
   * After any sequence of calls each file holds its earlier lines followed by
   * exactly the entries of the calls that wrote to it, in call order.
   */
  lemma {:induction false} RunAppendsInOrder(files: LogFiles, observations: seq<Observation>,
                                             name: string, render: real -> string)
    ensures Lines(Run(files, observations, render), name)
         == Lines(files, name) + EntriesFor(observations, name, render)
  {
    if observations != [] {
      var last := |observations| - 1;
      RunAppendsInOrder(files, observations[..last], name, render);
    }
  }

  /** The entries that the calls print, one for each call that read the sensor and the clock, in call order. */
  function PrintedEntries(observations: seq<Observation>, render: real -> string): (r: seq<string>)
    ensures |r| <= |observations|
  {
    if observations == [] then []
    else
      var last := |observations| - 1;
      var obs := observations[last];
      PrintedEntries(observations[..last], render)
        + if Prints(obs) then [EntryOf(obs, render)] else []
  }

  /** When every call reads the sensor and the clock, each call prints exactly one entry. */
  lemma {:induction false} PrintedEntriesLength(observations: seq<Observation>, render: real -> string)
    requires forall j :: 0 <= j < |observations| ==> Prints(observations[j])
    ensures |PrintedEntries(observations, render)| == |observations|
  {
    if observations != [] {
      PrintedEntriesLength(observations[..|observations| - 1], render);
    }
  }

  /** When every call reads the sensor and the clock, the i-th printed entry is the i-th call's. */
  lemma {:induction false} PrintedEntriesAt(observations: seq<Observation>, render: real -> string, i: nat)
    requires forall j :: 0 <= j < |observations| ==> Prints(observations[j])
    requires i < |observations|
    ensures |PrintedEntries(observations, render)| == |observations|
    ensures PrintedEntries(observations, render)[i] == EntryOf(observations[i], render)
  {
    PrintedEntriesLength(observations, render);
    var last := |observations| - 1;
    var earlier := observations[..last];
    PrintedEntriesLength(earlier, render);
    assert PrintedEntries(observations, render)
        == PrintedEntries(earlier, render) + [EntryOf(observations[last], render)];
    SnocAt(PrintedEntries(earlier, render), EntryOf(observations[last], render), i);
    if i < last {
      PrintedEntriesAt(earlier, render, i);
      assert earlier[i] == observations[i];
    }
  }

  lemma SnocAt<T>(xs: seq<T>, x: T, i: nat)
    requires i <= |xs|
    ensures (xs + [x])[i] == if i < |xs| then xs[i] else x
  {
  }

  /** Calls that all write to the same file append exactly their entries there, in order. */
  lemma {:induction false} EntriesWithinOneFile(observations: seq<Observation>, name: string,
                                                render: real -> string)
    requires forall i :: 0 <= i < |observations| ==> WritesTo(observations[i], name)
    ensures EntriesFor(observations, name, render) == PrintedEntries(observations, render)
  {
    if observations != [] {
      var last := |observations| - 1;
      EntriesWithinOneFile(observations[..last], name, render);
    }
  }

  /** Calls none of which writes to `name` append nothing to it. */
  lemma {:induction false} NoEntriesForOtherFiles(observations: seq<Observation>, name: string,
                                                  render: real -> string)
    requires forall i :: 0 <= i < |observations| ==> !WritesTo(observations[i], name)
    ensures EntriesFor(observations, name, render) == []
  {
    if observations != [] {
      NoEntriesForOtherFiles(observations[..|observations| - 1], name, render);
    }
  }

  /**
   * N successful calls within one month leave that month's file with its
   * earlier lines followed by exactly N entries, the i-th from the i-th call.
   */
  lemma RunWithinOneMonth(files: LogFiles, observations: seq<Observation>, year: nat, month: nat,
                          render: real -> string)
    requires forall i :: 0 <= i < |observations| ==>
      Prints(observations[i]) && observations[i].fileWritable &&
      observations[i].fileClock.year == year && observations[i].fileClock.month == month
    ensures var before := Lines(files, LogFileName(year, month));
      var after := Lines(Run(files, observations, render), LogFileName(year, month));
      && after == before + PrintedEntries(observations, render)
      && |after| == |before| + |observations|
      && forall i :: 0 <= i < |observations| ==> after[|before| + i] == EntryOf(observations[i], render)
  {
    var name := LogFileName(year, month);
    assert forall i :: 0 <= i < |observations| ==> WritesTo(observations[i], name);
    RunAppendsInOrder(files, observations, name, render);
    EntriesWithinOneFile(observations, name, render);
    PrintedEntriesLength(observations, render);
    var before := Lines(files, name);
    var printed := PrintedEntries(observations, render);
    forall i | 0 <= i < |observations|
      ensures (before + printed)[|before| + i] == EntryOf(observations[i], render)
    {
      PrintedEntriesAt(observations, render, i);
      ConcatAt(before, printed, i);
    }
  }

  lemma ConcatAt<T>(xs: seq<T>, ys: seq<T>, i: nat)
    requires i < |ys|
    ensures (xs + ys)[|xs| + i] == ys[i]
  {
  }

  /**
   * Once the clock has moved on from a month, the calls that follow leave
   * that month's file as it was: there is no cross-month mixing.
   */
  lemma RunLeavesOtherMonthsAlone(files: LogFiles, observations: seq<Observation>, year: nat, month: nat,
                                  render: real -> string)
    requires month < 100
    requires forall i :: 0 <= i < |observations| ==>
      observations[i].fileClock.month < 100 &&
      (observations[i].fileClock.year, observations[i].fileClock.month) != (year, month)
    ensures Lines(Run(files, observations, render), LogFileName(year, month)) == Lines(files, LogFileName(year, month))
  {
    var name := LogFileName(year, month);
    forall i | 0 <= i < |observations|
      ensures !WritesTo(observations[i], name)
    {
      var c := observations[i].fileClock;
      if FileOf(observations[i]) == name {
        LogFileNameInjective(c.year, c.month, year, month);
      }
    }
    NoEntriesForOtherFiles(observations, name, render);
    RunAppendsInOrder(files, observations, name, render);
  }

  /**
   * When the two clock reads of a call fall in the same month, the entry's
   * own timestamp names the file it is written to.
   */
  lemma EntryLandsInItsOwnMonth(obs: Observation, render: real -> string)
    requires Prints(obs) && FitsFieldWidths(obs.stampClock.value) && obs.fileClock.month < 100
    requires obs.stampClock.value.year == obs.fileClock.year && obs.stampClock.value.month == obs.fileClock.month
    ensures ParseLogEntry(EntryOf(obs, render)).Some?
    ensures var t := ParseLogEntry(EntryOf(obs, render)).value.0;
      ParseLogFileName(FileOf(obs)) == Some((t.year, t.month))
  {
    ParseLogEntryRoundTrip(obs.stampClock.value, render(ReadTemperature(obs.reading.raw)));
    ParseLogFileNameRoundTrip(obs.fileClock.year, obs.fileClock.month);
  }

  /**
   * The clock is read twice, so a call that straddles midnight at the end of
   * March writes an entry stamped 2024-03-31 23:59:59 into the April file.
   */
  lemma MonthBoundaryCanMisfile(render: real -> string)
    ensures var obs := Observation(Sampled(14020), Some(Clock(2024, 3, 31, 23, 59, 59)), Clock(2024, 4, 1, 0, 0, 0), true);
      && Succeeds(obs)
      && ParseLogFileName(FileOf(obs)) == Some((2024, 4))
      && ParseLogEntry(EntryOf(obs, render)).Some?
      && ParseLogEntry(EntryOf(obs, render)).value.0.month == 3
  {
    var obs := Observation(Sampled(14020), Some(Clock(2024, 3, 31, 23, 59, 59)), Clock(2024, 4, 1, 0, 0, 0), true);
    assert Pow10(4) == 10000 && Pow10(2) == 100;
    ParseLogEntryRoundTrip(obs.stampClock.value, render(ReadTemperature(14020)));
    ParseLogFileNameRoundTrip(2024, 4);
  }

  /** The store of monthly log files that `log_temperature` appends to. */
  class MonthlyLogStore {
    var files: LogFiles

    constructor ()
      ensures files == map[]
    {
      files := map[];
    }

    /**
     * One call of `log_temperature`. Returns the entry it prints to the
     * console, which is printed as soon as it is built, before the file is
     * opened, and so also when the write then fails. A sensor or first clock
     * read that raises ends the call before anything is printed.
     */
    method LogTemperature(obs: Observation, render: real -> string) returns (printed: Option<string>)
      modifies this
      ensures files == Step(old(files), obs, render)
      ensures printed == if Prints(obs) then Some(EntryOf(obs, render)) else None
    {
      match obs.reading
      case SensorFailed =>
        printed := None;
      case Sampled(raw) =>
        var temperature := ReadTemperature(raw);
        match obs.stampClock
        case None =>
          printed := None;
        case Some(now) =>
          var formattedTime := FormatTimestamp(now);
          var entry := LogEntry(formattedTime, render(temperature));
          printed := Some(entry);
          var logFile := LogFileName(obs.fileClock.year, obs.fileClock.month);
          if obs.fileWritable {
            var existing := if logFile in files then files[logFile] else [];
            files := files[logFile := existing + [entry]];
          }
    }

    /**
     * The main loop, for as many iterations as there are observations.
     * Returns the console output of the calls, the entries in call order.
     */
    method RunLoop(observations: seq<Observation>, render: real -> string) returns (printed: seq<string>)
      modifies this
      ensures files == Run(old(files), observations, render)
      ensures printed == PrintedEntries(observations, render)
    {
      printed := [];
      var i := 0;
      while i < |observations|
        invariant 0 <= i <= |observations|
        invariant files == Run(old(files), observations[..i], render)
        invariant printed == PrintedEntries(observations[..i], render)
      {
        assert observations[..i + 1][..i] == observations[..i];
        var entry := LogTemperature(observations[i], render);
        printed := printed + if entry.Some? then [entry.value] else [];
        i := i + 1;
      }
      assert observations[..i] == observations;
    }
  }
}
