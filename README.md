# Monthly temperature logger, modelled in Dafny

The program samples a microcontroller's onboard temperature sensor every
15 minutes. It converts the 16-bit ADC reading to degrees Celsius with a
fixed linear formula and appends one timestamped line to a log file named
after the current month (`temperature_YYYY_MM.txt`). Every failure inside
one logging call is caught and reported, and the loop carries on.

The model covers the program's three pieces of deterministic logic:

- **Decimal padding** (`decimal.dfy`, module `Decimal`): Python's `{:0w}` for
  non-negative integers. The digits are left-padded with `'0'` and never
  truncated. A parser reads a digit string back.
- **Names and lines** (`log_format.dfy`, module `LogFormat`): the monthly file
  name, the `YYYY-MM-DD HH:MM:SS` timestamp and the log entry
  `<timestamp> - Temperature: <value>°C\n`. Each has a parser, and the lemmas
  prove shape, parse-back and injectivity for all three. The file name and the
  timestamp also have a fixed length. An entry's length depends on its
  temperature text.
- **The conversion** (`sensor.dfy`, module `Sensor`): `27.0 + (raw * 3.3/65535 - 0.706) / -0.001721`
  in exact real arithmetic, with its anchor point, bounds and monotonicity.
- **The append step** (`temperature_log.dfy`, module `TemperatureLog`): the file
  system is a `map<string, seq<string>>` from file name to lines. The class
  `MonthlyLogStore` holds it in a field `files`.
  - `LogTemperature` is one call of `log_temperature`.
  - `RunLoop` is a finite prefix of the `while True` loop.
  - Both are specified by the pure functions `Step` and `Run`, and the lemmas
    beside them state the program's promises: one record per successful
    call, appended at the end; earlier lines unchanged; other files
    unchanged; nothing written on failure; no mixing across months.

A few choices follow the code closely:

- **The clock is read twice.** `log_temperature` reads `utime.localtime()`
  for the timestamp (onboard_sensor_measure.py:31). `get_log_file_path` reads
  it again for the file name (onboard_sensor_measure.py:21). An
  `Observation` therefore carries two clocks, `stampClock` and `fileClock`.
  - `EntryLandsInItsOwnMonth` proves that when both reads fall in the same
    month, the entry's timestamp names the file it lands in.
  - `MonthBoundaryCanMisfile` shows a call that straddles midnight on 31 March
    2024: the entry stamped `2024-03-31 23:59:59` goes into
    `temperature_2024_04.txt`.
- **Three failure paths.** Each of these leaves every file unchanged:
  - a sensor read that raises (onboard_sensor_measure.py:30);
  - a first clock read that raises (onboard_sensor_measure.py:31), where
    `stampClock` is `None`;
  - a file that cannot be opened or written (onboard_sensor_measure.py:43-44).
    A second clock read that raises (onboard_sensor_measure.py:21) ends the
    call at the same point, before anything is written, so it is also the
    case `fileWritable == false`.

  The entry is printed to the console before the file is opened
  (onboard_sensor_measure.py:39). So `LogTemperature` returns the printed
  entry whenever the sensor and the first clock read both returned, even when
  the write then fails. The first two failures print nothing.
- **No sample reads exactly 27.0.** The anchor voltage 0.706 V corresponds to
  raw ≈ 14020.5, which is not an integer. `NoSampleReadsExactly27` proves
  this, and `CelsiusOfRaw` lets the anchor point be stated at a real raw value.
- **Foreign values are parameters.** The ADC sample, both clock reads and
  whether the file can be written are fields of `Observation`. The
  two-decimal rendering `{:.2f}` of the float temperature is a function
  parameter `render: real -> string`.

## Model

| member | source | states |
|---|---|---|
| Decimal.Digits | onboard_sensor_measure.py:24 | the decimal digits of a number: as many as `NumDigits` counts, all digit characters, no leading zero unless the number is 0 |
| Decimal.NumDigitsBounds | onboard_sensor_measure.py:24 | `NumDigits(n)` is the number of decimal digits: `10^(k-1) <= n < 10^k` |
| Decimal.PadIntShape | onboard_sensor_measure.py:24 | `{:0w}` output has length `max(w, digits of n)`, is all digits, ends with every digit of `n` (never truncates) and has only '0' before them |
| Decimal.PadIntFixedWidth | onboard_sensor_measure.py:32-35 | a number below `10^w` is rendered in exactly `w` digit characters |
| Decimal.PadIntRoundTrip | onboard_sensor_measure.py:24 | reading the padded text as a decimal number gives back `n`, for every width |
| Decimal.PadIntInjective | onboard_sensor_measure.py:24 | distinct numbers never share a padded rendering, even at different widths |
| LogFormat.LogFileNameShape | onboard_sensor_measure.py:24 | for year < 10000 and month < 100 the name is `temperature_` + 4 digits + `_` + 2 digits + `.txt`, 23 characters, and the digit groups read back as year and month |
| LogFormat.ParseLogFileNameRoundTrip | onboard_sensor_measure.py:24 | the file name of any year (a year above 9999 keeps all its digits) and of any month below 100 parses back to that year and month |
| LogFormat.LogFileNameInjective | onboard_sensor_measure.py:19-25 | distinct (year, month) pairs give distinct file names, so each month has its own log file |
| LogFormat.LogFileNameMarch2024 | onboard_sensor_measure.py:24 | year 2024, month 3 gives `temperature_2024_03.txt` |
| LogFormat.TimestampShape | onboard_sensor_measure.py:32-35 | an in-range timestamp has 19 characters, '-' at 4 and 7, ' ' at 10, ':' at 13 and 16, digits everywhere else, and no newline |
| LogFormat.ParseTimestampRoundTrip | onboard_sensor_measure.py:32-35 | parsing an in-range timestamp recovers all six clock fields |
| LogFormat.FormatTimestampInjective | onboard_sensor_measure.py:32-35 | distinct in-range clocks give distinct timestamps |
| LogFormat.LogEntryShape | onboard_sensor_measure.py:38 | an entry is the timestamp, ` - Temperature: `, the text and `°C\n`: it starts with the timestamp, ends with a newline, and that newline is its only one when neither part holds a newline |
| LogFormat.ParseLogEntryRoundTrip | onboard_sensor_measure.py:38 | an entry built from an in-range clock parses back to that clock and that temperature text |
| LogFormat.LogEntryInjective | onboard_sensor_measure.py:32-38 | two entries built from in-range clocks are equal only when their clocks and temperature texts are equal |
| Sensor.CelsiusOfVoltage | onboard_sensor_measure.py:16 | the result `t` satisfies `(t - 27.0) * -0.001721 == v - 0.706`: the linear law read backwards |
| Sensor.ReadTemperature | onboard_sensor_measure.py:12-17 | every sample 0..65535 converts to a value between 27 - 2594000/1721 (about -1480.26) and 27 + 706000/1721 (about 437.23), unclamped |
| Sensor.CelsiusIs27Iff | onboard_sensor_measure.py:8-16 | the conversion gives 27.0 when, and only when, the voltage is 0.706 V |
| Sensor.CelsiusStrictlyDecreasing | onboard_sensor_measure.py:10-16 | a higher raw reading always gives a strictly lower temperature |
| Sensor.ReadTemperatureAtExtremes | onboard_sensor_measure.py:14-16 | exact values of the conversion for samples 0 and 65535 |
| Sensor.NoSampleReadsExactly27 | onboard_sensor_measure.py:8-16 | no integer sample converts to exactly 27.0, since the anchor lies between samples 14020 and 14021 |
| TemperatureLog.Append | onboard_sensor_measure.py:43-44 | append mode: the file gets the line at its end and is created if absent; every other file keeps its lines |
| TemperatureLog.Step | onboard_sensor_measure.py:29-47 | a successful call appends exactly its entry to the file named by its second clock read; a sensor, clock or file failure leaves every file unchanged |
| TemperatureLog.MonthlyLogStore.LogTemperature | onboard_sensor_measure.py:27-47 | the store's new `files` is `Step` of the old; the entry is printed exactly when the sensor and the first clock read both returned, and nothing is printed otherwise |
| TemperatureLog.MonthlyLogStore.RunLoop | onboard_sensor_measure.py:50-52 | after one call per observation the store is `Run` of the old store, and the console output is `PrintedEntries` of the observations |
| TemperatureLog.RunAppendsInOrder | onboard_sensor_measure.py:42-44 | after any sequence of calls each file holds its earlier lines followed by exactly the entries of the calls that wrote to it, in call order |
| TemperatureLog.PrintedEntriesLength | onboard_sensor_measure.py:38-39 | when every call reads the sensor and the clock, each call prints exactly one entry |
| TemperatureLog.PrintedEntriesAt | onboard_sensor_measure.py:38-39 | when every call reads the sensor and the clock, the i-th printed entry is the i-th call's |
| TemperatureLog.EntriesWithinOneFile | onboard_sensor_measure.py:42-44 | calls that all write to one file append exactly their entries there, in order |
| TemperatureLog.NoEntriesForOtherFiles | onboard_sensor_measure.py:42-44 | calls that do not write to a file append nothing to it |
| TemperatureLog.RunWithinOneMonth | onboard_sensor_measure.py:50-52 | N successful calls in one month leave that month's file with its old lines and then exactly N new entries, the i-th from the i-th call |
| TemperatureLog.RunLeavesOtherMonthsAlone | onboard_sensor_measure.py:19-25 | calls whose file clock is in another month leave a month's file exactly as it was |
| TemperatureLog.EntryLandsInItsOwnMonth | onboard_sensor_measure.py:29-44 | when both clock reads of a call fall in one month, the year and month parsed from the entry name the file it is written to |
| TemperatureLog.MonthBoundaryCanMisfile | onboard_sensor_measure.py:31-42 | with the two clock reads straddling a month boundary, an entry stamped in March is written to the April file |

## Left out

- Hardware ADC access (`machine.ADC(4)`, `read_u16()`): a foreign hardware call. The sample is a `RawSample` field, and a failed read is the `SensorFailed` case.
- The real-time clock (`utime.localtime()`): a foreign clock. Its two reads per call are fields of `Observation`, and a first read that raises is `None`.
- TemperatureLog.MonthlyLogStore.LogTemperature: the formatting at onboard_sensor_measure.py:32-38 is taken never to raise. Its inputs are non-negative clock fields and a real temperature, and for those it cannot fail. A second clock read that raises is not a case of its own: it is represented by `fileWritable == false`, which has the same effect.
- Real file I/O (`open(..., "a")`, `write`, `close`): replaced by the map of line sequences. A write that fails halfway and leaves a partial line is not modelled: a failed write changes nothing.
- Console output: the error message, and the `Starting monthly temperature logging...` line printed at the end of every call. `LogTemperature` returns the printed entry only.
- The infinite `while True` loop and the 15-minute `utime.sleep`: `RunLoop` and `Run` model any finite number of iterations. Timing is not modelled.
- Floating-point rounding: the conversion is exact `real` arithmetic. The `{:.2f}` rendering is the `render` parameter.
- Negative clock fields: the clock gives non-negative fields, so the fields are `nat` and Python's sign handling in `{:04}` does not arise.
- Python's text types: strings are sequences of Unicode characters, with no encoding to bytes.
