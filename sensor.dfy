/**
 * The onboard sensor's conversion of a raw ADC sample to degrees Celsius,
 * in exact real arithmetic: `voltage = raw * 3.3 / 65535` and
 * `temperature = 27.0 + (voltage - 0.706) / -0.001721`.
 */
module Sensor {

  /** A sample as `read_u16()` returns it. */
  type RawSample = x: int | 0 <= x <= 65535

  /** Volts per ADC count of the 16-bit converter at a 3.3 V reference. */
  const VOLTAGE_CONVERSION: real := 3.3 / 65535.0
  /** The temperature at the anchor voltage. */
  const TEMP_OFFSET: real := 27.0
  /** The sensor's slope, in volts per degree. */
  const TEMP_SLOPE: real := -0.001721
  /** The sensor voltage at `TEMP_OFFSET`. */
  const ANCHOR_VOLTAGE: real := 0.706

  function Voltage(raw: real): real {
    raw * VOLTAGE_CONVERSION
  }

  /** The linear approximation from sensor voltage to degrees Celsius. */
  function CelsiusOfVoltage(v: real): (t: real)
    ensures (t - TEMP_OFFSET) * TEMP_SLOPE == v - ANCHOR_VOLTAGE
  {
    TEMP_OFFSET + (v - ANCHOR_VOLTAGE) / TEMP_SLOPE
  }

  /** The conversion extended to any real raw value, so that points between samples can be named. */
  function CelsiusOfRaw(raw: real): real {
    CelsiusOfVoltage(Voltage(raw))
  }

  /**
   * `read_temperature` for the sample the ADC delivered. The result is not
   * clamped: it lies between the values for the two extreme samples, about
   * -1480.26 for 65535 and about 437.23 for 0.
   */
  function ReadTemperature(raw: RawSample): (t: real)
    ensures 27.0 - 2594000.0 / 1721.0 <= t <= 27.0 + 706000.0 / 1721.0
  {
    CelsiusOfRaw(raw as real)
  }

  /** The conversion gives exactly 27.0 when, and only when, the voltage is the anchor 0.706 V. */
  lemma CelsiusIs27Iff(raw: real)
    ensures CelsiusOfRaw(raw) == TEMP_OFFSET <==> Voltage(raw) == ANCHOR_VOLTAGE
  {
  }

  /** The slope is negative: a higher raw reading always means a lower temperature. */
  lemma CelsiusStrictlyDecreasing(a: real, b: real)
    requires a < b
    ensures CelsiusOfRaw(a) > CelsiusOfRaw(b)
  {
  }

  /** The two extreme samples give these exact values. */
  lemma ReadTemperatureAtExtremes()
    ensures ReadTemperature(0) == 27.0 + 706000.0 / 1721.0
    ensures ReadTemperature(65535) == 27.0 - 2594000.0 / 1721.0
  {
  }

  /**
   * The anchor voltage falls between samples 14020 and 14021, so no sample
   * the ADC can deliver converts to exactly 27.0.
   */
  lemma NoSampleReadsExactly27(raw: RawSample)
    ensures ReadTemperature(raw) != TEMP_OFFSET
  {
    assert ReadTemperature(14020) > TEMP_OFFSET > ReadTemperature(14021);
    if raw <= 14020 {
      if raw < 14020 {
        CelsiusStrictlyDecreasing(raw as real, 14020.0);
      }
    } else {
      if raw > 14021 {
        CelsiusStrictlyDecreasing(14021.0, raw as real);
      }
    }
  }
}
