/**
 * The emissions model: a fixed linear conversion from bytes transferred to
 * megabytes/gigabytes, from gigabytes to energy (kWh), and from energy to
 * grams of CO2-equivalent. Arithmetic is over exact reals; the source's
 * floating-point rounding is not modelled.
 */
module Emissions {

  /** Energy per gigabyte transferred, in kWh. */
  const KWH_PER_GB: real := 0.81
  /** Grid carbon intensity, in grams of CO2e per kWh. */
  const GRID_INTENSITY: real := 442.0

  const MIB: real := 1048576.0      // 1024 ** 2
  const GIB: real := 1073741824.0   // 1024 ** 3

  /** Bytes to (megabytes, gigabytes), binary units. */
  function BytesToMbGb(numBytes: int): (r: (real, real))
    ensures r.0 * MIB == numBytes as real
    ensures r.1 * GIB == numBytes as real
    ensures r.0 == r.1 * 1024.0
  {
    (numBytes as real / MIB, numBytes as real / GIB)
  }

  /** Bytes to (energy in kWh, grams of CO2e) under the given constants. */
  function Co2ForBytes(numBytes: int, kwhPerGb: real, gridIntensity: real): (r: (real, real))
    ensures r.0 * GIB == numBytes as real * kwhPerGb
    ensures r.1 == r.0 * gridIntensity
  {
    var (_, gb) := BytesToMbGb(numBytes);
    var energyKwh := gb * kwhPerGb;
    var co2Grams := energyKwh * gridIntensity;
    (energyKwh, co2Grams)
  }

  /** The conversion under the process-wide default constants. */
  function DefaultCo2ForBytes(numBytes: int): (r: (real, real))
    ensures r.0 * GIB == numBytes as real * KWH_PER_GB
    ensures r.1 * GIB == numBytes as real * (KWH_PER_GB * GRID_INTENSITY)
  {
    Co2ForBytes(numBytes, KWH_PER_GB, GRID_INTENSITY)
  }

  /** Zero bytes give zero megabytes, gigabytes, energy and CO2, whatever the constants. */
  lemma ZeroBytesZeroEmissions(kwhPerGb: real, gridIntensity: real)
    ensures BytesToMbGb(0) == (0.0, 0.0)
    ensures Co2ForBytes(0, kwhPerGb, gridIntensity) == (0.0, 0.0)
  {
    var (e, c) := Co2ForBytes(0, kwhPerGb, gridIntensity);
    assert e * GIB == 0.0;
    assert e == 0.0;
  }

  /** CO2 is the byte count times the product of both constants, divided by 1024^3. */
  lemma Co2Closed(numBytes: int, kwhPerGb: real, gridIntensity: real)
    ensures Co2ForBytes(numBytes, kwhPerGb, gridIntensity).1 * GIB
         == numBytes as real * (kwhPerGb * gridIntensity)
  {
    var (e, c) := Co2ForBytes(numBytes, kwhPerGb, gridIntensity);
    calc {
      c * GIB;
      (e * gridIntensity) * GIB;
      (e * GIB) * gridIntensity;
      (numBytes as real * kwhPerGb) * gridIntensity;
      numBytes as real * (kwhPerGb * gridIntensity);
    }
  }

  /** Energy and CO2 are additive in the byte count. */
  lemma Co2Additive(a: int, b: int, kwhPerGb: real, gridIntensity: real)
    ensures Co2ForBytes(a + b, kwhPerGb, gridIntensity).0
         == Co2ForBytes(a, kwhPerGb, gridIntensity).0 + Co2ForBytes(b, kwhPerGb, gridIntensity).0
    ensures Co2ForBytes(a + b, kwhPerGb, gridIntensity).1
         == Co2ForBytes(a, kwhPerGb, gridIntensity).1 + Co2ForBytes(b, kwhPerGb, gridIntensity).1
  {
    var ea := Co2ForBytes(a, kwhPerGb, gridIntensity).0;
    var eb := Co2ForBytes(b, kwhPerGb, gridIntensity).0;
    var eab := Co2ForBytes(a + b, kwhPerGb, gridIntensity).0;
    assert eab * GIB == (ea + eb) * GIB;
    assert eab == ea + eb;
    assert eab * gridIntensity == ea * gridIntensity + eb * gridIntensity;
  }

  /** With non-negative constants, energy and CO2 never decrease as bytes grow. */
  lemma Co2Monotone(a: int, b: int, kwhPerGb: real, gridIntensity: real)
    requires a <= b
    requires 0.0 <= kwhPerGb && 0.0 <= gridIntensity
    ensures Co2ForBytes(a, kwhPerGb, gridIntensity).0 <= Co2ForBytes(b, kwhPerGb, gridIntensity).0
    ensures Co2ForBytes(a, kwhPerGb, gridIntensity).1 <= Co2ForBytes(b, kwhPerGb, gridIntensity).1
  {
    Co2Additive(a, b - a, kwhPerGb, gridIntensity);
    var d := Co2ForBytes(b - a, kwhPerGb, gridIntensity);
    assert d.0 * GIB == (b - a) as real * kwhPerGb;
    assert 0.0 <= (b - a) as real * kwhPerGb;
    assert 0.0 <= d.0;
    assert 0.0 <= d.0 * gridIntensity;
  }

  /** Scaling either constant by a factor scales the CO2 figure by the same factor. */
  lemma Co2ScalesWithConstants(numBytes: int, kwhPerGb: real, gridIntensity: real, s: real)
    ensures Co2ForBytes(numBytes, s * kwhPerGb, gridIntensity).1
         == s * Co2ForBytes(numBytes, kwhPerGb, gridIntensity).1
    ensures Co2ForBytes(numBytes, kwhPerGb, s * gridIntensity).1
         == s * Co2ForBytes(numBytes, kwhPerGb, gridIntensity).1
  {
    var gb := BytesToMbGb(numBytes).1;
    assert Co2ForBytes(numBytes, s * kwhPerGb, gridIntensity).1 == (gb * (s * kwhPerGb)) * gridIntensity;
    assert (gb * (s * kwhPerGb)) * gridIntensity == s * ((gb * kwhPerGb) * gridIntensity);
    assert Co2ForBytes(numBytes, kwhPerGb, s * gridIntensity).1 == (gb * kwhPerGb) * (s * gridIntensity);
    assert (gb * kwhPerGb) * (s * gridIntensity) == s * ((gb * kwhPerGb) * gridIntensity);
  }
}
