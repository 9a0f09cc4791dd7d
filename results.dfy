/**
 * The measurement run: two visits to the same URL (cold cache, then warm
 * cache), each visit's byte total converted through the emissions model,
 * assembled into one result record; and the letter grade the page shows
 * for each visit, taken from the visit's unrounded CO2 figure.
 */
module Results {
  import opened Emissions
  import opened Grading
  import opened Accounting

  datatype VisitResult = VisitResult(bytes: int, mb: real, gb: real, energyKwh: real, co2G: real)

  datatype ModelInfo = ModelInfo(kwhPerGb: real, gridIntensityGPerKwh: real, notes: string)

  datatype MeasurementResult = MeasurementResult(
    url: string, model: ModelInfo, firstVisit: VisitResult, returnVisit: VisitResult)

  const NOTES: string :=
    "Estimates use Sustainable Web Design model constants. "
    + "Data transfer measured via headless Chromium + Playwright."

  /** The units of a visit record agree with its byte count under the default constants. */
  predicate ConsistentVisit(v: VisitResult) {
    && v.gb * GIB == v.bytes as real
    && v.mb == v.gb * 1024.0
    && v.energyKwh == v.gb * KWH_PER_GB
    && v.co2G == v.energyKwh * GRID_INTENSITY
  }

  /** The record of one visit, all of it derived from its byte count. */
  function VisitRecord(bytes: int): (v: VisitResult)
    ensures v.bytes == bytes && ConsistentVisit(v)
    ensures (v.mb, v.gb) == BytesToMbGb(bytes)
    ensures (v.energyKwh, v.co2G) == DefaultCo2ForBytes(bytes)
  {
    var (energyKwh, co2G) := DefaultCo2ForBytes(bytes);
    VisitResult(bytes, BytesToMbGb(bytes).0, BytesToMbGb(bytes).1, energyKwh, co2G)
  }

  /** A consistent visit record is determined by its byte count alone. */
  lemma ConsistentVisitIsVisitRecord(v: VisitResult)
    requires ConsistentVisit(v)
    ensures v == VisitRecord(v.bytes)
  {
    var w := VisitRecord(v.bytes);
    assert v.gb * GIB == w.gb * GIB;
    assert v.gb == w.gb;
  }

  /** The result record of a run whose visits transferred the given byte totals. */
  function BuildResults(url: string, firstBytes: int, secondBytes: int): (r: MeasurementResult)
    ensures r.url == url
    ensures r.model == ModelInfo(KWH_PER_GB, GRID_INTENSITY, NOTES)
    ensures r.firstVisit.bytes == firstBytes && ConsistentVisit(r.firstVisit)
    ensures r.returnVisit.bytes == secondBytes && ConsistentVisit(r.returnVisit)
  {
    MeasurementResult(
      url,
      ModelInfo(KWH_PER_GB, GRID_INTENSITY, NOTES),
      VisitRecord(firstBytes),
      VisitRecord(secondBytes))
  }

  /**
   * A full run: the first (cold) visit, then the second (warm) visit, each
   * as the browser's stream of responses for that page load.
   */
  method RunMeasurements(url: string, firstResponses: seq<Response>, secondResponses: seq<Response>)
    returns (r: MeasurementResult)
    ensures r.url == url
    ensures r.firstVisit == VisitRecord(VisitTotal(firstResponses))
    ensures r.returnVisit == VisitRecord(VisitTotal(secondResponses))
    ensures r.model == ModelInfo(KWH_PER_GB, GRID_INTENSITY, NOTES)
  {
    var firstBytes := MeasureVisit(firstResponses);
    var secondBytes := MeasureVisit(secondResponses);
    r := BuildResults(url, firstBytes, secondBytes);
    ConsistentVisitIsVisitRecord(r.firstVisit);
    ConsistentVisitIsVisitRecord(r.returnVisit);
  }

  /** The grade shown for a visit: its CO2 figure as computed, not as displayed after rounding. */
  function VisitGrade(v: VisitResult): (g: Grade)
    ensures ConsistentVisit(v) ==> g == GradeFromCo2(DefaultCo2ForBytes(v.bytes).1)
  {
    GradeFromCo2(v.co2G)
  }

  /** A visit that transferred more bytes never gets a better grade. */
  lemma MoreBytesNeverBetterGrade(a: int, b: int)
    requires a <= b
    ensures VisitGrade(VisitRecord(a)).Goodness() >= VisitGrade(VisitRecord(b)).Goodness()
  {
    Co2Monotone(a, b, KWH_PER_GB, GRID_INTENSITY);
    GradeMonotone(VisitRecord(a).co2G, VisitRecord(b).co2G);
  }

  /**
   * The grade bands expressed in bytes under the default constants
   * (0.81 kWh/GB, 442 g/kWh): every 1024^3 bytes is 358.02 g of CO2.
   */
  lemma GradeBandsInBytes(bytes: int)
    ensures VisitGrade(VisitRecord(bytes)) == A <==> bytes <= 1499555
    ensures VisitGrade(VisitRecord(bytes)) == B <==> 1499555 < bytes <= 2999111
    ensures VisitGrade(VisitRecord(bytes)) == C <==> 2999111 < bytes <= 4498666
    ensures VisitGrade(VisitRecord(bytes)) == D <==> 4498666 < bytes <= 5998222
    ensures VisitGrade(VisitRecord(bytes)) == F <==> 5998222 < bytes
  {
    var co2 := VisitRecord(bytes).co2G;
    Co2Closed(bytes, KWH_PER_GB, GRID_INTENSITY);
    assert co2 * GIB == bytes as real * 358.02;
  }
}
