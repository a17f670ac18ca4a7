/** Conversion of sample positions to distances (backend/internal/algorithm/distance.go). */
module Distance {
  import opened Basics
  import opened Rounding

  const VACUUM_SPEED_M_PER_SECOND := 299792458.0
  const SECONDS_PER_NANOSECOND := 0.000000001

  predicate ValidSampling(sampleIntervalNS: real, refractiveIndex: real) {
    sampleIntervalNS > 0.0 && 1.3 <= refractiveIndex <= 1.7
  }

  /** One-way distance of a sample before rounding. */
  function RawDistance(index: int, sampleIntervalNS: real, refractiveIndex: real): real
    requires refractiveIndex > 0.0
  {
    var roundTripSeconds := index as real * sampleIntervalNS * SECONDS_PER_NANOSECOND;
    VACUUM_SPEED_M_PER_SECOND * roundTripSeconds / (2.0 * refractiveIndex)
  }

  function SampleDistance(index: int, sampleIntervalNS: real, refractiveIndex: real): Result<real> {
    if index < 0 then Err("sample index cannot be negative")
    else if sampleIntervalNS <= 0.0 then Err("sample interval must be positive")
    else if refractiveIndex < 1.3 || refractiveIndex > 1.7 then Err("refractive index outside 1.3-1.7")
    else Ok(RoundCenti(RawDistance(index, sampleIntervalNS, refractiveIndex)))
  }

  /** Exact reals are neither NaN nor infinite, so only the range is left to check. */
  predicate ValidRouteDistance(distance: real, routeLength: real) {
    0.0 <= distance <= routeLength
  }

  /** The rounded distance of a sample under valid sampling parameters. */
  function DistanceAt(index: nat, sampleIntervalNS: real, refractiveIndex: real): real
    requires ValidSampling(sampleIntervalNS, refractiveIndex)
  {
    RoundCenti(RawDistance(index, sampleIntervalNS, refractiveIndex))
  }

  lemma TimesQuotient(a: real, d: real)
    requires d > 0.0
    ensures d * (a / d) == a
  {}

  /** Light in the fibre goes to the sample's origin and back: twice the distance, at the speed of light over the index. */
  lemma LightGoesThereAndBack(index: int, sampleIntervalNS: real, refractiveIndex: real)
    requires ValidSampling(sampleIntervalNS, refractiveIndex)
    ensures 2.0 * refractiveIndex * RawDistance(index, sampleIntervalNS, refractiveIndex)
         == 0.299792458 * (index as real * sampleIntervalNS)
  {
    var t := index as real * sampleIntervalNS;
    TimesQuotient(VACUUM_SPEED_M_PER_SECOND * (t * SECONDS_PER_NANOSECOND), 2.0 * refractiveIndex);
  }

  /** `distance` is half the way of the light of a sample, to half a centimetre. */
  predicate Measures(distance: real, index: int, sampleIntervalNS: real, refractiveIndex: real) {
    -0.01 * refractiveIndex
    <= 2.0 * refractiveIndex * distance - 0.299792458 * (index as real * sampleIntervalNS)
    <= 0.01 * refractiveIndex
  }

  lemma ScaledError(n: real, distance: real, exact: real, way: real)
    requires n > 0.0 && -0.005 <= distance - exact <= 0.005 && 2.0 * n * exact == way
    ensures -0.01 * n <= 2.0 * n * distance - way <= 0.01 * n
  {
    var e := distance - exact;
    Distributes(n, exact, e);
    Scaled(n, e, 0.005);
    Scaled(n, -0.005, e);
    assert exact + e == distance;
    Doubled(n, distance);
    Doubled(n, exact);
    assert n * distance == n * exact + n * e;
    assert n * -0.005 <= n * e <= n * 0.005;
    assert 2.0 * n * distance - way == 2.0 * (n * e);
  }

  lemma Distributes(n: real, x: real, y: real)
    ensures n * (x + y) == n * x + n * y
  {}

  lemma Doubled(n: real, x: real)
    ensures 2.0 * n * x == 2.0 * (n * x)
  {}

  lemma Scaled(n: real, x: real, y: real)
    requires n > 0.0 && x <= y
    ensures n * x <= n * y
  {}

  lemma DistanceMeasures(index: nat, sampleIntervalNS: real, refractiveIndex: real)
    requires ValidSampling(sampleIntervalNS, refractiveIndex)
    ensures Measures(DistanceAt(index, sampleIntervalNS, refractiveIndex), index, sampleIntervalNS, refractiveIndex)
  {
    LightGoesThereAndBack(index, sampleIntervalNS, refractiveIndex);
    hide RoundCenti, RawDistance;
    var exact := RawDistance(index, sampleIntervalNS, refractiveIndex);
    RoundCentiLaws(exact, exact);
    assert 2.0 * refractiveIndex * exact == 0.299792458 * (index as real * sampleIntervalNS);
    var distance := DistanceAt(index, sampleIntervalNS, refractiveIndex);
    assert distance == RoundCenti(exact);
    ScaledError(refractiveIndex, distance, exact, 0.299792458 * (index as real * sampleIntervalNS));
  }

  /** Which samples have a distance, and what it measures. */
  lemma SampleDistanceMeasures(index: int, sampleIntervalNS: real, refractiveIndex: real)
    ensures var r := SampleDistance(index, sampleIntervalNS, refractiveIndex);
            && (r.Ok? <==> index >= 0 && sampleIntervalNS > 0.0 && 1.3 <= refractiveIndex <= 1.7)
            && (r.Ok? ==> Measures(r.value, index, sampleIntervalNS, refractiveIndex))
  {
    hide RoundCenti, RawDistance, Measures;
    if ValidSampling(sampleIntervalNS, refractiveIndex) && index >= 0 {
      DistanceMeasures(index, sampleIntervalNS, refractiveIndex);
    }
  }

  lemma ScaleQuotient(n: real, a: real, b: real, c: real, d: real)
    requires d > 0.0
    ensures a * (n * b * c) / d == n * (a * (1.0 * b * c) / d)
  {
    assert a * (n * b * c) == n * (a * (1.0 * b * c));
  }

  lemma QuotientPositive(a: real, d: real)
    requires a > 0.0 && d > 0.0
    ensures a / d > 0.0
  {}

  /** Unrounded distance is proportional to the index, with the distance of one sample as factor. */
  lemma RawDistanceLinear(index: int, sampleIntervalNS: real, refractiveIndex: real)
    requires ValidSampling(sampleIntervalNS, refractiveIndex)
    ensures RawDistance(1, sampleIntervalNS, refractiveIndex) > 0.0
    ensures RawDistance(index, sampleIntervalNS, refractiveIndex)
         == index as real * RawDistance(1, sampleIntervalNS, refractiveIndex)
  {
    ScaleQuotient(index as real, VACUUM_SPEED_M_PER_SECOND, sampleIntervalNS, SECONDS_PER_NANOSECOND,
                  2.0 * refractiveIndex);
    QuotientPositive(VACUUM_SPEED_M_PER_SECOND * (1.0 * sampleIntervalNS * SECONDS_PER_NANOSECOND),
                     2.0 * refractiveIndex);
  }

  lemma NonNegativeProduct(a: real, b: real)
    requires a >= 0.0 && b >= 0.0
    ensures a * b >= 0.0
  {}

  lemma ScaledGap(i: nat, j: nat, gap: nat, factor: real)
    requires i + gap <= j && factor >= 0.0
    ensures 0.0 <= i as real * factor <= j as real * factor
    ensures 0.0 <= gap as real * factor <= j as real * factor - i as real * factor
  {
    var rest := (j - i - gap) as real;
    NonNegativeProduct(i as real, factor);
    NonNegativeProduct(gap as real, factor);
    NonNegativeProduct(rest, factor);
    assert j as real == i as real + gap as real + rest;
    assert (i as real + gap as real + rest) * factor == i as real * factor + gap as real * factor + rest * factor;
  }

  lemma RoundedGap(x: real, y: real, gap: real)
    requires 0.0 <= x <= y && y - x >= gap
    ensures 0.0 <= RoundCenti(x) <= RoundCenti(y)
    ensures RoundCenti(y) - RoundCenti(x) >= gap - 0.01
  {
    hide RoundCenti;
    RoundCentiLaws(x, y);
    RoundCentiLaws(y, y);
  }

  /**
   * Later samples are never reported nearer, no sample is reported before the origin, and
   * samples `gap` positions apart keep `gap` one-sample distances between them, less one centimetre.
   */
  lemma DistanceSpread(i: nat, j: nat, gap: nat, sampleIntervalNS: real, refractiveIndex: real)
    requires ValidSampling(sampleIntervalNS, refractiveIndex)
    requires i + gap <= j
    ensures var near := DistanceAt(i, sampleIntervalNS, refractiveIndex);
            var far := DistanceAt(j, sampleIntervalNS, refractiveIndex);
            && 0.0 <= near <= far
            && far - near >= gap as real * RawDistance(1, sampleIntervalNS, refractiveIndex) - 0.01
  {
    hide RoundCenti, RawDistance;
    var one := RawDistance(1, sampleIntervalNS, refractiveIndex);
    RawDistanceLinear(i, sampleIntervalNS, refractiveIndex);
    RawDistanceLinear(j, sampleIntervalNS, refractiveIndex);
    ScaledGap(i, j, gap, one);
    RoundedGap(RawDistance(i, sampleIntervalNS, refractiveIndex), RawDistance(j, sampleIntervalNS, refractiveIndex),
               gap as real * one);
  }
}
