/**
 * Coordinates, bearings and the azimuth-match predicate of the traffic
 * correlation engine.
 *
 * The ellipsoidal geodesy (great-circle distance and the initial bearing of
 * the WGS84 inverse problem) is computed by foreign libraries; here it is an
 * uninterpreted `Geodesy` value handed in by the caller.  What the engine does
 * with the library's answers (normalising the bearing, folding the bearing
 * difference the short way round, comparing it with the tolerance arc) is
 * modelled exactly.
 */
module Geo {

  datatype Option<T> = None | Some(value: T)

  /** A latitude/longitude pair, in degrees. */
  datatype Coord = Coord(lat: real, lon: real)

  /**
   * The two foreign geodesy computations.  `distance(a, b)` is the distance in
   * metres from `a` to `b`; `inverseAzimuth(a, b)` is the raw initial bearing
   * (`azi1`, degrees in [-180, 180]) of the geodesic from `a` to `b`.  `None`
   * stands for the ValueError the library raises on malformed input, which the
   * source catches and turns into a missing value.
   */
  datatype Geodesy = Geodesy(
    distance: (Coord, Coord) -> Option<real>,
    inverseAzimuth: (Coord, Coord) -> Option<real>)

  /** The tolerance half-width the source uses when none is given. */
  const DefaultArc: real := 60.0

  function Abs(x: real): real {
    if x < 0.0 then -x else x
  }

  function Min(x: real, y: real): real {
    if x <= y then x else y
  }

  /** `x` is a whole number of full turns. */
  predicate IsWholeTurns(x: real) {
    (x / 360.0).Floor as real == x / 360.0
  }

  /**
   * Python's `x % 360` on floats: the remainder of flooring division, which
   * always carries the sign of the (positive) modulus.
   */
  function FloorMod360(x: real): (r: real)
    ensures 0.0 <= r < 360.0
    ensures IsWholeTurns(x - r)
  {
    var q := (x / 360.0).Floor;
    var r := x - 360.0 * (q as real);
    assert (x - r) / 360.0 == q as real;
    r
  }

  /** A whole number of turns, subtracted from one turn, is still whole. */
  lemma WholeTurnsComplement(y: real)
    requires IsWholeTurns(y)
    ensures IsWholeTurns(360.0 - y)
  {
    var k := (y / 360.0).Floor;
    var q := (360.0 - y) / 360.0;
    assert q == 1.0 - y / 360.0;
    assert q == (1 - k) as real;
    assert q.Floor == 1 - k;
  }

  /** The normalisation step of `azimuth`: `(brng + 360) % 360`. */
  function NormalizeBearing(brng: real): (r: real)
    ensures 0.0 <= r < 360.0
    ensures IsWholeTurns(r - brng)
  {
    var r := FloorMod360(brng + 360.0);
    WholeTurnsComplement(brng + 360.0 - r);
    assert 360.0 - (brng + 360.0 - r) == r - brng;
    r
  }

  /**
   * On the range the geodesic library produces, normalisation leaves a
   * non-negative bearing alone and turns a negative one by a full circle.
   */
  lemma NormalizeGeodesicBearing(brng: real)
    requires -180.0 <= brng <= 180.0
    ensures brng < 0.0 ==> NormalizeBearing(brng) == brng + 360.0
    ensures 0.0 <= brng ==> NormalizeBearing(brng) == brng
  {
    var q := (brng + 360.0) / 360.0;
    if brng < 0.0 {
      assert 0.0 <= q < 1.0;
      assert q.Floor == 0;
    } else {
      assert 1.0 <= q < 2.0;
      assert q.Floor == 1;
    }
  }

  /** A bearing already in [0, 360) is left unchanged. */
  lemma NormalizeBearingFixesCompassRange(brng: real)
    requires 0.0 <= brng < 360.0
    ensures NormalizeBearing(brng) == brng
  {
    var q := (brng + 360.0) / 360.0;
    assert 1.0 <= q < 2.0;
    assert q.Floor == 1;
  }

  /**
   * `azimuth(point_1, point_2)`: the initial bearing from `from` to `to`,
   * normalised to the compass range, or `None` when the library fails.  No
   * sentinel is produced for `from == to`: whatever the library answers is
   * normalised like any other bearing.
   */
  function Azimuth(from: Coord, to: Coord, geo: Geodesy): (r: Option<real>)
    ensures r.None? <==> geo.inverseAzimuth(from, to).None?
    ensures r.Some? ==> 0.0 <= r.value < 360.0
    ensures r.Some? ==> IsWholeTurns(r.value - geo.inverseAzimuth(from, to).value)
  {
    match geo.inverseAzimuth(from, to)
    case None => None
    case Some(brng) => Some(NormalizeBearing(brng))
  }

  /**
   * Reference definition of the angle between two compass bearings in
   * [0, 360]: the smallest gap between `a` and any of the representatives
   * `b - 360`, `b`, `b + 360` of `b`.
   */
  function CircularDistance(a: real, b: real): real {
    Min(Abs(a - b), Min(Abs(a - b - 360.0), Abs(a - b + 360.0)))
  }

  /**
   * The difference `check_azimuth_difference` compares with the arc: the
   * absolute difference, replaced by `360 - difference` above 180.  For
   * compass bearings it is the circular distance and lies in [0, 180].
   */
  function FoldedDifference(a: real, b: real): (d: real)
    ensures 0.0 <= a <= 360.0 && 0.0 <= b <= 360.0 ==>
              d == CircularDistance(a, b) && 0.0 <= d <= 180.0
  {
    var difference := Abs(a - b);
    if difference > 180.0 then 360.0 - difference else difference
  }

  /**
   * `check_azimuth_difference`: does the observed bearing lie within `arc`
   * degrees of the sector azimuth?  The bound is inclusive.  For compass
   * bearings this is exactly "circular distance at most `arc`", and every
   * pair passes once `arc` reaches 180.
   */
  function CheckAzimuthDifference(checkAzimuth: real, callAzimuth: real, arc: real := DefaultArc): (ok: bool)
    ensures 0.0 <= checkAzimuth <= 360.0 && 0.0 <= callAzimuth <= 360.0 ==>
              (ok <==> CircularDistance(checkAzimuth, callAzimuth) <= arc)
    ensures 0.0 <= checkAzimuth <= 360.0 && 0.0 <= callAzimuth <= 360.0 && 180.0 <= arc ==> ok
  {
    FoldedDifference(checkAzimuth, callAzimuth) <= arc
  }

  /** The predicate does not care which bearing is observed and which recorded. */
  lemma CheckAzimuthDifferenceSymmetric(a: real, b: real, arc: real)
    ensures CheckAzimuthDifference(a, b, arc) == CheckAzimuthDifference(b, a, arc)
  {
  }

  /**
   * The predicate does not normalise its inputs: a sector azimuth of 600
   * (one turn past 240) passes against 0, although 240 does not.
   */
  lemma CheckAzimuthDifferenceDoesNotNormalize()
    ensures CheckAzimuthDifference(0.0, 600.0)
    ensures !CheckAzimuthDifference(0.0, 240.0)
  {
  }

  /**
   * The unit-test cases for a sector azimuth of 60 degrees with the default
   * arc: the bearings exactly 60 degrees away either way pass, one degree more
   * fails.
   */
  lemma CheckAzimuthDifferenceSector60()
    ensures CheckAzimuthDifference(360.0, 60.0)
    ensures CheckAzimuthDifference(120.0, 60.0)
    ensures !CheckAzimuthDifference(359.0, 60.0)
    ensures !CheckAzimuthDifference(121.0, 60.0)
  {
  }

  /** The unit-test cases for a sector azimuth of 0 degrees. */
  lemma CheckAzimuthDifferenceSector0()
    ensures CheckAzimuthDifference(340.0, 0.0)
    ensures CheckAzimuthDifference(60.0, 0.0)
    ensures !CheckAzimuthDifference(299.0, 0.0)
    ensures !CheckAzimuthDifference(61.0, 0.0)
  {
  }

  /** The unit-test cases for a sector azimuth of 350 degrees. */
  lemma CheckAzimuthDifferenceSector350()
    ensures CheckAzimuthDifference(50.0, 350.0)
    ensures CheckAzimuthDifference(290.0, 350.0)
    ensures !CheckAzimuthDifference(51.0, 350.0)
    ensures !CheckAzimuthDifference(289.0, 350.0)
  {
  }

  /** The unit-test cases for a sector azimuth of 120 degrees. */
  lemma CheckAzimuthDifferenceSector120()
    ensures CheckAzimuthDifference(60.0, 120.0)
    ensures CheckAzimuthDifference(180.0, 120.0)
    ensures !CheckAzimuthDifference(59.0, 120.0)
    ensures !CheckAzimuthDifference(181.0, 120.0)
  {
  }

  /** The unit-test cases for a sector azimuth of 10 degrees. */
  lemma CheckAzimuthDifferenceSector10()
    ensures CheckAzimuthDifference(70.0, 10.0)
    ensures CheckAzimuthDifference(359.0, 10.0)
    ensures !CheckAzimuthDifference(71.0, 10.0)
    ensures !CheckAzimuthDifference(309.0, 10.0)
  {
  }
}
