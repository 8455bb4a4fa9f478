/**
 * The flat-earth geofilter: a rectangle around a centre point, sized so that
 * each half-side spans the search radius in miles, and an inclusive
 * containment test against it.
 *
 * Coordinates are degrees as `real`. The cosine of the centre latitude (in
 * radians) is not computed here: every function takes `cos`, standing for
 * the composition of the cosine with the degrees-to-radians conversion.
 */
module Geo {

  /** Miles per degree of latitude, and per degree of longitude at the equator. */
  const MilesPerDegree: real := 69.0

  /** A latitude/longitude rectangle: (south, north, west, east). */
  datatype Box = Box(south: real, north: real, west: real, east: real) {
    /** Inclusive on all four sides. */
    predicate Contains(lat: real, lng: real) {
      south <= lat <= north && west <= lng <= east
    }
  }

  function Abs(x: real): real {
    if x < 0.0 then -x else x
  }

  /**
   * The box around (centerLat, centerLng). It is symmetric about the centre;
   * its half-height is radiusMiles at 69 miles per degree, and its half-width
   * is radiusMiles at 69 * cos(centerLat) miles per degree.
   */
  function BoundingBox(centerLat: real, centerLng: real, radiusMiles: real,
                       cos: real -> real): (b: Box)
    requires cos(centerLat) != 0.0
    ensures b.north - centerLat == centerLat - b.south
    ensures b.east - centerLng == centerLng - b.west
    ensures (b.north - centerLat) * MilesPerDegree == radiusMiles
    ensures (b.east - centerLng) * MilesPerDegree * cos(centerLat) == radiusMiles
  {
    var latDelta := radiusMiles / MilesPerDegree;
    var lngDelta := radiusMiles / (MilesPerDegree * cos(centerLat));
    Box(centerLat - latDelta, centerLat + latDelta, centerLng - lngDelta, centerLng + lngDelta)
  }

  /** Whether (lat, lng) lies in the box of the given centre and radius. */
  predicate IsWithinRadius(lat: real, lng: real, centerLat: real, centerLng: real,
                           radiusMiles: real, cos: real -> real)
    requires cos(centerLat) != 0.0
  {
    BoundingBox(centerLat, centerLng, radiusMiles, cos).Contains(lat, lng)
  }

  /**
   * For a positive cosine, a point is within the radius exactly when it is at
   * most radiusMiles north or south of the centre and at most radiusMiles
   * east or west of it, each measured on the flat-earth scale.
   */
  lemma WithinRadiusIffMilesApart(lat: real, lng: real, centerLat: real, centerLng: real,
                                  radiusMiles: real, cos: real -> real)
    requires cos(centerLat) > 0.0
    ensures IsWithinRadius(lat, lng, centerLat, centerLng, radiusMiles, cos)
        <==> (Abs(lat - centerLat) * MilesPerDegree <= radiusMiles
              && Abs(lng - centerLng) * MilesPerDegree * cos(centerLat) <= radiusMiles)
  {
  }

  /** A positive radius gives a box that strictly surrounds the centre. */
  lemma BoxSurroundsCentre(centerLat: real, centerLng: real, radiusMiles: real, cos: real -> real)
    requires radiusMiles > 0.0 && cos(centerLat) > 0.0
    ensures var b := BoundingBox(centerLat, centerLng, radiusMiles, cos);
      b.south < centerLat < b.north && b.west < centerLng < b.east
  {
  }

  /** The centre is within any non-negative radius of itself. */
  lemma CentreIsWithinRadius(centerLat: real, centerLng: real, radiusMiles: real, cos: real -> real)
    requires radiusMiles >= 0.0 && cos(centerLat) > 0.0
    ensures IsWithinRadius(centerLat, centerLng, centerLat, centerLng, radiusMiles, cos)
  {
  }

  /** The bounds are inclusive: all four corners of the box are within the radius. */
  lemma CornersAreWithinRadius(centerLat: real, centerLng: real, radiusMiles: real, cos: real -> real)
    requires radiusMiles >= 0.0 && cos(centerLat) > 0.0
    ensures var b := BoundingBox(centerLat, centerLng, radiusMiles, cos);
      && IsWithinRadius(b.south, b.west, centerLat, centerLng, radiusMiles, cos)
      && IsWithinRadius(b.south, b.east, centerLat, centerLng, radiusMiles, cos)
      && IsWithinRadius(b.north, b.west, centerLat, centerLng, radiusMiles, cos)
      && IsWithinRadius(b.north, b.east, centerLat, centerLng, radiusMiles, cos)
  {
  }

  /** A point within one radius is within every larger radius. */
  lemma WithinRadiusMonotone(lat: real, lng: real, centerLat: real, centerLng: real,
                             r: real, r': real, cos: real -> real)
    requires cos(centerLat) > 0.0 && r <= r'
    requires IsWithinRadius(lat, lng, centerLat, centerLng, r, cos)
    ensures IsWithinRadius(lat, lng, centerLat, centerLng, r', cos)
  {
    WithinRadiusIffMilesApart(lat, lng, centerLat, centerLng, r, cos);
    WithinRadiusIffMilesApart(lat, lng, centerLat, centerLng, r', cos);
  }
}
