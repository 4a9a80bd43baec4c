/**
 * Sub-grid sampler of the areal regridding engine.
 *
 * A quadrilateral footprint, given by its four vertices in grid-index space, is
 * split into an n x n lattice of interior points.  The two edges vertex 0 -> 1 and
 * vertex 3 -> 2 are each divided into n points placed at the centres of n equal
 * sub-segments (half a sub-step in from each end); the i-th points of the two edges
 * are then joined and that segment is divided the same way.
 */
module Sampling {

  /** Half of one sub-step when the segment p1 -> p2 is cut into n pieces. */
  function HalfStep(p1: real, p2: real, n: nat): real
    requires n > 0
  {
    (p2 - p1) / (2.0 * n as real)
  }

  /** The i-th of the n points on the segment p1 -> p2: p1 + (2i + 1) * HalfStep. */
  function SubPoint(p1: real, p2: real, n: nat, i: int): real
    requires n > 0
  {
    p1 + (2 * i + 1) as real * HalfStep(p1, p2, n)
  }

  /**
   * Sample point (i, j) of a quadrilateral whose vertex coordinates (latitude or
   * longitude, one axis at a time) are v[0..4]: point j of the segment between
   * point i of edge 0 -> 1 and point i of edge 3 -> 2.
   */
  function Sample(v: seq<real>, n: nat, i: int, j: int): real
    requires |v| == 4 && n > 0
  {
    SubPoint(SubPoint(v[0], v[1], n, i), SubPoint(v[3], v[2], n, i), n, j)
  }

  function Min2(a: real, b: real): real { if a <= b then a else b }
  function Max2(a: real, b: real): real { if a <= b then b else a }

  function MinOf4(v: seq<real>): (m: real)
    requires |v| == 4
    ensures forall k :: 0 <= k < 4 ==> m <= v[k]
    ensures m == v[0] || m == v[1] || m == v[2] || m == v[3]
  {
    Min2(Min2(v[0], v[1]), Min2(v[2], v[3]))
  }

  function MaxOf4(v: seq<real>): (m: real)
    requires |v| == 4
    ensures forall k :: 0 <= k < 4 ==> v[k] <= m
    ensures m == v[0] || m == v[1] || m == v[2] || m == v[3]
  {
    Max2(Max2(v[0], v[1]), Max2(v[2], v[3]))
  }

  /** The first point sits half a sub-step after p1 and the last half a sub-step before p2. */
  lemma SubPointEnds(p1: real, p2: real, n: nat)
    requires n > 0
    ensures SubPoint(p1, p2, n, 0) == p1 + HalfStep(p1, p2, n)
    ensures SubPoint(p1, p2, n, n - 1) == p2 - HalfStep(p1, p2, n)
  {
    var d := HalfStep(p1, p2, n);
    assert 2.0 * n as real * d == p2 - p1;
    calc {
      SubPoint(p1, p2, n, n - 1);
      p1 + (2 * n - 1) as real * d;
      p1 + 2.0 * n as real * d - d;
    }
  }

  /** Consecutive points are two half-steps apart. */
  lemma SubPointSpacing(p1: real, p2: real, n: nat, i: int)
    requires n > 0
    ensures SubPoint(p1, p2, n, i + 1) - SubPoint(p1, p2, n, i) == 2.0 * HalfStep(p1, p2, n)
  {
  }

  /** a * c < b * c for a positive c. */
  lemma MulLess(a: real, b: real, c: real)
    requires a < b && c > 0.0
    ensures a * c < b * c
  {
    assert (b - a) * c > 0.0;
  }

  /**
   * Every one of the n points lies between the end points, strictly so when the
   * end points differ.
   */
  lemma SubPointBetween(p1: real, p2: real, n: nat, i: int)
    requires n > 0 && 0 <= i < n
    ensures Min2(p1, p2) <= SubPoint(p1, p2, n, i) <= Max2(p1, p2)
    ensures p1 != p2 ==> Min2(p1, p2) < SubPoint(p1, p2, n, i) < Max2(p1, p2)
  {
    var h := HalfStep(p1, p2, n);
    var k, m := (2 * i + 1) as real, 2.0 * n as real;
    assert m * h == p2 - p1;
    if p1 < p2 {
      assert h > 0.0;
      MulLess(0.0, k, h);
      MulLess(k, m, h);
    } else if p2 < p1 {
      assert h < 0.0;
      MulLess(0.0, k, -h);
      MulLess(k, m, -h);
      assert k * (-h) == -(k * h) && m * (-h) == -(m * h);
    } else {
      assert h == 0.0;
    }
  }

  /** Every lattice point lies inside the bounding box of the four vertices. */
  lemma SampleInBox(v: seq<real>, n: nat, i: int, j: int)
    requires |v| == 4 && n > 0 && 0 <= i < n && 0 <= j < n
    ensures MinOf4(v) <= Sample(v, n, i, j) <= MaxOf4(v)
  {
    SubPointBetween(v[0], v[1], n, i);
    SubPointBetween(v[3], v[2], n, i);
    SubPointBetween(SubPoint(v[0], v[1], n, i), SubPoint(v[3], v[2], n, i), n, j);
  }

  /**
   * div_line2: write the n points of the segment (lat1, lon1) -> (lat2, lon2) into
   * lats[0..n] and lons[0..n]; the rest of both arrays is left alone.
   */
  method DivLine2(lat1: real, lon1: real, lat2: real, lon2: real, n: nat,
                  lats: array<real>, lons: array<real>)
    requires n > 0 && n <= lats.Length && n <= lons.Length && lats != lons
    modifies lats, lons
    ensures forall i :: 0 <= i < n ==> lats[i] == SubPoint(lat1, lat2, n, i) && lons[i] == SubPoint(lon1, lon2, n, i)
    ensures forall i :: n <= i < lats.Length ==> lats[i] == old(lats[i])
    ensures forall i :: n <= i < lons.Length ==> lons[i] == old(lons[i])
  {
    var dLat := (lat2 - lat1) / (2.0 * n as real);
    var dLon := (lon2 - lon1) / (2.0 * n as real);
    var startLat := lat1 + dLat;
    var startLon := lon1 + dLon;
    for i := 0 to n
      invariant forall k :: 0 <= k < i ==> lats[k] == SubPoint(lat1, lat2, n, k) && lons[k] == SubPoint(lon1, lon2, n, k)
      invariant forall k :: i <= k < lats.Length ==> lats[k] == old(lats[k])
      invariant forall k :: i <= k < lons.Length ==> lons[k] == old(lons[k])
    {
      lats[i] := startLat + (2 * i) as real * dLat;
      lons[i] := startLon + (2 * i) as real * dLon;
    }
  }

  /**
   * div_line: write the n points of the segment (lat1, lon1) -> (lat2, lon2) into row
   * j of the sample buffer, latitude in plane 0 and longitude in plane 1.  Every other
   * entry of the buffer is left alone.
   */
  method DivLine(lat1: real, lon1: real, lat2: real, lon2: real, n: nat,
                 points: array3<real>, j: nat)
    requires n > 0 && j < points.Length0 && n <= points.Length1 && points.Length2 == 2
    modifies points
    ensures forall i :: 0 <= i < n ==>
      points[j, i, 0] == SubPoint(lat1, lat2, n, i) && points[j, i, 1] == SubPoint(lon1, lon2, n, i)
    ensures forall a, b, c | 0 <= a < points.Length0 && 0 <= b < points.Length1 && 0 <= c < 2 && (a != j || n <= b) ::
      points[a, b, c] == old(points[a, b, c])
  {
    var dLat := (lat2 - lat1) / (2.0 * n as real);
    var dLon := (lon2 - lon1) / (2.0 * n as real);
    var startLat := lat1 + dLat;
    var startLon := lon1 + dLon;
    for i := 0 to n
      invariant forall k :: 0 <= k < i ==>
        points[j, k, 0] == SubPoint(lat1, lat2, n, k) && points[j, k, 1] == SubPoint(lon1, lon2, n, k)
      invariant forall a, b, c | 0 <= a < points.Length0 && 0 <= b < points.Length1 && 0 <= c < 2 && (a != j || i <= b) ::
        points[a, b, c] == old(points[a, b, c])
    {
      points[j, i, 0] := startLat + (2 * i) as real * dLat;
      points[j, i, 1] := startLon + (2 * i) as real * dLon;
    }
  }

  /**
   * get_points: fill the n x n corner of the sample buffer with the lattice of the
   * quadrilateral (vlat, vlon); entry [i, j] is Sample(., n, i, j).  Entries outside
   * the n x n corner keep their previous contents.  The four edge arrays are scratch.
   */
  method GetPoints(points: array3<real>, vlat: seq<real>, vlon: seq<real>, n: nat,
                   lats0: array<real>, lons0: array<real>, lats1: array<real>, lons1: array<real>)
    requires |vlat| == 4 && |vlon| == 4 && n > 0
    requires n <= points.Length0 && n <= points.Length1 && points.Length2 == 2
    requires n <= lats0.Length && n <= lons0.Length && n <= lats1.Length && n <= lons1.Length
    requires lats0 != lons0 && lats1 != lons1
    requires lats0 != lats1 && lats0 != lons1 && lons0 != lats1 && lons0 != lons1
    modifies points, lats0, lons0, lats1, lons1
    ensures forall i, j :: 0 <= i < n && 0 <= j < n ==>
      points[i, j, 0] == Sample(vlat, n, i, j) && points[i, j, 1] == Sample(vlon, n, i, j)
    ensures forall a, b, c | 0 <= a < points.Length0 && 0 <= b < points.Length1 && 0 <= c < 2 && (n <= a || n <= b) ::
      points[a, b, c] == old(points[a, b, c])
  {
    DivLine2(vlat[0], vlon[0], vlat[1], vlon[1], n, lats0, lons0);
    DivLine2(vlat[3], vlon[3], vlat[2], vlon[2], n, lats1, lons1);
    for i := 0 to n
      invariant forall k :: 0 <= k < n ==>
        lats0[k] == SubPoint(vlat[0], vlat[1], n, k) && lons0[k] == SubPoint(vlon[0], vlon[1], n, k) &&
        lats1[k] == SubPoint(vlat[3], vlat[2], n, k) && lons1[k] == SubPoint(vlon[3], vlon[2], n, k)
      invariant forall a, b :: 0 <= a < i && 0 <= b < n ==>
        points[a, b, 0] == Sample(vlat, n, a, b) && points[a, b, 1] == Sample(vlon, n, a, b)
      invariant forall a, b, c | 0 <= a < points.Length0 && 0 <= b < points.Length1 && 0 <= c < 2 && (i <= a || n <= b) ::
        points[a, b, c] == old(points[a, b, c])
    {
      DivLine(lats0[i], lons0[i], lats1[i], lons1[i], n, points, i);
    }
  }
}
