/**
 * Placing an object on the terrain: the footprint corners, the regular grid
 * of sample points under the footprint, and the vertical adjustment that
 * lifts the object's lowest point to the highest sampled terrain height.
 *
 * Points are (x, height, z) in world space; the caller's horizontal
 * coordinate `y` becomes the z component of every point.
 */
module Placer {
  import opened Terrain

  datatype Vec3 = Vec3(x: real, y: real, z: real)

  /** A terrain height as a function of the world x and z coordinates. */
  type HeightFn = (real, real) -> real

  /** Distance between neighbouring sample offsets. */
  const SampleSpacing: real := 0.5

  /** Every point lies on the surface: its vertical component is the terrain height below it. */
  ghost predicate OnSurface(height: HeightFn, ps: seq<Vec3>)
  {
    forall k :: 0 <= k < |ps| ==> ps[k].y == height(ps[k].x, ps[k].z)
  }

  /** p lies horizontally within the footprint centred on (x, y). */
  ghost predicate InFootprint(p: Vec3, x: real, y: real, halfWidth: real, halfDepth: real)
  {
    x - halfWidth <= p.x <= x + halfWidth && y - halfDepth <= p.z <= y + halfDepth
  }

  // ---------------------------------------------------------------- corners

  /** The four footprint corners, each lifted to the terrain height below it. */
  function BottomPoints(height: HeightFn, x: real, y: real, halfWidth: real, halfDepth: real): (ps: seq<Vec3>)
    ensures |ps| == 4 && OnSurface(height, ps)
    ensures forall k :: 0 <= k < 4 ==>
      && ps[k].x == (if k % 2 == 0 then x - halfWidth else x + halfWidth)
      && ps[k].z == (if k < 2 then y - halfDepth else y + halfDepth)
  {
    [ Vec3(x - halfWidth, height(x - halfWidth, y - halfDepth), y - halfDepth),
      Vec3(x + halfWidth, height(x + halfWidth, y - halfDepth), y - halfDepth),
      Vec3(x - halfWidth, height(x - halfWidth, y + halfDepth), y + halfDepth),
      Vec3(x + halfWidth, height(x + halfWidth, y + halfDepth), y + halfDepth) ]
  }

  // ---------------------------------------------------------- sample grid

  /** The k-th value taken by a loop variable that starts at -h and grows by the spacing. */
  function Offset(h: real, k: nat): real
  {
    -h + k as real * SampleSpacing
  }

  /**
   * How often the body of `for (i = -h; i <= h; i += 0.5)` runs, under exact
   * arithmetic: floor(2h / 0.5) + 1 times, and never when h is negative.
   */
  function Steps(h: real): nat
  {
    if h < 0.0 then 0 else (2.0 * h / SampleSpacing).Floor + 1
  }

  /** The loop guard holds for the k-th offset exactly while fewer than Steps(h) iterations have run. */
  lemma StepsIsGuard(h: real, k: nat)
    ensures Offset(h, k) <= h <==> k < Steps(h)
  {
    if h >= 0.0 {
      var f := (2.0 * h / SampleSpacing).Floor;
      assert f as real <= 4.0 * h < f as real + 1.0;
    }
  }

  lemma OffsetInRange(h: real, k: nat)
    requires k < Steps(h)
    ensures -h <= Offset(h, k) <= h
  {
    StepsIsGuard(h, k);
  }

  /** The sample taken at offset (i, j) from the anchor (x, y). */
  function SampleAt(height: HeightFn, x: real, y: real, i: real, j: real): Vec3
  {
    Vec3(x + i, height(x + i, y + j), y + j)
  }

  /** The first n samples of the inner loop, at x-offset i. */
  function SampleColumn(height: HeightFn, x: real, y: real, i: real, halfDepth: real, n: nat): seq<Vec3>
  {
    if n == 0 then []
    else SampleColumn(height, x, y, i, halfDepth, n - 1) + [SampleAt(height, x, y, i, Offset(halfDepth, n - 1))]
  }

  /** The samples produced by the first m iterations of the outer loop. */
  function SampleRows(height: HeightFn, x: real, y: real, halfWidth: real, halfDepth: real, m: nat): seq<Vec3>
  {
    if m == 0 then []
    else
      SampleRows(height, x, y, halfWidth, halfDepth, m - 1)
      + SampleColumn(height, x, y, Offset(halfWidth, m - 1), halfDepth, Steps(halfDepth))
  }

  /** All sample points under the footprint, in the order the nested loops produce them. */
  function SampleGrid(height: HeightFn, x: real, y: real, halfWidth: real, halfDepth: real): seq<Vec3>
  {
    SampleRows(height, x, y, halfWidth, halfDepth, Steps(halfWidth))
  }

  lemma {:induction false} SampleColumnAt(height: HeightFn, x: real, y: real, i: real, halfDepth: real, n: nat)
    ensures |SampleColumn(height, x, y, i, halfDepth, n)| == n
    ensures forall b :: 0 <= b < n ==>
      SampleColumn(height, x, y, i, halfDepth, n)[b] == SampleAt(height, x, y, i, Offset(halfDepth, b))
  {
    if n > 0 {
      SampleColumnAt(height, x, y, i, halfDepth, n - 1);
    }
  }

  lemma {:induction false} SampleRowsLength(height: HeightFn, x: real, y: real, halfWidth: real, halfDepth: real, m: nat)
    ensures |SampleRows(height, x, y, halfWidth, halfDepth, m)| == m * Steps(halfDepth)
  {
    if m > 0 {
      SampleRowsLength(height, x, y, halfWidth, halfDepth, m - 1);
      SampleColumnAt(height, x, y, Offset(halfWidth, m - 1), halfDepth, Steps(halfDepth));
      assert (m - 1) * Steps(halfDepth) + Steps(halfDepth) == m * Steps(halfDepth);
    }
  }

  /**
   * The b-th sample of the inner loop in the a-th run of the outer loop comes
   * right after the samples of the first a runs.
   */
  lemma {:induction false} SampleRowsAt(height: HeightFn, x: real, y: real, halfWidth: real, halfDepth: real, m: nat, a: nat, b: nat)
    requires a < m && b < Steps(halfDepth)
    ensures |SampleRows(height, x, y, halfWidth, halfDepth, a)| + b < |SampleRows(height, x, y, halfWidth, halfDepth, m)|
    ensures SampleRows(height, x, y, halfWidth, halfDepth, m)[|SampleRows(height, x, y, halfWidth, halfDepth, a)| + b]
         == SampleAt(height, x, y, Offset(halfWidth, a), Offset(halfDepth, b))
  {
    var prefix := SampleRows(height, x, y, halfWidth, halfDepth, m - 1);
    SampleColumnAt(height, x, y, Offset(halfWidth, m - 1), halfDepth, Steps(halfDepth));
    if a < m - 1 {
      SampleRowsAt(height, x, y, halfWidth, halfDepth, m - 1, a, b);
    }
  }

  /** p comes before q when the x offset is smaller, or the x offsets agree and the z offset is smaller. */
  ghost predicate LexBefore(p: Vec3, q: Vec3)
  {
    p.x < q.x || (p.x == q.x && p.z < q.z)
  }

  ghost predicate StrictlyOrdered(ps: seq<Vec3>)
  {
    forall i, j :: 0 <= i < j < |ps| ==> LexBefore(ps[i], ps[j])
  }

  lemma {:induction false} SampleRowsWellFormed(height: HeightFn, x: real, y: real, halfWidth: real, halfDepth: real, m: nat)
    requires m <= Steps(halfWidth)
    ensures var rows := SampleRows(height, x, y, halfWidth, halfDepth, m);
      && OnSurface(height, rows)
      && StrictlyOrdered(rows)
      && forall k :: 0 <= k < |rows| ==>
           InFootprint(rows[k], x, y, halfWidth, halfDepth) && rows[k].x < x + Offset(halfWidth, m)
  {
    if m > 0 {
      var prev := SampleRows(height, x, y, halfWidth, halfDepth, m - 1);
      var i := Offset(halfWidth, m - 1);
      var column := SampleColumn(height, x, y, i, halfDepth, Steps(halfDepth));
      var rows := prev + column;
      SampleRowsWellFormed(height, x, y, halfWidth, halfDepth, m - 1);
      SampleColumnAt(height, x, y, i, halfDepth, Steps(halfDepth));
      OffsetInRange(halfWidth, m - 1);
      forall b | 0 <= b < Steps(halfDepth)
        ensures InFootprint(column[b], x, y, halfWidth, halfDepth)
      {
        OffsetInRange(halfDepth, b);
      }
      forall p, q | 0 <= p < q < |rows|
        ensures LexBefore(rows[p], rows[q])
      {
        if q < |prev| {
          assert rows[p] == prev[p] && rows[q] == prev[q];
        } else if p < |prev| {
          assert rows[p] == prev[p] && rows[q] == column[q - |prev|];
        } else {
          assert rows[p] == column[p - |prev|] && rows[q] == column[q - |prev|];
        }
      }
    }
  }

  /**
   * The sample grid holds Steps(halfWidth) * Steps(halfDepth) points, each on
   * the surface and inside the footprint, in strictly ascending (x, z) order.
   */
  lemma SampleGridSpec(height: HeightFn, x: real, y: real, halfWidth: real, halfDepth: real)
    ensures var grid := SampleGrid(height, x, y, halfWidth, halfDepth);
      && |grid| == Steps(halfWidth) * Steps(halfDepth)
      && OnSurface(height, grid)
      && StrictlyOrdered(grid)
      && forall k :: 0 <= k < |grid| ==> InFootprint(grid[k], x, y, halfWidth, halfDepth)
  {
    SampleRowsLength(height, x, y, halfWidth, halfDepth, Steps(halfWidth));
    SampleRowsWellFormed(height, x, y, halfWidth, halfDepth, Steps(halfWidth));
  }

  /**
   * The x-offset loop is the outer one and the z-offset loop the inner one:
   * the sample for the a-th x offset and b-th z offset sits at index
   * a * Steps(halfDepth) + b.
   */
  lemma SampleGridAt(height: HeightFn, x: real, y: real, halfWidth: real, halfDepth: real, a: nat, b: nat)
    requires a < Steps(halfWidth) && b < Steps(halfDepth)
    ensures var grid := SampleGrid(height, x, y, halfWidth, halfDepth);
      && a * Steps(halfDepth) + b < |grid|
      && grid[a * Steps(halfDepth) + b] == SampleAt(height, x, y, Offset(halfWidth, a), Offset(halfDepth, b))
  {
    SampleRowsAt(height, x, y, halfWidth, halfDepth, Steps(halfWidth), a, b);
    SampleRowsLength(height, x, y, halfWidth, halfDepth, a);
  }

  /** With non-negative half extents there is a sample, and the first one is at offset (-halfWidth, -halfDepth). */
  lemma SampleGridStartsAtCorner(height: HeightFn, x: real, y: real, halfWidth: real, halfDepth: real)
    requires halfWidth >= 0.0 && halfDepth >= 0.0
    ensures var grid := SampleGrid(height, x, y, halfWidth, halfDepth);
      |grid| > 0 && grid[0] == Vec3(x - halfWidth, height(x - halfWidth, y - halfDepth), y - halfDepth)
  {
    SampleGridAt(height, x, y, halfWidth, halfDepth, 0, 0);
  }

  /** With non-negative half extents the grid is not empty. */
  lemma SampleGridNonEmpty(height: HeightFn, x: real, y: real, halfWidth: real, halfDepth: real)
    requires halfWidth >= 0.0 && halfDepth >= 0.0
    ensures |SampleGrid(height, x, y, halfWidth, halfDepth)| > 0
  {
    SampleGridStartsAtCorner(height, x, y, halfWidth, halfDepth);
  }

  /** The last offset of the loop reaches the far edge exactly when 4h is a whole number. */
  lemma LastOffsetReachesEdge(h: real)
    requires h >= 0.0
    ensures Offset(h, Steps(h) - 1) == h <==> (4.0 * h).Floor as real == 4.0 * h
  {
    assert (2.0 * h / SampleSpacing).Floor == (4.0 * h).Floor;
  }

  /**
   * When both half extents are whole multiples of a quarter, the four corners
   * of the footprint are themselves sample points.
   */
  lemma BottomPointsAmongSamples(height: HeightFn, x: real, y: real, halfWidth: real, halfDepth: real)
    requires halfWidth >= 0.0 && halfDepth >= 0.0
    requires (4.0 * halfWidth).Floor as real == 4.0 * halfWidth
    requires (4.0 * halfDepth).Floor as real == 4.0 * halfDepth
    ensures forall p | p in BottomPoints(height, x, y, halfWidth, halfDepth) :: p in SampleGrid(height, x, y, halfWidth, halfDepth)
  {
    var lastA, lastB := Steps(halfWidth) - 1, Steps(halfDepth) - 1;
    LastOffsetReachesEdge(halfWidth);
    LastOffsetReachesEdge(halfDepth);
    SampleGridAt(height, x, y, halfWidth, halfDepth, 0, 0);
    SampleGridAt(height, x, y, halfWidth, halfDepth, lastA, 0);
    SampleGridAt(height, x, y, halfWidth, halfDepth, 0, lastB);
    SampleGridAt(height, x, y, halfWidth, halfDepth, lastA, lastB);
  }

  // ------------------------------------------------------ height adjustment

  /** `Math.max` over a non-empty list of heights. */
  function MaxOf(hs: seq<real>): (m: real)
    requires |hs| > 0
    ensures m in hs
    ensures forall k :: 0 <= k < |hs| ==> hs[k] <= m
  {
    if |hs| == 1 then hs[0]
    else
      var rest := MaxOf(hs[1..]);
      if hs[0] > rest then hs[0] else rest
  }

  /** The terrain height re-queried below each point. */
  function IntersectionHeights(height: HeightFn, ps: seq<Vec3>): seq<real>
  {
    seq(|ps|, k requires 0 <= k < |ps| => height(ps[k].x, ps[k].z))
  }

  /**
   * The height lookup is a function, so re-querying the terrain below points
   * that were sampled from it gives back their stored vertical components.
   */
  lemma RequeriedHeightsAreStored(height: HeightFn, ps: seq<Vec3>)
    requires OnSurface(height, ps)
    ensures |IntersectionHeights(height, ps)| == |ps|
    ensures forall k :: 0 <= k < |ps| ==> IntersectionHeights(height, ps)[k] == ps[k].y
  {
  }

  /** The highest terrain height re-queried below the sample points. */
  function HighestSample(height: HeightFn, x: real, y: real, halfWidth: real, halfDepth: real): real
    requires halfWidth >= 0.0 && halfDepth >= 0.0
  {
    SampleGridNonEmpty(height, x, y, halfWidth, halfDepth);
    MaxOf(IntersectionHeights(height, SampleGrid(height, x, y, halfWidth, halfDepth)))
  }

  /**
   * The new position after placement: horizontally at the anchor, and
   * shifted vertically by the distance from the object's lowest point (minY)
   * to the highest sampled terrain height.
   */
  function RestingPosition(height: HeightFn, position: Vec3, x: real, y: real,
                           halfWidth: real, halfDepth: real, minY: real): Vec3
    requires halfWidth >= 0.0 && halfDepth >= 0.0
  {
    Vec3(x, position.y + (HighestSample(height, x, y, halfWidth, halfDepth) - minY), y)
  }

  /**
   * After placement the object stands at the anchor and its lowest point is
   * at the highest terrain height among the sample points: no sample point
   * is above it, and one is exactly at it.
   */
  lemma RestsOnHighestSample(height: HeightFn, position: Vec3, x: real, y: real,
                             halfWidth: real, halfDepth: real, minY: real)
    requires halfWidth >= 0.0 && halfDepth >= 0.0
    ensures var r := RestingPosition(height, position, x, y, halfWidth, halfDepth, minY);
      && r.x == x && r.z == y
      && (forall p | p in SampleGrid(height, x, y, halfWidth, halfDepth) :: p.y <= minY + (r.y - position.y))
      && (exists p | p in SampleGrid(height, x, y, halfWidth, halfDepth) :: p.y == minY + (r.y - position.y))
  {
    var samples := SampleGrid(height, x, y, halfWidth, halfDepth);
    SampleGridSpec(height, x, y, halfWidth, halfDepth);
    RequeriedHeightsAreStored(height, samples);
    var hs := IntersectionHeights(height, samples);
    var highest := HighestSample(height, x, y, halfWidth, halfDepth);
    assert highest in hs;
    var k :| 0 <= k < |hs| && hs[k] == highest;
    assert samples[k] in samples;
    forall p | p in samples
      ensures p.y <= highest
    {
      var i :| 0 <= i < |samples| && samples[i] == p;
      assert hs[i] == p.y;
    }
  }

  /** An object in the scene; only its position is modelled. */
  class Object3D {
    var position: Vec3

    constructor (position: Vec3)
      ensures this.position == position
    {
      this.position := position;
    }
  }

  class ObjectPlacer {
    const boden: Boden

    constructor (boden: Boden)
      ensures this.boden == boden
    {
      this.boden := boden;
    }

    /** Queries the terrain below the four footprint corners. */
    method GetBottomPoints(x: real, y: real, halfWidth: real, halfDepth: real) returns (corners: seq<Vec3>)
      requires boden.Valid()
      ensures corners == BottomPoints(HeightField(boden.positions[..]), x, y, halfWidth, halfDepth)
    {
      var bottomLeft := boden.GetHeightAt(x - halfWidth, y - halfDepth);
      var bottomRight := boden.GetHeightAt(x + halfWidth, y - halfDepth);
      var topLeft := boden.GetHeightAt(x - halfWidth, y + halfDepth);
      var topRight := boden.GetHeightAt(x + halfWidth, y + halfDepth);
      corners := [ Vec3(x - halfWidth, bottomLeft, y - halfDepth),
                   Vec3(x + halfWidth, bottomRight, y - halfDepth),
                   Vec3(x - halfWidth, topLeft, y + halfDepth),
                   Vec3(x + halfWidth, topRight, y + halfDepth) ];
    }

    /** Queries the terrain on a 0.5-spaced grid of offsets around (x, y). */
    method GetSamplePoints(x: real, y: real, halfWidth: real, halfDepth: real) returns (samplePoints: seq<Vec3>)
      requires boden.Valid()
      ensures samplePoints == SampleGrid(HeightField(boden.positions[..]), x, y, halfWidth, halfDepth)
    {
      ghost var vs := boden.positions[..];
      ghost var height := HeightField(vs);
      samplePoints := [];
      var i := -halfWidth;
      ghost var a: nat := 0;
      while i <= halfWidth
        invariant i == Offset(halfWidth, a) && a <= Steps(halfWidth)
        invariant samplePoints == SampleRows(height, x, y, halfWidth, halfDepth, a)
        decreases Steps(halfWidth) - a
      {
        StepsIsGuard(halfWidth, a);
        var j := -halfDepth;
        ghost var b: nat := 0;
        while j <= halfDepth
          invariant j == Offset(halfDepth, b) && b <= Steps(halfDepth)
          invariant samplePoints == SampleRows(height, x, y, halfWidth, halfDepth, a)
                                    + SampleColumn(height, x, y, i, halfDepth, b)
          decreases Steps(halfDepth) - b
        {
          StepsIsGuard(halfDepth, b);
          var z := boden.GetHeightAt(x + i, y + j);
          assert boden.positions[..] == vs;
          samplePoints := samplePoints + [Vec3(x + i, z, y + j)];
          j := j + SampleSpacing;
          b := b + 1;
        }
        StepsIsGuard(halfDepth, b);
        assert samplePoints == SampleRows(height, x, y, halfWidth, halfDepth, a + 1);
        i := i + SampleSpacing;
        a := a + 1;
      }
      StepsIsGuard(halfWidth, a);
    }

    /** The highest terrain height re-queried below the given points. */
    method HighestIntersection(points: seq<Vec3>) returns (highest: real)
      requires boden.Valid() && |points| > 0
      ensures highest == MaxOf(IntersectionHeights(HeightField(boden.positions[..]), points))
    {
      var intersectionHeights := [];
      for k := 0 to |points|
        invariant intersectionHeights == IntersectionHeights(HeightField(boden.positions[..]), points[..k])
      {
        var h := boden.GetHeightAt(points[k].x, points[k].z);
        intersectionHeights := intersectionHeights + [h];
      }
      assert points[..|points|] == points;
      highest := MaxOf(intersectionHeights);
    }

    /**
     * The translation part of placement. size is the object's bounding-box
     * size before it is rotated, minY the lowest y of its bounding box after.
     */
    method PlaceObject(obj: Object3D, x: real, y: real, size: Vec3, minY: real)
      requires boden.Valid()
      requires size.x >= 0.0 && size.z >= 0.0
      modifies obj
      ensures obj.position
           == RestingPosition(HeightField(boden.positions[..]), old(obj.position), x, y, size.x / 2.0, size.z / 2.0, minY)
    {
      var halfWidth := size.x / 2.0;
      var halfDepth := size.z / 2.0;
      var bottomPoints := GetSamplePoints(x, y, halfWidth, halfDepth);
      SampleGridNonEmpty(HeightField(boden.positions[..]), x, y, halfWidth, halfDepth);
      var highestIntersection := HighestIntersection(bottomPoints);
      var objectLowest := minY;
      var heightAdjustment := highestIntersection - objectLowest;
      obj.position := Vec3(x, obj.position.y + heightAdjustment, y);
      assert boden.positions[..] == old(boden.positions[..]);
    }
  }
}
