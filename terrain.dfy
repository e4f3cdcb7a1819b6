/**
 * The terrain ("Boden"): a grid of vertices stored as one flat array
 * [x0, y0, z0, x1, y1, z1, ...], and the nearest-vertex height query over it.
 *
 * The mesh is rotated by a quarter turn about the x axis, so the height of a
 * vertex in world space is the negation of its local z coordinate.
 */
module Terrain {
  import opened Common

  datatype Vertex = Vertex(x: real, y: real, z: real)

  /** The complete vertices of a flat position array, in order; a trailing partial vertex is dropped. */
  function Vertices(vs: seq<real>): seq<Vertex>
  {
    if |vs| < 3 then [] else [Vertex(vs[0], vs[1], vs[2])] + Vertices(vs[3..])
  }

  /** Vertex k is made of the coordinates at offsets 3k, 3k+1 and 3k+2. */
  lemma {:induction false} VerticesAt(vs: seq<real>)
    ensures |Vertices(vs)| == |vs| / 3
    ensures forall k :: 0 <= k < |Vertices(vs)| ==>
      Vertices(vs)[k] == Vertex(vs[3 * k], vs[3 * k + 1], vs[3 * k + 2])
  {
    if |vs| >= 3 {
      var rest := vs[3..];
      VerticesAt(rest);
      forall k | 1 <= k < |Vertices(vs)|
        ensures Vertices(vs)[k] == Vertex(vs[3 * k], vs[3 * k + 1], vs[3 * k + 2])
      {
        assert Vertices(vs)[k] == Vertices(rest)[k - 1];
        assert rest[3 * (k - 1)] == vs[3 * k];
      }
    }
  }

  /** `(px - x) ** 2 + (py - y) ** 2`, the square of the distance the source compares. */
  function Dist2(px: real, py: real, x: real, y: real): real
  {
    (px - x) * (px - x) + (py - y) * (py - y)
  }

  /**
   * Squared planar distance from vertex k to the query point (x, y).
   * The source compares square roots of this value; the square root is
   * strictly monotone on non-negative reals, so the comparisons agree.
   */
  function PlanarDist2(ws: seq<Vertex>, k: nat, x: real, y: real): real
    requires k < |ws|
  {
    Dist2(ws[k].x, ws[k].y, x, y)
  }

  /**
   * The vertex the scan has kept after visiting the first n vertices: a later
   * vertex replaces the current one only when it is strictly closer.
   */
  function Nearest(ws: seq<Vertex>, x: real, y: real, n: nat): (j: nat)
    requires 0 < n <= |ws|
    ensures j < n
  {
    if n == 1 then 0
    else
      var best := Nearest(ws, x, y, n - 1);
      if PlanarDist2(ws, n - 1, x, y) < PlanarDist2(ws, best, x, y) then n - 1 else best
  }

  /**
   * j is the earliest of the first n vertices at minimal planar distance
   * from (x, y): no vertex is closer, and every earlier one is farther.
   */
  ghost predicate IsNearest(ws: seq<Vertex>, x: real, y: real, n: nat, j: nat)
    requires n <= |ws|
  {
    && j < n
    && (forall k :: 0 <= k < n ==> PlanarDist2(ws, j, x, y) <= PlanarDist2(ws, k, x, y))
    && (forall k :: 0 <= k < j ==> PlanarDist2(ws, j, x, y) < PlanarDist2(ws, k, x, y))
  }

  lemma {:induction false} NearestIsNearest(ws: seq<Vertex>, x: real, y: real, n: nat)
    requires 0 < n <= |ws|
    ensures IsNearest(ws, x, y, n, Nearest(ws, x, y, n))
  {
    if n > 1 {
      NearestIsNearest(ws, x, y, n - 1);
    }
  }

  /** The scan's choice is exactly the earliest closest vertex, in both directions. */
  lemma NearestCharacterized(ws: seq<Vertex>, x: real, y: real, n: nat, j: nat)
    requires 0 < n <= |ws|
    ensures IsNearest(ws, x, y, n, j) <==> j == Nearest(ws, x, y, n)
  {
    NearestIsNearest(ws, x, y, n);
  }

  /** The height returned for the query point (x, y); 0 when there is no vertex. */
  function HeightAt(vs: seq<real>, x: real, y: real): real
  {
    var ws := Vertices(vs);
    if |ws| == 0 then 0.0 else -ws[Nearest(ws, x, y, |ws|)].z
  }

  /** The terrain as a height function of the horizontal coordinates. */
  function HeightField(vs: seq<real>): (real, real) -> real
  {
    (px: real, pz: real) => HeightAt(vs, px, pz)
  }

  /**
   * An array without a complete vertex gives height 0; otherwise the height
   * is the negated z of the earliest vertex nearest to the query point.
   */
  lemma HeightAtSpec(vs: seq<real>, x: real, y: real)
    ensures |vs| < 3 ==> HeightAt(vs, x, y) == 0.0
    ensures |vs| >= 3 ==>
      var ws := Vertices(vs);
      exists j: nat :: IsNearest(ws, x, y, |ws|, j) && HeightAt(vs, x, y) == -ws[j].z
  {
    var ws := Vertices(vs);
    if |vs| >= 3 {
      VerticesAt(vs);
      NearestIsNearest(ws, x, y, |ws|);
    }
  }

  /** Two vertex sequences that agree on every vertex's x and y coordinates. */
  ghost predicate SamePlanarLayout(us: seq<Vertex>, ws: seq<Vertex>)
  {
    && |us| == |ws|
    && forall k :: 0 <= k < |us| ==> us[k].x == ws[k].x && us[k].y == ws[k].y
  }

  lemma {:induction false} NearestIgnoresHeights(us: seq<Vertex>, ws: seq<Vertex>, x: real, y: real, n: nat)
    requires SamePlanarLayout(us, ws)
    requires 0 < n <= |us|
    ensures Nearest(us, x, y, n) == Nearest(ws, x, y, n)
  {
    if n > 1 {
      NearestIgnoresHeights(us, ws, x, y, n - 1);
      var j := Nearest(us, x, y, n - 1);
      assert us[j].x == ws[j].x && us[j].y == ws[j].y;
      assert us[n - 1].x == ws[n - 1].x && us[n - 1].y == ws[n - 1].y;
    }
  }

  /**
   * Only the x and y coordinates decide which vertex is chosen: changing the
   * z coordinates changes the answer only through the chosen vertex's z.
   */
  lemma HeightAtIgnoresOtherHeights(vs: seq<real>, vs': seq<real>, x: real, y: real)
    requires SamePlanarLayout(Vertices(vs), Vertices(vs'))
    ensures var us, ws := Vertices(vs), Vertices(vs');
      |us| > 0 ==> HeightAt(vs', x, y) == -ws[Nearest(us, x, y, |us|)].z
  {
    var us, ws := Vertices(vs), Vertices(vs');
    if |us| > 0 {
      NearestIgnoresHeights(us, ws, x, y, |us|);
    }
  }

  /** A distance that may still be the initial `Infinity`. */
  datatype Extended = Finite(value: real) | Infinity

  /** d < e, where every finite value is below Infinity. */
  predicate Below(d: real, e: Extended)
  {
    e.Infinity? || d < e.value
  }

  /** The terrain mesh; only its vertex position buffer matters to the queries. */
  class Boden {
    /** The geometry's position attribute: three coordinates per vertex. */
    const positions: array<real>

    ghost predicate Valid()
    {
      positions.Length % 3 == 0
    }

    /** The vertex grid is supplied; its generation from the wave formula is not modelled. */
    constructor (vertexPositions: seq<real>)
      requires |vertexPositions| % 3 == 0
      ensures Valid() && fresh(positions) && positions[..] == vertexPositions
    {
      var a := new real[|vertexPositions|](i requires 0 <= i < |vertexPositions| => vertexPositions[i]);
      positions := a;
    }

    /**
     * Scans the vertices in order with stride 3 and keeps the first strictly
     * nearest one; answers its negated z, or 0 when there is no vertex.
     */
    method GetHeightAt(x: real, y: real) returns (h: real)
      requires Valid()
      ensures h == HeightAt(positions[..], x, y)
    {
      ghost var vs := positions[..];
      ghost var ws := Vertices(vs);
      VerticesAt(vs);
      var closestZ: Option<real> := None;
      var closestDistance: Extended := Infinity;
      var i := 0;
      ghost var n: nat := 0;
      while i < positions.Length
        invariant n <= |ws| && i == 3 * n
        invariant n == 0 ==> closestZ == None && closestDistance == Infinity
        invariant n > 0 ==>
          var j := Nearest(ws, x, y, n);
          closestZ == Some(-ws[j].z) && closestDistance == Finite(PlanarDist2(ws, j, x, y))
      {
        var vx := positions[i];
        var vy := positions[i + 1];
        var vz := positions[i + 2];
        var dist := Dist2(vx, vy, x, y);
        assert ws[n] == Vertex(vx, vy, vz);
        if Below(dist, closestDistance) {
          closestDistance := Finite(dist);
          closestZ := Some(-vz);
        }
        i := i + 3;
        n := n + 1;
      }
      h := if closestZ.Some? then closestZ.value else 0.0;
    }
  }
}
