/**
 * The sphere geometry object: its constructor normalises the parameters and
 * derives `thetaEnd`, then `initialize` samples the grid, triangulates it
 * and hands the vertex buffer and the index array to the base geometry.
 *
 * The base geometry is not part of this model; what it receives is kept in
 * the two fields `vertexBuffer` and `indexBuffer`. `cos` and `sin` stand
 * for `Math.cos` and `Math.sin`.
 */
module SphereMesh {
  import opened Parameters
  import opened GridSampler
  import opened Triangulator
  import opened IndexFormat

  /**
   * The first band drops its `(a, b, d)` triangles: `thetaStart > 0` does
   * not hold. At `thetaStart == 0` the first ring is a pole; before 0 it
   * is a pole only when `thetaStart` is a multiple of `Math.PI`, and the
   * band is dropped all the same.
   */
  predicate SkipsFirstBand(thetaStart: real)
  {
    !(thetaStart > 0.0)
  }

  /**
   * The last band drops its `(b, c, d)` triangles: `thetaEnd < Math.PI`
   * does not hold. At `thetaEnd == Math.PI` the last ring is a pole;
   * beyond it it is a pole only when `thetaEnd` is a multiple of `Math.PI`,
   * and the band is dropped all the same.
   */
  predicate SkipsLastBand(thetaEnd: real)
  {
    !(thetaEnd < MathPI)
  }

  /** The index list the triangulator emits over the sampler's grid. */
  function MeshIndices(p: SphereParameters, thetaEnd: real): seq<int>
    requires p.Valid()
  {
    Triangles(Grid(p.verticalSegments, p.horizontalSegments), p.verticalSegments, p.horizontalSegments,
              SkipsFirstBand(p.thetaStart), SkipsLastBand(thetaEnd))
  }

  class SphereGeometry {
    var parameters: SphereParameters
    var thetaEnd: real
    /** The vertex buffer handed to the base geometry. */
    var vertexBuffer: seq<real>
    /** The index array handed to the base geometry; `None` when no index width addresses every row. */
    var indexBuffer: Option<IndexBuffer>

    /** The parameters are normalised and `thetaEnd` is derived from them. */
    ghost predicate Valid()
      reads this
    {
      parameters.Valid() && thetaEnd == parameters.thetaStart + parameters.thetaRange
    }

    constructor (radius: real, horizontalSegments: real, verticalSegments: real,
                 alphaStart: real, alphaRange: real, thetaStart: real, thetaRange: real,
                 cos: real -> real, sin: real -> real)
      ensures Valid()
      ensures parameters == Normalize(radius, horizontalSegments, verticalSegments,
                                      alphaStart, alphaRange, thetaStart, thetaRange)
      ensures thetaEnd == thetaStart + thetaRange
      ensures vertexBuffer == VertexBuffer(parameters, cos, sin)
      ensures indexBuffer == PackIndices(MeshIndices(parameters, thetaEnd), parameters.VertexCount())
    {
      parameters := Normalize(radius, horizontalSegments, verticalSegments,
                              alphaStart, alphaRange, thetaStart, thetaRange);
      new;
      thetaEnd := parameters.thetaStart + parameters.thetaRange;
      assert Valid();
      var vertices, indices := Initialize(cos, sin);
      vertexBuffer := vertices[..];
      indexBuffer := indices;
    }

    /**
     * `initialize`: the vertex buffer of the grid, and the triangle list
     * over its row indices, skipping the first band's `(a, b, d)` when
     * `thetaStart > 0` fails and the last band's `(b, c, d)` when
     * `thetaEnd < Math.PI` fails, packed into an index array.
     */
    method Initialize(cos: real -> real, sin: real -> real)
      returns (vertices: array<real>, indices: Option<IndexBuffer>)
      requires Valid()
      ensures vertices.Length == parameters.VertexCount() * 8
      ensures vertices[..] == VertexBuffer(parameters, cos, sin)
      ensures indices == PackIndices(MeshIndices(parameters, thetaEnd), parameters.VertexCount())
    {
      var verticalSegments, horizontalSegments := parameters.verticalSegments, parameters.horizontalSegments;
      var grid;
      vertices, grid := SampleGrid(parameters, cos, sin);
      var list := Triangulate(grid, verticalSegments, horizontalSegments,
                              !(parameters.thetaStart > 0.0), !(thetaEnd < MathPI));
      indices := PackIndices(list, parameters.VertexCount());
    }
  }

  // ---------------------------------------------------------------------
  // Properties of the generated mesh

  /** Every index of the mesh is a row of its vertex buffer, and the indices come in triples. */
  lemma MeshIndicesInRange(p: SphereParameters, thetaEnd: real)
    requires p.Valid()
    ensures AllBelow(MeshIndices(p, thetaEnd), p.VertexCount())
    ensures |MeshIndices(p, thetaEnd)| % 3 == 0
  {
    var v, h := p.verticalSegments, p.horizontalSegments;
    var s := Triangles(Grid(v, h), v, h, SkipsFirstBand(p.thetaStart), SkipsLastBand(thetaEnd));
    TrianglesGood(v, h, SkipsFirstBand(p.thetaStart), SkipsLastBand(thetaEnd));
    assert s == MeshIndices(p, thetaEnd);
    assert AllBelow(s, p.VertexCount());
  }

  /**
   * The mesh of any normalised parameter set: eight scalars per grid cell;
   * an index list of whole triangles, every index a row of the buffer,
   * with `2 * V * H` triangles less `H` per band-dropping test;
   * and, while the rows fit 32 bits, an index array holding exactly that
   * list, 16 bits wide when the rows fit 16 bits.
   */
  lemma MeshWellFormed(p: SphereParameters, cos: real -> real, sin: real -> real, thetaEnd: real)
    requires p.Valid()
    ensures |VertexBuffer(p, cos, sin)| == 8 * p.VertexCount()
    ensures var s := MeshIndices(p, thetaEnd);
            |s| == 3 * TriangleCount(p.verticalSegments, p.horizontalSegments,
                                     SkipsFirstBand(p.thetaStart), SkipsLastBand(thetaEnd)) &&
            AllBelow(s, p.VertexCount())
    ensures var s := MeshIndices(p, thetaEnd);
            p.VertexCount() <= Uint32Range ==>
              PackIndices(s, p.VertexCount()) == Some(IndexBuffer(WidthFor(p.VertexCount()).value, s))
    ensures p.VertexCount() <= Uint16Range ==>
              PackIndices(MeshIndices(p, thetaEnd), p.VertexCount()).value.width == Uint16
  {
    var v, h := p.verticalSegments, p.horizontalSegments;
    var s := MeshIndices(p, thetaEnd);
    TrianglesLength(Grid(v, h), v, h, SkipsFirstBand(p.thetaStart), SkipsLastBand(thetaEnd));
    MeshIndicesInRange(p, thetaEnd);
    if p.VertexCount() <= Uint32Range {
      PackIndicesLossless(s, p.VertexCount());
    }
  }

  /**
   * A full sweep from `theta = 0` to `Math.PI` loses one triangle per quad
   * in the first and in the last band; a sweep with `thetaStart > 0` and
   * `thetaEnd < Math.PI` keeps both triangles of every quad.
   */
  lemma PoleTriangleCount(p: SphereParameters, thetaEnd: real)
    requires p.Valid()
    ensures p.thetaStart == 0.0 && thetaEnd == MathPI ==>
              |MeshIndices(p, thetaEnd)| == 3 * (2 * (p.verticalSegments * p.horizontalSegments) - 2 * p.horizontalSegments)
    ensures p.thetaStart > 0.0 && thetaEnd < MathPI ==>
              |MeshIndices(p, thetaEnd)| == 3 * (2 * (p.verticalSegments * p.horizontalSegments))
  {
    var v, h := p.verticalSegments, p.horizontalSegments;
    TrianglesLength(Grid(v, h), v, h, SkipsFirstBand(p.thetaStart), SkipsLastBand(thetaEnd));
    TriangleCountCases(v, h);
  }

  /**
   * A sweep that starts before `theta = 0` (at an angle that is not a
   * multiple of `Math.PI`, its first ring is not a pole), yet `thetaStart > 0`
   * fails and the first band still loses its `(a, b, d)` triangles: `H`
   * fewer than a sweep with `thetaStart > 0` and `thetaEnd < Math.PI`.
   */
  lemma SweepBeforeZeroDropsFirstBand(p: SphereParameters, thetaEnd: real)
    requires p.Valid() && p.thetaStart < 0.0 && thetaEnd < MathPI
    ensures SkipsFirstBand(p.thetaStart) && !SkipsLastBand(thetaEnd)
    ensures |MeshIndices(p, thetaEnd)| == 3 * (2 * (p.verticalSegments * p.horizontalSegments) - p.horizontalSegments)
  {
    var v, h := p.verticalSegments, p.horizontalSegments;
    TrianglesLength(Grid(v, h), v, h, SkipsFirstBand(p.thetaStart), SkipsLastBand(thetaEnd));
    TriangleCountCases(v, h);
  }

  /**
   * A downward sweep from `thetaStart > 0` to `thetaEnd == 0` ends on a
   * pole, yet neither test fails: no band is dropped, and the first quad
   * of the last band emits `(b, c, d)` with `c` and `d` both on the last
   * ring, the pole.
   */
  lemma DownwardSweepToPoleKeepsLastBand(p: SphereParameters, thetaEnd: real)
    requires p.Valid() && p.thetaStart > 0.0 && thetaEnd == 0.0
    ensures !SkipsFirstBand(p.thetaStart) && !SkipsLastBand(thetaEnd)
    ensures |MeshIndices(p, thetaEnd)| == 3 * (2 * (p.verticalSegments * p.horizontalSegments))
    ensures var v, h := p.verticalSegments, p.horizontalSegments;
            var quad := QuadTriangles(Grid(v, h), v, h, false, false, v - 1, 0);
            |quad| == 6 && OnLastRing(v, h, quad[4]) && OnLastRing(v, h, quad[5])
  {
    var v, h := p.verticalSegments, p.horizontalSegments;
    TrianglesLength(Grid(v, h), v, h, SkipsFirstBand(p.thetaStart), SkipsLastBand(thetaEnd));
    TriangleCountCases(v, h);
    RowRing(v, h, v, 0);
    RowRing(v, h, v, 1);
  }

  /** The mesh's index list ends with the last row of its vertex buffer. */
  lemma MeshEndsWithLastRow(p: SphereParameters, thetaEnd: real)
    requires p.Valid()
    ensures var s := MeshIndices(p, thetaEnd);
            |s| > 0 && s[|s| - 1] == p.VertexCount() - 1
  {
    TrianglesEndWithLastRow(p.verticalSegments, p.horizontalSegments,
                            SkipsFirstBand(p.thetaStart), SkipsLastBand(thetaEnd));
  }

  /**
   * `Uint16Array.from` as the source calls it: for a mesh of more than 2^16
   * rows the array it builds differs from the index list, since the last
   * index, the buffer's last row, wraps around modulo 2^16.
   */
  lemma Uint16FromCorruptsLargeMesh(p: SphereParameters, thetaEnd: real)
    requires p.Valid() && p.VertexCount() > Uint16Range
    ensures var s := MeshIndices(p, thetaEnd);
            |s| > 0 && s[|s| - 1] == p.VertexCount() - 1 &&
            Uint16From(s)[|s| - 1] == (p.VertexCount() - 1) % Uint16Range &&
            Uint16From(s) != s
  {
    MeshEndsWithLastRow(p, thetaEnd);
    Uint16FromWrapsLast(MeshIndices(p, thetaEnd));
  }

  /** For a mesh of at most 2^16 rows, `Uint16Array.from` keeps every index. */
  lemma Uint16FromKeepsSmallMesh(p: SphereParameters, thetaEnd: real)
    requires p.Valid() && p.VertexCount() <= Uint16Range
    ensures Uint16From(MeshIndices(p, thetaEnd)) == MeshIndices(p, thetaEnd)
  {
    MeshIndicesInRange(p, thetaEnd);
    Uint16FromSmallMesh(MeshIndices(p, thetaEnd), p.VertexCount());
  }

  /** A sphere of 255 x 256 segments has 65792 rows, more than 16-bit indices address. */
  lemma LargeMeshExample()
    ensures var p := Normalize(1.0, 255.0, 256.0, 0.0, 2.0 * MathPI, 0.0, MathPI);
            p.Valid() && p.VertexCount() == 65792 && p.VertexCount() > Uint16Range
  {
  }
}
