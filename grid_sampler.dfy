/**
 * The grid sampler: walks the (V+1) x (H+1) grid of sample points over the
 * two sweep angles, writes eight attributes per sample into a flat vertex
 * buffer and records which buffer row each grid cell received.
 *
 * `cos` and `sin` stand for `Math.cos` and `Math.sin`; nothing is assumed
 * about them, so every property below holds for any pair of functions.
 */
module GridSampler {
  import opened Parameters

  /** The noise threshold below which a position component becomes 0. */
  const Epsilon: real := 0.000001

  datatype Vec3 = Vec3(x: real, y: real, z: real)

  function Abs(x: real): real
  {
    if x < 0.0 then -x else x
  }

  /**
   * Snap-to-zero: a component whose magnitude is below the threshold is
   * replaced by exactly 0, any other is kept; so no result lies strictly
   * between 0 and the threshold in magnitude.
   */
  function Snap(x: real): (r: real)
    ensures Abs(x) < Epsilon ==> r == 0.0
    ensures Abs(x) >= Epsilon ==> r == x
    ensures r == 0.0 || Abs(r) >= Epsilon
  {
    if Abs(x) < Epsilon then 0.0 else x
  }

  /** The buffer row handed to grid cell (iy, ix) in row-major order. */
  function RowIndex(horizontalSegments: int, iy: int, ix: int): int
  {
    iy * (horizontalSegments + 1) + ix
  }

  /** Horizontal sample fraction `u = ix / H`. */
  function U(p: SphereParameters, ix: int): real
    requires p.Valid()
  {
    ix as real / p.horizontalSegments as real
  }

  /** Vertical sample fraction `v = iy / V`. */
  function V(p: SphereParameters, iy: int): real
    requires p.Valid()
  {
    iy as real / p.verticalSegments as real
  }

  /** Azimuth of column `ix`: `alphaStart + u * alphaRange`. */
  function Alpha(p: SphereParameters, ix: int): real
    requires p.Valid()
  {
    p.alphaStart + U(p, ix) * p.alphaRange
  }

  /** Polar angle of ring `iy`: `thetaStart + v * thetaRange`. */
  function Theta(p: SphereParameters, iy: int): real
    requires p.Valid()
  {
    p.thetaStart + V(p, iy) * p.thetaRange
  }

  /** The position of sample (iy, ix) before snapping; the pole axis is Y. */
  function RawPosition(p: SphereParameters, cos: real -> real, sin: real -> real,
                       iy: int, ix: int): Vec3
    requires p.Valid()
  {
    var alpha, theta := Alpha(p, ix), Theta(p, iy);
    Vec3(-p.radius * cos(alpha) * sin(theta),
         p.radius * cos(theta),
         p.radius * sin(alpha) * sin(theta))
  }

  /** The stored position: each component of the raw position snapped. */
  function Position(p: SphereParameters, cos: real -> real, sin: real -> real,
                    iy: int, ix: int): Vec3
    requires p.Valid()
  {
    var q := RawPosition(p, cos, sin, iy, ix);
    Vec3(Snap(q.x), Snap(q.y), Snap(q.z))
  }

  /** The eight scalars of the row for sample (iy, ix): position, normal, texcoord. */
  function VertexRow(p: SphereParameters, cos: real -> real, sin: real -> real,
                     iy: int, ix: int): (row: seq<real>)
    requires p.Valid()
    ensures |row| == 8
  {
    Layout(Position(p, cos, sin, iy, ix), U(p, ix), 1.0 - V(p, iy))
  }

  /** The attribute layout of one row: `[px, py, pz, nx, ny, nz, u, v]`, the normal being the position. */
  function Layout(q: Vec3, u: real, v: real): (row: seq<real>)
    ensures |row| == 8
    ensures row[3..6] == row[..3]
  {
    [q.x, q.y, q.z, q.x, q.y, q.z, u, v]
  }

  /**
   * The whole vertex buffer: one row of eight scalars per grid cell, the
   * cells in row-major order, so scalar `k` is slot `k % 8` of the row of
   * the cell whose row index is `k / 8`.
   */
  function VertexBuffer(p: SphereParameters, cos: real -> real, sin: real -> real): (buffer: seq<real>)
    requires p.Valid()
    ensures |buffer| == 8 * p.VertexCount()
  {
    var width := p.horizontalSegments + 1;
    seq(8 * p.VertexCount(), k => VertexRow(p, cos, sin, k / 8 / width, k / 8 % width)[k % 8])
  }

  /** The grid table: `grid[iy][ix]` is the buffer row of cell (iy, ix). */
  predicate IsGrid(grid: seq<seq<int>>, verticalSegments: int, horizontalSegments: int)
  {
    |grid| == verticalSegments + 1 &&
    (forall iy :: 0 <= iy < |grid| ==> |grid[iy]| == horizontalSegments + 1) &&
    (forall iy, ix :: 0 <= iy < |grid| && 0 <= ix < |grid[iy]| ==>
       grid[iy][ix] == RowIndex(horizontalSegments, iy, ix))
  }

  /** Ring `iy` of the grid: the buffer rows of its H+1 cells. */
  function GridRow(horizontalSegments: nat, iy: int): (row: seq<int>)
    ensures |row| == horizontalSegments + 1
  {
    seq(horizontalSegments + 1, ix => RowIndex(horizontalSegments, iy, ix))
  }

  /** The first `n` rings of the grid. */
  function GridRings(horizontalSegments: nat, n: nat): (rings: seq<seq<int>>)
    ensures |rings| == n
  {
    seq(n, iy => GridRow(horizontalSegments, iy))
  }

  /** The grid the sampler builds for a given resolution. */
  function Grid(verticalSegments: nat, horizontalSegments: nat): (grid: seq<seq<int>>)
    ensures IsGrid(grid, verticalSegments, horizontalSegments)
  {
    GridRings(horizontalSegments, verticalSegments + 1)
  }

  /** Any table with the grid's shape and cells is that grid. */
  lemma GridUnique(grid: seq<seq<int>>, verticalSegments: nat, horizontalSegments: nat)
    requires IsGrid(grid, verticalSegments, horizontalSegments)
    ensures grid == Grid(verticalSegments, horizontalSegments)
  {
    var g := Grid(verticalSegments, horizontalSegments);
    forall iy | 0 <= iy < |grid|
      ensures grid[iy] == g[iy]
    {
    }
  }

  // ---------------------------------------------------------------------
  // Arithmetic of the row-major layout

  lemma MulAtLeast(x: int, d: int)
    requires x >= 1 && d > 0
    ensures x * d >= d
    decreases x
  {
    if x > 1 {
      MulAtLeast(x - 1, d);
      assert x * d == (x - 1) * d + d;
    }
  }

  lemma MulMonotone(a: int, b: int, n: int)
    requires a <= b && n >= 0
    ensures a * n <= b * n
  {
    if a < b && n > 0 {
      MulAtLeast(b - a, n);
      assert b * n - a * n == (b - a) * n;
    }
  }

  lemma DivModUnique(q: int, r: int, d: int)
    requires d > 0 && 0 <= r < d
    ensures (q * d + r) / d == q && (q * d + r) % d == r
  {
    var n := q * d + r;
    var q', r' := n / d, n % d;
    assert q' * d + r' == n;
    assert (q - q') * d == r' - r;
    if q - q' >= 1 {
      MulAtLeast(q - q', d);
    } else if q' - q >= 1 {
      MulAtLeast(q' - q, d);
    }
  }

  lemma ProductBound(a: int, b: int, m: int, n: int)
    requires 0 <= a < m && 0 <= b < n
    ensures 0 <= a * n + b < m * n
  {
    MulMonotone(0, a, n);
    MulMonotone(a, m - 1, n);
    assert (m - 1) * n == m * n - n;
  }

  /**
   * Cell (iy, ix) of the grid is a row of the buffer, and the rows are
   * handed out one to one: distinct cells get distinct rows.
   */
  lemma RowIndexInRange(p: SphereParameters, iy: int, ix: int)
    requires p.Valid()
    requires 0 <= iy <= p.verticalSegments && 0 <= ix <= p.horizontalSegments
    ensures 0 <= RowIndex(p.horizontalSegments, iy, ix) < p.VertexCount()
  {
    ProductBound(iy, ix, p.verticalSegments + 1, p.horizontalSegments + 1);
  }

  lemma RowIndexInjective(p: SphereParameters, iy: int, ix: int, jy: int, jx: int)
    requires p.Valid()
    requires 0 <= iy <= p.verticalSegments && 0 <= ix <= p.horizontalSegments
    requires 0 <= jy <= p.verticalSegments && 0 <= jx <= p.horizontalSegments
    requires RowIndex(p.horizontalSegments, iy, ix) == RowIndex(p.horizontalSegments, jy, jx)
    ensures iy == jy && ix == jx
  {
    var w := p.horizontalSegments + 1;
    DivModUnique(iy, ix, w);
    DivModUnique(jy, jx, w);
  }

  /** Every buffer row belongs to exactly one grid cell. */
  lemma RowIndexOnto(p: SphereParameters, r: int)
    requires p.Valid() && 0 <= r < p.VertexCount()
    ensures var w := p.horizontalSegments + 1;
            0 <= r / w <= p.verticalSegments && 0 <= r % w <= p.horizontalSegments &&
            RowIndex(p.horizontalSegments, r / w, r % w) == r
  {
    var w := p.horizontalSegments + 1;
    var q := r / w;
    assert q * w + r % w == r;
    if q > p.verticalSegments {
      MulMonotone(p.verticalSegments + 1, q, w);
    }
  }

  /** Slot `j` of row `iy * width + ix` is scalar `8 * (iy * width + ix) + j`, and back. */
  lemma OffsetOfCell(width: int, iy: int, ix: int, j: int)
    requires 0 <= ix < width && 0 <= j < 8
    ensures var k := 8 * (iy * width + ix) + j;
            k / 8 == iy * width + ix && k % 8 == j && k / 8 / width == iy && k / 8 % width == ix
  {
    var r := iy * width + ix;
    DivModUnique(r, j, 8);
    DivModUnique(iy, ix, width);
    assert 8 * r + j == r * 8 + j;
  }

  /** Scalar `j` of the row of cell (iy, ix) in the buffer. */
  lemma BufferAtCell(p: SphereParameters, cos: real -> real, sin: real -> real,
                     iy: int, ix: int, j: int)
    requires p.Valid()
    requires 0 <= iy <= p.verticalSegments && 0 <= ix <= p.horizontalSegments && 0 <= j < 8
    ensures var r := RowIndex(p.horizontalSegments, iy, ix);
            0 <= r < p.VertexCount() &&
            VertexBuffer(p, cos, sin)[8 * r + j] == VertexRow(p, cos, sin, iy, ix)[j]
  {
    RowIndexInRange(p, iy, ix);
    OffsetOfCell(p.horizontalSegments + 1, iy, ix, j);
  }

  // ---------------------------------------------------------------------
  // Properties of the vertex buffer

  /** The row of cell (iy, ix) sits at offset `8 * RowIndex` and holds that cell's eight scalars. */
  lemma VertexBufferRow(p: SphereParameters, cos: real -> real, sin: real -> real,
                        iy: int, ix: int)
    requires p.Valid()
    requires 0 <= iy <= p.verticalSegments && 0 <= ix <= p.horizontalSegments
    ensures var offset := 8 * RowIndex(p.horizontalSegments, iy, ix);
            0 <= offset && offset + 8 <= |VertexBuffer(p, cos, sin)| &&
            VertexBuffer(p, cos, sin)[offset..offset + 8] == VertexRow(p, cos, sin, iy, ix)
  {
    var offset := 8 * RowIndex(p.horizontalSegments, iy, ix);
    RowIndexInRange(p, iy, ix);
    var buffer := VertexBuffer(p, cos, sin);
    forall j | 0 <= j < 8
      ensures buffer[offset..offset + 8][j] == VertexRow(p, cos, sin, iy, ix)[j]
    {
      BufferAtCell(p, cos, sin, iy, ix, j);
    }
  }

  /** In every row the normal slots 3..5 repeat the position slots 0..2. */
  lemma NormalEqualsPosition(p: SphereParameters, cos: real -> real, sin: real -> real,
                             r: int, j: int)
    requires p.Valid() && 0 <= r < p.VertexCount() && 0 <= j < 3
    ensures var buffer := VertexBuffer(p, cos, sin);
            buffer[8 * r + 3 + j] == buffer[8 * r + j]
  {
    RowIndexOnto(p, r);
    var iy, ix := r / (p.horizontalSegments + 1), r % (p.horizontalSegments + 1);
    BufferAtCell(p, cos, sin, iy, ix, j);
    BufferAtCell(p, cos, sin, iy, ix, 3 + j);
  }

  /** Slots 6 and 7 of cell (iy, ix) are `ix / H` and `1 - iy / V`. */
  lemma TexcoordOfCell(p: SphereParameters, cos: real -> real, sin: real -> real,
                       iy: int, ix: int)
    requires p.Valid()
    requires 0 <= iy <= p.verticalSegments && 0 <= ix <= p.horizontalSegments
    ensures var buffer := VertexBuffer(p, cos, sin);
            var offset := 8 * RowIndex(p.horizontalSegments, iy, ix);
            0 <= offset && offset + 8 <= |buffer| &&
            buffer[offset + 6] == ix as real / p.horizontalSegments as real &&
            buffer[offset + 7] == 1.0 - iy as real / p.verticalSegments as real
  {
    BufferAtCell(p, cos, sin, iy, ix, 6);
    BufferAtCell(p, cos, sin, iy, ix, 7);
  }

  /**
   * The position slots of cell (iy, ix) hold the computed coordinates,
   * each replaced by 0 exactly when its magnitude is below 1e-6.
   */
  lemma PositionSnapped(p: SphereParameters, cos: real -> real, sin: real -> real,
                        iy: int, ix: int)
    requires p.Valid()
    requires 0 <= iy <= p.verticalSegments && 0 <= ix <= p.horizontalSegments
    ensures var buffer := VertexBuffer(p, cos, sin);
            var offset := 8 * RowIndex(p.horizontalSegments, iy, ix);
            var raw := RawPosition(p, cos, sin, iy, ix);
            0 <= offset && offset + 8 <= |buffer| &&
            (Abs(raw.x) < Epsilon ==> buffer[offset] == 0.0) &&
            (Abs(raw.x) >= Epsilon ==> buffer[offset] == raw.x) &&
            (Abs(raw.y) < Epsilon ==> buffer[offset + 1] == 0.0) &&
            (Abs(raw.y) >= Epsilon ==> buffer[offset + 1] == raw.y) &&
            (Abs(raw.z) < Epsilon ==> buffer[offset + 2] == 0.0) &&
            (Abs(raw.z) >= Epsilon ==> buffer[offset + 2] == raw.z)
  {
    var buffer, offset := VertexBuffer(p, cos, sin), 8 * RowIndex(p.horizontalSegments, iy, ix);
    var raw := RawPosition(p, cos, sin, iy, ix);
    BufferAtCell(p, cos, sin, iy, ix, 0);
    BufferAtCell(p, cos, sin, iy, ix, 1);
    BufferAtCell(p, cos, sin, iy, ix, 2);
    assert buffer[offset] == Snap(raw.x);
    assert buffer[offset + 1] == Snap(raw.y);
    assert buffer[offset + 2] == Snap(raw.z);
  }

  /** No position or normal slot of the buffer holds a value in the noise band. */
  lemma NoNoiseInBuffer(p: SphereParameters, cos: real -> real, sin: real -> real,
                        r: int, j: int)
    requires p.Valid() && 0 <= r < p.VertexCount() && 0 <= j < 6
    ensures var value := VertexBuffer(p, cos, sin)[8 * r + j];
            value == 0.0 || Abs(value) >= Epsilon
  {
    var w := p.horizontalSegments + 1;
    RowIndexOnto(p, r);
    BufferAtCell(p, cos, sin, r / w, r % w, j);
  }

  // ---------------------------------------------------------------------
  // The sampling loop

  /**
   * The scalars the loop body computes for (iy, ix), with the position
   * snapped component by component, are the row of that cell.
   */
  lemma SampleRow(p: SphereParameters, cos: real -> real, sin: real -> real,
                  iy: int, ix: int, u: real, v: real, raw: Vec3, q: Vec3)
    requires p.Valid()
    requires u == ix as real / p.horizontalSegments as real
    requires v == iy as real / p.verticalSegments as real
    requires raw == Vec3(-p.radius * cos(p.alphaStart + u * p.alphaRange) * sin(p.thetaStart + v * p.thetaRange),
                         p.radius * cos(p.thetaStart + v * p.thetaRange),
                         p.radius * sin(p.alphaStart + u * p.alphaRange) * sin(p.thetaStart + v * p.thetaRange))
    requires q == Vec3(Snap(raw.x), Snap(raw.y), Snap(raw.z))
    ensures raw == RawPosition(p, cos, sin, iy, ix)
    ensures Layout(q, u, 1.0 - v) == VertexRow(p, cos, sin, iy, ix)
  {
    assert p.alphaStart + u * p.alphaRange == Alpha(p, ix);
    assert p.thetaStart + v * p.thetaRange == Theta(p, iy);
  }

  /** The buffer up to the end of cell (iy, ix) is the buffer before it followed by that cell's row. */
  lemma BufferPrefixStep(p: SphereParameters, cos: real -> real, sin: real -> real, iy: int, ix: int)
    requires p.Valid()
    requires 0 <= iy <= p.verticalSegments && 0 <= ix <= p.horizontalSegments
    ensures var buffer, offset := VertexBuffer(p, cos, sin), 8 * RowIndex(p.horizontalSegments, iy, ix);
            0 <= offset && offset + 8 <= |buffer| &&
            buffer[..offset + 8] == buffer[..offset] + VertexRow(p, cos, sin, iy, ix)
  {
    var buffer, offset := VertexBuffer(p, cos, sin), 8 * RowIndex(p.horizontalSegments, iy, ix);
    VertexBufferRow(p, cos, sin, iy, ix);
    assert buffer[..offset + 8] == buffer[..offset] + buffer[offset..offset + 8];
  }

  /** Ring `iy` starts at row `iy * (H+1)`, within the buffer; the ring after the last starts at its end. */
  lemma RingStartBound(p: SphereParameters, iy: int)
    requires p.Valid() && 0 <= iy <= p.verticalSegments + 1
    ensures RowIndex(p.horizontalSegments, iy, 0) <= p.VertexCount()
    ensures RowIndex(p.horizontalSegments, iy + 1, 0) == RowIndex(p.horizontalSegments, iy, 0) + p.horizontalSegments + 1
  {
    MulMonotone(iy, p.verticalSegments + 1, p.horizontalSegments + 1);
    assert (iy + 1) * (p.horizontalSegments + 1) == iy * (p.horizontalSegments + 1) + p.horizontalSegments + 1;
  }

  /** Appending the grid's next ring to its first rings gives its first rings plus one. */
  lemma GridExtend(grid: seq<seq<int>>, row: seq<int>, horizontalSegments: nat)
    requires grid == GridRings(horizontalSegments, |grid|)
    requires row == GridRow(horizontalSegments, |grid|)
    ensures grid + [row] == GridRings(horizontalSegments, |grid| + 1)
  {
  }

  /**
   * A suffix kept since `a` up to `b`, of which a shorter suffix is kept
   * from `b` to `c`, is kept from `a` to `c`.
   */
  lemma SuffixKept(a: seq<real>, b: seq<real>, c: seq<real>, i: nat, j: nat)
    requires i <= j <= |a| && |a| == |b| == |c|
    requires b[i..] == a[i..] && c[j..] == b[j..]
    ensures c[j..] == a[j..]
  {
    assert a[j..] == a[i..][j - i..];
    assert b[j..] == b[i..][j - i..];
  }

  /**
   * The first loop of `initialize`: allocates the buffer of
   * `(V+1) * (H+1) * 8` scalars, fills it ring after ring in row-major
   * order and returns it with the grid of row indices.
   */
  method SampleGrid(p: SphereParameters, cos: real -> real, sin: real -> real)
    returns (vertices: array<real>, grid: seq<seq<int>>)
    requires p.Valid()
    ensures vertices.Length == p.VertexCount() * 8
    ensures vertices[..] == VertexBuffer(p, cos, sin)
    ensures grid == Grid(p.verticalSegments, p.horizontalSegments)
    ensures fresh(vertices)
  {
    var verticalSegments, horizontalSegments := p.verticalSegments, p.horizontalSegments;
    var index := 0;
    grid := [];
    vertices := new real[p.VertexCount() * 8];
    ghost var buffer := VertexBuffer(p, cos, sin);
    var iy := 0;
    while iy <= verticalSegments
      invariant 0 <= iy <= verticalSegments + 1
      invariant index == RowIndex(horizontalSegments, iy, 0) <= p.VertexCount()
      invariant grid == GridRings(horizontalSegments, iy)
      invariant vertices[..index * 8] == buffer[..index * 8]
    {
      RingStartBound(p, iy);
      RingStartBound(p, iy + 1);
      var verticesRow;
      verticesRow, index := SampleRing(p, cos, sin, vertices, iy, index);
      GridExtend(grid, verticesRow, horizontalSegments);
      grid := grid + [verticesRow];
      iy := iy + 1;
    }
    assert index == p.VertexCount();
    assert vertices[..] == vertices[..index * 8];
  }

  /**
   * The inner loop of the first loop: ring `iy`, columns 0..H, each sample
   * written at `index * 8` and given the next row index. The indices it
   * hands out are that ring of the grid, and the buffer is filled up to
   * the ring's end.
   */
  method SampleRing(p: SphereParameters, cos: real -> real, sin: real -> real,
                    vertices: array<real>, iy: int, index0: int)
    returns (verticesRow: seq<int>, index: int)
    requires p.Valid() && 0 <= iy <= p.verticalSegments
    requires index0 == RowIndex(p.horizontalSegments, iy, 0)
    requires vertices.Length == p.VertexCount() * 8
    requires vertices[..index0 * 8] == VertexBuffer(p, cos, sin)[..index0 * 8]
    modifies vertices
    ensures index == index0 + p.horizontalSegments + 1
    ensures verticesRow == GridRow(p.horizontalSegments, iy)
    ensures vertices[..index * 8] == VertexBuffer(p, cos, sin)[..index * 8]
    ensures vertices[index * 8..] == old(vertices[index * 8..])
  {
    var verticalSegments, horizontalSegments := p.verticalSegments, p.horizontalSegments;
    ghost var buffer := VertexBuffer(p, cos, sin);
    index := index0;
    verticesRow := [];
    var v := iy as real / verticalSegments as real;
    var ix := 0;
    while ix <= horizontalSegments
      invariant 0 <= ix <= horizontalSegments + 1
      invariant index == index0 + ix
      invariant verticesRow == GridRow(horizontalSegments, iy)[..ix]
      invariant index * 8 <= |buffer| && vertices[..index * 8] == buffer[..index * 8]
      invariant vertices[index * 8..] == old(vertices[index * 8..])
    {
      var u := ix as real / horizontalSegments as real;
      RowIndexInRange(p, iy, ix);
      ghost var before := vertices[..];
      WriteSample(p, cos, sin, vertices, iy, ix, index, u, v);
      SuffixKept(old(vertices[..]), before, vertices[..], index * 8, index * 8 + 8);
      verticesRow := verticesRow + [index];
      index := index + 1;
      ix := ix + 1;
    }
    assert verticesRow == GridRow(horizontalSegments, iy);
  }

  /**
   * The body of the inner loop: computes the sample of cell (iy, ix) and
   * writes its row at `index * 8`, so that the buffer is filled up to the
   * end of that cell.
   */
  method WriteSample(p: SphereParameters, cos: real -> real, sin: real -> real,
                     vertices: array<real>, iy: int, ix: int, index: int, u: real, v: real)
    requires p.Valid()
    requires 0 <= iy <= p.verticalSegments && 0 <= ix <= p.horizontalSegments
    requires index == RowIndex(p.horizontalSegments, iy, ix) < p.VertexCount()
    requires u == ix as real / p.horizontalSegments as real
    requires v == iy as real / p.verticalSegments as real
    requires vertices.Length == |VertexBuffer(p, cos, sin)|
    requires vertices[..index * 8] == VertexBuffer(p, cos, sin)[..index * 8]
    modifies vertices
    ensures index * 8 + 8 <= vertices.Length
    ensures vertices[..index * 8 + 8] == VertexBuffer(p, cos, sin)[..index * 8 + 8]
    ensures vertices[index * 8 + 8..] == old(vertices[index * 8 + 8..])
  {
    var posX, posY, posZ := SamplePosition(p, cos, sin, iy, ix, u, v);
    ghost var buffer := VertexBuffer(p, cos, sin);
    BufferPrefixStep(p, cos, sin, iy, ix);
    var offset := index * 8;
    WriteRow(vertices, offset, posX, posY, posZ, u, 1.0 - v);
    assert vertices[..offset + 8] == buffer[..offset] + VertexRow(p, cos, sin, iy, ix);
  }

  /**
   * The position of one sample: the sphere point at the two sweep angles,
   * each component snapped to 0 inside the noise band.
   */
  method SamplePosition(p: SphereParameters, cos: real -> real, sin: real -> real,
                        iy: int, ix: int, u: real, v: real)
    returns (posX: real, posY: real, posZ: real)
    requires p.Valid()
    requires u == ix as real / p.horizontalSegments as real
    requires v == iy as real / p.verticalSegments as real
    ensures Vec3(posX, posY, posZ) == Position(p, cos, sin, iy, ix)
    ensures Layout(Vec3(posX, posY, posZ), u, 1.0 - v) == VertexRow(p, cos, sin, iy, ix)
  {
    posX := -p.radius * cos(p.alphaStart + u * p.alphaRange) * sin(p.thetaStart + v * p.thetaRange);
    posY := p.radius * cos(p.thetaStart + v * p.thetaRange);
    posZ := p.radius * sin(p.alphaStart + u * p.alphaRange) * sin(p.thetaStart + v * p.thetaRange);
    ghost var raw := Vec3(posX, posY, posZ);
    posX := Snap(posX);
    posY := Snap(posY);
    posZ := Snap(posZ);
    SampleRow(p, cos, sin, iy, ix, u, v, raw, Vec3(posX, posY, posZ));
  }

  /**
   * The eight stores of one sample at `offset`: position, the same triple
   * as the normal, then the texture coordinate. The slots before `offset`
   * stay as they were.
   */
  method WriteRow(vertices: array<real>, offset: int,
                  posX: real, posY: real, posZ: real, u: real, v: real)
    requires 0 <= offset && offset + 8 <= vertices.Length
    modifies vertices
    ensures vertices[..offset + 8] == old(vertices[..offset]) + Layout(Vec3(posX, posY, posZ), u, v)
    ensures vertices[offset + 8..] == old(vertices[offset + 8..])
  {
    vertices[offset] := posX;
    vertices[offset + 1] := posY;
    vertices[offset + 2] := posZ;
    vertices[offset + 3] := posX;
    vertices[offset + 4] := posY;
    vertices[offset + 5] := posZ;
    vertices[offset + 6] := u;
    vertices[offset + 7] := v;
    assert vertices[..offset + 8] == vertices[..offset] + vertices[offset..offset + 8];
  }
}
