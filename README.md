# Sphere geometry mesh builder

This project models the mesh construction of `SphereGeometry`, the shape
geometry that builds a triangle mesh for a full sphere or a patch of one. It
also proves properties of that model. A sphere geometry is given a radius, a
horizontal and a vertical segment count, and two angular sweeps: `alpha`
around the pole axis and `theta` from pole to pole. The source works in three
steps:

1. **Parameter normalisation.** The constructor replaces a zero radius by 1.
   It floors the segment counts and raises them to at least 3 horizontally
   and 2 vertically. It derives `thetaEnd = thetaStart + thetaRange`.
2. **Grid sampler.** The first loop of `initialize` walks a `(V+1) x (H+1)`
   grid of sample points in row-major order.
   - Each sample gets the next row index.
   - Its eight scalars go into a preallocated flat buffer at `index * 8`: the
     position, the same triple again as the normal, then the texture
     coordinate `(u, 1 - v)`.
   - Each position component whose magnitude is below `1e-6` is replaced by 0.
   - The sampler records `grid[iy][ix]`, the row each cell received.
3. **Triangulator.** The second loop walks the `V x H` quads.
   - For each quad it pushes `(a, b, d)` and `(b, c, d)`.
   - It leaves out `(a, b, d)` in the first band when `thetaStart > 0`
     fails (flag `skipFirst`).
   - It leaves out `(b, c, d)` in the last band when `thetaEnd < Math.PI`
     fails (flag `skipLast`).
   - The flags are the two tests, not the geometry, and the model follows
     the tests as written:
     - At `thetaStart == 0` (`thetaEnd == Math.PI`) the first (last) ring
       collapses to a pole, the flag is set, and the skipped triangles are
       degenerate.
     - A sweep that starts before 0 or ends after `Math.PI` also sets the
       flag. Its end ring is a pole only when its angle is a multiple of
       `Math.PI` (`SphereMesh.SweepBeforeZeroDropsFirstBand`).
     - A downward sweep (negative `thetaRange`) that ends at 0 or starts at
       `Math.PI` has a pole ring but sets no flag. The degenerate triangles
       there are emitted (`SphereMesh.DownwardSweepToPoleKeepsLastBand`).
   - The list is then converted into an index array.

Modules:

| File | Module |
|---|---|
| `parameters.dfy` | `Parameters` — the parameter record and its normalisation |
| `grid_sampler.dfy` | `GridSampler` — the vertex buffer (specification function `VertexBuffer`), the grid table, and the sampling loop over an `array<real>` |
| `triangulator.dfy` | `Triangulator` — the index list (specification function `Triangles`), the triangulation loop, the triangle count and the well-formedness of every triangle |
| `index_format.dfy` | `IndexFormat` — conversion of the index list to a fixed-width array: the 16-bit conversion as the source writes it, and the corrected one |
| `sphere_geometry.dfy` | `SphereMesh` — the class `SphereGeometry`, whose constructor and `Initialize` chain the three steps, plus the end-to-end properties of the mesh |

Each loop is a method proved against its specification function.
`SampleGrid` fills the array so that `vertices[..] == VertexBuffer(...)`, and
returns the grid `Grid(V, H)`. `Triangulate` returns `Triangles(...)`. The
lemmas then state what the source promises about those two functions.

## Model

| member | source | states |
|---|---|---|
| Parameters.ClampedFloor | packages/core/src/geometry-shape/SphereGeometry.ts:33-34 | `Math.max(lower, Math.floor(x))`: the result is at least `lower`; it is the floor of `x` when `x >= lower`, and `lower` otherwise |
| Parameters.Normalize | packages/core/src/geometry-shape/SphereGeometry.ts:31-39 | normalised parameters have `horizontalSegments >= 3` and `verticalSegments >= 2`; a zero radius becomes 1 and any other passes through; each count is the floor of its argument when that reaches the minimum, else the minimum; the four angles pass through |
| Parameters.NormalizeIdempotent | packages/core/src/geometry-shape/SphereGeometry.ts:31-39 | normalising an already normalised parameter set changes nothing |
| Parameters.MinimumResolution | packages/core/src/geometry-shape/SphereGeometry.ts:33-34 | segment counts 1 x 0 are raised to 3 x 2, giving 12 vertex rows |
| GridSampler.Snap | packages/core/src/geometry-shape/SphereGeometry.ts:70-72 | a component of magnitude below `1e-6` becomes exactly 0 and any other is kept, so no result lies strictly inside the noise band |
| GridSampler.RawPosition | packages/core/src/geometry-shape/SphereGeometry.ts:61-69 | defines the unsnapped sample point: `(-r cos(alpha) sin(theta), r cos(theta), r sin(alpha) sin(theta))` with `alpha = alphaStart + u * alphaRange` and `theta = thetaStart + v * thetaRange` |
| GridSampler.Position | packages/core/src/geometry-shape/SphereGeometry.ts:70-72 | defines the stored position: each component of the raw point snapped |
| GridSampler.Layout | packages/core/src/geometry-shape/SphereGeometry.ts:76-85 | a row has eight scalars, and its normal slots 3..5 repeat its position slots 0..2 |
| GridSampler.VertexRow | packages/core/src/geometry-shape/SphereGeometry.ts:60-85 | the row of cell (iy, ix) has eight scalars: its position, the same as normal, `ix / H` and `1 - iy / V` |
| GridSampler.VertexBuffer | packages/core/src/geometry-shape/SphereGeometry.ts:53 | the buffer holds exactly `(V+1)*(H+1)*8` scalars |
| GridSampler.Grid | packages/core/src/geometry-shape/SphereGeometry.ts:51-59 | the grid has `V+1` rings of `H+1` cells and `grid[iy][ix] == iy*(H+1)+ix` |
| GridSampler.GridUnique | packages/core/src/geometry-shape/SphereGeometry.ts:56-59 | any table of that shape with `grid[iy][ix] == iy*(H+1)+ix` is the sampler's grid |
| GridSampler.RowIndexInRange | packages/core/src/geometry-shape/SphereGeometry.ts:87 | every cell's row index is a row of the buffer, in `[0, (V+1)*(H+1))` |
| GridSampler.RowIndexInjective | packages/core/src/geometry-shape/SphereGeometry.ts:87 | distinct cells receive distinct rows |
| GridSampler.RowIndexOnto | packages/core/src/geometry-shape/SphereGeometry.ts:87 | every buffer row belongs to a cell, namely `(r / (H+1), r % (H+1))` |
| GridSampler.BufferAtCell | packages/core/src/geometry-shape/SphereGeometry.ts:74-85 | slot `j` of cell (iy, ix) is scalar `8*index + j` of the buffer |
| GridSampler.VertexBufferRow | packages/core/src/geometry-shape/SphereGeometry.ts:74-85 | the eight scalars at `offset = index*8` lie inside the buffer and are the row of that cell |
| GridSampler.NormalEqualsPosition | packages/core/src/geometry-shape/SphereGeometry.ts:76-82 | in every row, the normal slots 3..5 equal the position slots 0..2 |
| GridSampler.TexcoordOfCell | packages/core/src/geometry-shape/SphereGeometry.ts:84-85 | slots 6 and 7 of cell (iy, ix) are `ix / H` and `1 - iy / V` |
| GridSampler.PositionSnapped | packages/core/src/geometry-shape/SphereGeometry.ts:61-76 | each position slot is 0 when the computed coordinate's magnitude is below `1e-6`, and that coordinate otherwise |
| GridSampler.NoNoiseInBuffer | packages/core/src/geometry-shape/SphereGeometry.ts:70-82 | no position or normal slot of the exact-valued buffer has a nonzero magnitude below `1e-6` (see Left out for the float32 store) |
| GridSampler.SampleRow | packages/core/src/geometry-shape/SphereGeometry.ts:58-72 | the coordinates computed in the loop body from `u = ix/H` and `v = iy/V` are the cell's raw position, and their snapped layout is the cell's row |
| GridSampler.SampleGrid | packages/core/src/geometry-shape/SphereGeometry.ts:51-90 | the first loop allocates a new array of `(V+1)*(H+1)*8` scalars, fills the whole buffer with `VertexBuffer`, and returns the grid with `grid[iy][ix] == iy*(H+1)+ix`; its invariant keeps `index == iy*(H+1)`, so the loop ends at `index == (V+1)*(H+1)` |
| GridSampler.SampleRing | packages/core/src/geometry-shape/SphereGeometry.ts:57-89 | the inner loop hands ring `iy` the rows `iy*(H+1) .. iy*(H+1)+H` in order, advances `index` by `H+1`, leaves the buffer filled up to the ring's end, and leaves every slot after the ring as it was |
| GridSampler.WriteSample | packages/core/src/geometry-shape/SphereGeometry.ts:60-85 | one sample's write at `index*8` is in bounds, extends the filled prefix by exactly that cell's row, and leaves every later slot as it was |
| GridSampler.SamplePosition | packages/core/src/geometry-shape/SphereGeometry.ts:61-72 | the three computed and snapped coordinates are the cell's position, and with `(u, 1 - v)` they form the cell's row |
| GridSampler.WriteRow | packages/core/src/geometry-shape/SphereGeometry.ts:74-85 | the eight stores put position, position, `u`, `v` at `offset..offset+7` and leave every slot before and after them unchanged |
| Triangulator.QuadTriangles | packages/core/src/geometry-shape/SphereGeometry.ts:95-101 | the indices one quad emits: `(a, b, d)` unless the band is the first and `skipFirst` is set, then `(b, c, d)` unless the band is the last and `skipLast` is set; three indices per kept triangle |
| Triangulator.BandTriangles | packages/core/src/geometry-shape/SphereGeometry.ts:94-102 | defines the indices of the first `n` quads of band `iy`, quad after quad |
| Triangulator.TrianglesUpTo | packages/core/src/geometry-shape/SphereGeometry.ts:93-103 | defines the indices of the first `m` bands, band after band |
| Triangulator.Triangles | packages/core/src/geometry-shape/SphereGeometry.ts:93-103 | defines the whole index list the second loop emits |
| Triangulator.TriangleCount | packages/core/src/geometry-shape/SphereGeometry.ts:100-101 | defines the number of triangles: `2VH`, less `H` for each of the two flags that is set |
| Triangulator.Triangulate | packages/core/src/geometry-shape/SphereGeometry.ts:93-103 | the second loop produces the index list `Triangles`: band after band, quad after quad, `(a,b,d)` then `(b,c,d)` with the two flagged omissions |
| Triangulator.TriangulateBand | packages/core/src/geometry-shape/SphereGeometry.ts:94-102 | the inner loop appends the triangles of band `iy` to what was already pushed, nothing else |
| Triangulator.BandLength | packages/core/src/geometry-shape/SphereGeometry.ts:94-101 | the first `n` quads of band `iy` contribute `3n` indices for each of the two triangles the band keeps |
| Triangulator.TrianglesUpToLength | packages/core/src/geometry-shape/SphereGeometry.ts:93-101 | the first `m` bands contribute `6mH` indices, less `3H` when `skipFirst` is set, less `3H` more when they are all `V` bands and `skipLast` is set |
| Triangulator.TrianglesLength | packages/core/src/geometry-shape/SphereGeometry.ts:93-102 | the index list has `3 * TriangleCount` entries, a multiple of 3 |
| Triangulator.TriangleCountCases | packages/core/src/geometry-shape/SphereGeometry.ts:100-101 | `2VH` triangles when neither flag is set, `2VH - H` when exactly one is, `2VH - 2H` when both are |
| Triangulator.AllGoodAppend | packages/core/src/geometry-shape/SphereGeometry.ts:100-101 | pushing a list of good triangles after another keeps every triple good |
| Triangulator.AllGoodInRange | packages/core/src/geometry-shape/SphereGeometry.ts:95-101 | a list of good triangles has a length that is a multiple of 3, and every index is in `[0, (V+1)*(H+1))` |
| Triangulator.RowRing | packages/core/src/geometry-shape/SphereGeometry.ts:95-98 | a corner's row is on the first ring exactly when `iy == 0`, and on the last ring exactly when `iy == V` |
| Triangulator.QuadGood | packages/core/src/geometry-shape/SphereGeometry.ts:95-101 | the triangles one quad emits have three distinct in-range corners, and none of them has two corners on an end ring whose band's flag is set |
| Triangulator.BandGood | packages/core/src/geometry-shape/SphereGeometry.ts:94-102 | over a grid whose quads are all good, every triple a band emits is good |
| Triangulator.TrianglesUpToGood | packages/core/src/geometry-shape/SphereGeometry.ts:93-103 | over such a grid, every triple of the first `m` bands is good |
| Triangulator.TrianglesGood | packages/core/src/geometry-shape/SphereGeometry.ts:93-103 | over the sampler's grid, every triple of the index list is good, its length is a multiple of 3, and every index is in `[0, (V+1)*(H+1))` |
| Triangulator.LastCellIsLastRow | packages/core/src/geometry-shape/SphereGeometry.ts:87-89 | the grid's last cell `(V, H)` holds the buffer's last row `(V+1)*(H+1) - 1` |
| Triangulator.LastQuadEndsWithLastCell | packages/core/src/geometry-shape/SphereGeometry.ts:95-101 | with at least two bands, the last quad keeps a triangle, and its last index is corner `d`, the grid's last cell |
| Triangulator.TrianglesEndWithLastRow | packages/core/src/geometry-shape/SphereGeometry.ts:93-101 | the index list ends with the buffer's last row `(V+1)*(H+1) - 1` |
| IndexFormat.Wrap | packages/core/src/geometry-shape/SphereGeometry.ts:105 | a typed-array conversion keeps the length, leaves every element in range, and keeps an element exactly when it already fits the width |
| IndexFormat.Uint16From | packages/core/src/geometry-shape/SphereGeometry.ts:105 | `Uint16Array.from` keeps the length, reduces every element modulo 2^16, and keeps an element exactly when it lies in `[0, 2^16)` |
| IndexFormat.WidthFor | packages/core/src/geometry-shape/SphereGeometry.ts:105 | there is an index width exactly when the rows fit 32 bits; it addresses every row, and it is 32-bit only when 16 bits do not suffice |
| IndexFormat.PackIndices | packages/core/src/geometry-shape/SphereGeometry.ts:105 | there is an index array exactly when the rows fit 32 bits; it is 16-bit exactly when they fit 16 bits; it has the list's length and in-range elements |
| IndexFormat.PackIndicesLossless | packages/core/src/geometry-shape/SphereGeometry.ts:105 | when every index is a row and the rows fit 32 bits, the packed array holds exactly the index list |
| IndexFormat.Uint16FromWrapsLast | packages/core/src/geometry-shape/SphereGeometry.ts:105 | a list whose last index does not fit 16 bits has that index replaced by its remainder modulo 2^16, so the conversion changes the list |
| IndexFormat.Uint16FromSmallMesh | packages/core/src/geometry-shape/SphereGeometry.ts:105 | for at most 2^16 rows, `Uint16Array.from` keeps every index and agrees with the packed array |
| SphereMesh.SkipsFirstBand | packages/core/src/geometry-shape/SphereGeometry.ts:100 | defines the first-band flag: `thetaStart > 0` does not hold |
| SphereMesh.SkipsLastBand | packages/core/src/geometry-shape/SphereGeometry.ts:101 | defines the last-band flag: `thetaEnd < Math.PI` does not hold |
| SphereMesh.MeshIndices | packages/core/src/geometry-shape/SphereGeometry.ts:93-103 | defines the index list of a parameter set: the triangles over the sampler's grid with the two flags |
| SphereMesh.SphereGeometry.constructor | packages/core/src/geometry-shape/SphereGeometry.ts:20-42 | the object stores the normalised parameters and `thetaEnd == thetaStart + thetaRange`, and ends with the grid's vertex buffer and the packed index list of its triangles |
| SphereMesh.SphereGeometry.Initialize | packages/core/src/geometry-shape/SphereGeometry.ts:48-106 | from a valid object (normalised parameters, `thetaEnd == thetaStart + thetaRange`), `initialize` returns a buffer of `(V+1)*(H+1)*8` scalars equal to `VertexBuffer`, and the packed triangle list, with the two flags taken from the tests `thetaStart > 0` and `thetaEnd < Math.PI` |
| SphereMesh.MeshIndicesInRange | packages/core/src/geometry-shape/SphereGeometry.ts:93-103 | every index of the mesh is a row of its vertex buffer, and the list is a whole number of triples |
| SphereMesh.MeshWellFormed | packages/core/src/geometry-shape/SphereGeometry.ts:48-106 | for any normalised parameters: the buffer size, the triangle count, every index in range, the packed array equal to the list whenever the rows fit 32 bits, and 16-bit width whenever they fit 16 bits |
| SphereMesh.PoleTriangleCount | packages/core/src/geometry-shape/SphereGeometry.ts:100-101 | a sweep from exactly `theta = 0` to exactly `Math.PI` has `2VH - 2H` triangles; a sweep with `thetaStart > 0` and `thetaEnd < Math.PI` has `2VH` |
| SphereMesh.SweepBeforeZeroDropsFirstBand | packages/core/src/geometry-shape/SphereGeometry.ts:100 | a sweep with `thetaStart < 0` and `thetaEnd < Math.PI` sets the first-band flag and not the last, and so has `2VH - H` triangles; its first ring is a pole only when `thetaStart` is a multiple of `Math.PI` |
| SphereMesh.DownwardSweepToPoleKeepsLastBand | packages/core/src/geometry-shape/SphereGeometry.ts:100-101 | a downward sweep from `thetaStart > 0` to `thetaEnd == 0` sets neither flag and so has `2VH` triangles; the first quad of its last band emits `(b, c, d)` with `c` and `d` both on the last ring, which is a pole |
| SphereMesh.MeshEndsWithLastRow | packages/core/src/geometry-shape/SphereGeometry.ts:93-103 | the mesh's index list ends with the last row of its vertex buffer |
| SphereMesh.Uint16FromCorruptsLargeMesh | packages/core/src/geometry-shape/SphereGeometry.ts:105 | with more than 2^16 rows, the last index `(V+1)*(H+1) - 1` is wrapped to its remainder modulo 2^16, so `Uint16Array.from` changes the index list |
| SphereMesh.Uint16FromKeepsSmallMesh | packages/core/src/geometry-shape/SphereGeometry.ts:105 | with at most 2^16 rows, `Uint16Array.from` keeps the whole index list |
| SphereMesh.LargeMeshExample | packages/core/src/geometry-shape/SphereGeometry.ts:53 | 255 x 256 segments give 65792 rows, more than 16-bit indices address |

## Left out

- The `Engine` argument, the `ShapeGeometry` base class and `this._initialize(engine, ...)` are not part of this model. They handle GPU buffer upload and base-class setup. The model keeps what is handed to `_initialize` in the fields `vertexBuffer` and `indexBuffer`.
- SphereMesh.SphereGeometry.constructor: the vertex array is stored as the value `vertices[..]`, not as the shared `Float32Array` object. Aliasing of that array by the base geometry is not modelled.
- `Math.sin` and `Math.cos` are parameters `sin, cos: real -> real`, and nothing is assumed about them. So no property depends on their values: unit length, pole coordinates and seam coincidence are properties of the numerics and are not stated.
- Floating-point arithmetic is modelled as exact real arithmetic.
  - This covers the `Float32Array` rounding of stored values, the rounding of `u = ix / H`, `v = iy / V` and the angle sums, and the rounding of `thetaStart + thetaRange`.
  - `Math.PI` is the exact value of its binary64 number.
  - The constant `1e-6` is taken as exactly 10^-6.
- Parameters.Normalize: the arguments are finite reals. JavaScript's `NaN`, infinities, `-0` and the default values of omitted arguments are not modelled. `radius || 1` is modelled as "zero becomes 1", which covers every falsy finite number.
- The pole tests `thetaStart > 0` and `thetaEnd < Math.PI` are modelled as written, on exact reals. That a float sum `thetaStart + thetaRange` may fall just short of `Math.PI` is a numeric matter and is not modelled.
- Triangulator.GoodTriangle: its "end ring" condition is tied to the flags, not to the geometry. It says nothing about poles the flags miss or flag wrongly:
  - A sweep that starts before 0 or ends after `Math.PI` has its band dropped, although that ring is a pole only at a multiple of `Math.PI`. The model states nothing about the gap the dropped band leaves there.
  - A downward sweep that ends at 0 or starts at `Math.PI` sets no flag. Its triangles with two corners on that pole ring are emitted, and `GoodTriangle` does not exclude them.
- GridSampler.NoNoiseInBuffer: holds of the exact values the model stores. After float32 rounding it can fail: a coordinate just above `1e-6` in magnitude, such as `-1.00000001e-6`, is kept by the snap test and stored as a float32 just below `1e-6`.
- SphereMesh.SphereGeometry.Initialize: it uses the corrected `PackIndices` in place of `Uint16Array.from`; see Findings. The as-written conversion is modelled separately as `IndexFormat.Uint16From`, and `Uint16FromKeepsSmallMesh` shows the two agree on every mesh of at most 2^16 rows.

## Findings

| source | as written | input that shows it | evidently intended | confidence | as-written member | corrected member |
|---|---|---|---|---|---|---|
| packages/core/src/geometry-shape/SphereGeometry.ts:105 | `Uint16Array.from(indices)` reduces every index modulo 2^16 and never checks the vertex count | `horizontalSegments = 255, verticalSegments = 256` gives `(V+1)*(H+1) = 65792` rows; the last index, 65791, becomes 255, so triangles refer to the wrong vertices | every index addresses its own row: 16-bit indices while the rows fit 16 bits, 32-bit indices beyond that | not executed | SphereMesh.Uint16FromCorruptsLargeMesh | IndexFormat.PackIndicesLossless |
