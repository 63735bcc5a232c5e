/**
 * The triangulator: walks the V x H quads of the grid of row indices and
 * emits two triangles per quad, `(a, b, d)` then `(b, c, d)`, leaving out
 * `(a, b, d)` in the first band and `(b, c, d)` in the last band when the
 * corresponding flag is set.
 *
 * `skipFirst` stands for `!(thetaStart > 0)` and `skipLast` for
 * `!(thetaEnd < Math.PI)`. The flags are the two tests, not the geometry:
 * a sweep from exactly `theta = 0` (to exactly `Math.PI`) has a first
 * (last) ring that collapses to a pole and a flag that is set; a sweep
 * before 0 or past `Math.PI` sets the flag although its end ring is a pole
 * only when its angle is a multiple of `Math.PI`; and a downward sweep
 * ending at 0 or starting at `Math.PI` has a pole ring with no flag set.
 * The model follows the tests as written.
 */
module Triangulator {
  import opened GridSampler
  import opened IndexFormat

  /** A table of V+1 rings of H+1 row indices each. */
  predicate HasShape(grid: seq<seq<int>>, verticalSegments: nat, horizontalSegments: nat)
  {
    |grid| == verticalSegments + 1 &&
    forall iy :: 0 <= iy < |grid| ==> |grid[iy]| == horizontalSegments + 1
  }

  /**
   * The indices emitted for quad (iy, ix), whose corners are
   * `a = grid[iy][ix+1]`, `b = grid[iy][ix]`, `c = grid[iy+1][ix]` and
   * `d = grid[iy+1][ix+1]`.
   */
  function QuadTriangles(grid: seq<seq<int>>, verticalSegments: nat, horizontalSegments: nat,
                         skipFirst: bool, skipLast: bool, iy: int, ix: int): (r: seq<int>)
    requires HasShape(grid, verticalSegments, horizontalSegments)
    requires 0 <= iy < verticalSegments && 0 <= ix < horizontalSegments
    ensures |r| == (if iy != 0 || !skipFirst then 3 else 0) + (if iy != verticalSegments - 1 || !skipLast then 3 else 0)
  {
    var a, b, c, d := grid[iy][ix + 1], grid[iy][ix], grid[iy + 1][ix], grid[iy + 1][ix + 1];
    (if iy != 0 || !skipFirst then [a, b, d] else []) +
    (if iy != verticalSegments - 1 || !skipLast then [b, c, d] else [])
  }

  /** The indices emitted for the first `n` quads of band `iy`. */
  function BandTriangles(grid: seq<seq<int>>, verticalSegments: nat, horizontalSegments: nat,
                         skipFirst: bool, skipLast: bool, iy: int, n: nat): seq<int>
    requires HasShape(grid, verticalSegments, horizontalSegments)
    requires 0 <= iy < verticalSegments && n <= horizontalSegments
  {
    if n == 0 then []
    else BandTriangles(grid, verticalSegments, horizontalSegments, skipFirst, skipLast, iy, n - 1) +
         QuadTriangles(grid, verticalSegments, horizontalSegments, skipFirst, skipLast, iy, n - 1)
  }

  /** The indices emitted for the first `m` bands. */
  function TrianglesUpTo(grid: seq<seq<int>>, verticalSegments: nat, horizontalSegments: nat,
                         skipFirst: bool, skipLast: bool, m: nat): seq<int>
    requires HasShape(grid, verticalSegments, horizontalSegments)
    requires m <= verticalSegments
  {
    if m == 0 then []
    else TrianglesUpTo(grid, verticalSegments, horizontalSegments, skipFirst, skipLast, m - 1) +
         BandTriangles(grid, verticalSegments, horizontalSegments, skipFirst, skipLast, m - 1, horizontalSegments)
  }

  /** The whole index list: every band, quad after quad. */
  function Triangles(grid: seq<seq<int>>, verticalSegments: nat, horizontalSegments: nat,
                     skipFirst: bool, skipLast: bool): seq<int>
    requires HasShape(grid, verticalSegments, horizontalSegments)
  {
    TrianglesUpTo(grid, verticalSegments, horizontalSegments, skipFirst, skipLast, verticalSegments)
  }

  /**
   * The second loop of `initialize`: for every band and every quad, pushes
   * `(a, b, d)` unless the band is the first and `skipFirst` is set, then
   * `(b, c, d)` unless the band is the last and `skipLast` is set.
   */
  method Triangulate(grid: seq<seq<int>>, verticalSegments: nat, horizontalSegments: nat,
                     skipFirst: bool, skipLast: bool)
    returns (indices: seq<int>)
    requires HasShape(grid, verticalSegments, horizontalSegments)
    ensures indices == Triangles(grid, verticalSegments, horizontalSegments, skipFirst, skipLast)
  {
    indices := [];
    var iy := 0;
    while iy < verticalSegments
      invariant 0 <= iy <= verticalSegments
      invariant indices == TrianglesUpTo(grid, verticalSegments, horizontalSegments, skipFirst, skipLast, iy)
    {
      indices := TriangulateBand(grid, verticalSegments, horizontalSegments, skipFirst, skipLast, iy, indices);
      iy := iy + 1;
    }
  }

  /** The inner loop of the second loop: the quads of band `iy`, appended to what was pushed before. */
  method TriangulateBand(grid: seq<seq<int>>, verticalSegments: nat, horizontalSegments: nat,
                         skipFirst: bool, skipLast: bool, iy: int, pushed: seq<int>)
    returns (indices: seq<int>)
    requires HasShape(grid, verticalSegments, horizontalSegments)
    requires 0 <= iy < verticalSegments
    ensures indices == pushed +
      BandTriangles(grid, verticalSegments, horizontalSegments, skipFirst, skipLast, iy, horizontalSegments)
  {
    indices := pushed;
    var ix := 0;
    while ix < horizontalSegments
      invariant 0 <= ix <= horizontalSegments
      invariant indices == pushed +
        BandTriangles(grid, verticalSegments, horizontalSegments, skipFirst, skipLast, iy, ix)
    {
      ghost var done := indices;
      var a := grid[iy][ix + 1];
      var b := grid[iy][ix];
      var c := grid[iy + 1][ix];
      var d := grid[iy + 1][ix + 1];
      if iy != 0 || !skipFirst {
        indices := indices + [a, b, d];
      }
      if iy != verticalSegments - 1 || !skipLast {
        indices := indices + [b, c, d];
      }
      assert indices == done +
        QuadTriangles(grid, verticalSegments, horizontalSegments, skipFirst, skipLast, iy, ix);
      ix := ix + 1;
    }
  }

  // ---------------------------------------------------------------------
  // How many triangles

  /**
   * The number of triangles of the whole list: two per quad, less one
   * band's worth (H) for each of the two flags that is set.
   */
  function TriangleCount(verticalSegments: nat, horizontalSegments: nat,
                         skipFirst: bool, skipLast: bool): int
  {
    2 * (verticalSegments * horizontalSegments)
      - (if skipFirst then horizontalSegments else 0)
      - (if skipLast then horizontalSegments else 0)
  }

  /** The first `n` quads of band `iy` give three indices per triangle they keep. */
  lemma {:induction false} BandLength(grid: seq<seq<int>>, verticalSegments: nat, horizontalSegments: nat,
                                      skipFirst: bool, skipLast: bool, iy: int, n: nat)
    requires HasShape(grid, verticalSegments, horizontalSegments)
    requires 0 <= iy < verticalSegments && n <= horizontalSegments
    ensures |BandTriangles(grid, verticalSegments, horizontalSegments, skipFirst, skipLast, iy, n)|
            == (if iy != 0 || !skipFirst then 3 * n else 0)
               + (if iy != verticalSegments - 1 || !skipLast then 3 * n else 0)
  {
    if n > 0 {
      BandLength(grid, verticalSegments, horizontalSegments, skipFirst, skipLast, iy, n - 1);
    }
  }

  lemma MulStep(m: int, h: int)
    ensures m * h == (m - 1) * h + h
  {
  }

  /**
   * The first `m` bands of a sweep with at least `m` bands: two triangles
   * per quad, less one band's worth if `skipFirst` is set, and less
   * another if these are all the bands and `skipLast` is set.
   */
  lemma {:induction false} TrianglesUpToLength(grid: seq<seq<int>>, verticalSegments: nat, horizontalSegments: nat,
                                               skipFirst: bool, skipLast: bool, m: nat)
    requires HasShape(grid, verticalSegments, horizontalSegments)
    requires 1 <= m <= verticalSegments
    ensures |TrianglesUpTo(grid, verticalSegments, horizontalSegments, skipFirst, skipLast, m)|
            == 6 * (m * horizontalSegments)
               - (if skipFirst then 3 * horizontalSegments else 0)
               - (if skipLast && m == verticalSegments then 3 * horizontalSegments else 0)
  {
    BandLength(grid, verticalSegments, horizontalSegments, skipFirst, skipLast, m - 1, horizontalSegments);
    MulStep(m, horizontalSegments);
    if m > 1 {
      TrianglesUpToLength(grid, verticalSegments, horizontalSegments, skipFirst, skipLast, m - 1);
    }
  }

  /**
   * The index list holds three indices per triangle, and the number of
   * triangles is `2 * V * H`, less `H` for each flag that is set.
   */
  lemma TrianglesLength(grid: seq<seq<int>>, verticalSegments: nat, horizontalSegments: nat,
                        skipFirst: bool, skipLast: bool)
    requires HasShape(grid, verticalSegments, horizontalSegments)
    requires verticalSegments >= 1
    ensures |Triangles(grid, verticalSegments, horizontalSegments, skipFirst, skipLast)|
            == 3 * TriangleCount(verticalSegments, horizontalSegments, skipFirst, skipLast)
    ensures |Triangles(grid, verticalSegments, horizontalSegments, skipFirst, skipLast)| % 3 == 0
  {
    TrianglesUpToLength(grid, verticalSegments, horizontalSegments, skipFirst, skipLast, verticalSegments);
    DivModUnique(TriangleCount(verticalSegments, horizontalSegments, skipFirst, skipLast), 0, 3);
  }

  /** The four cases of the triangle count, by which of the two flags are set. */
  lemma TriangleCountCases(verticalSegments: nat, horizontalSegments: nat)
    ensures TriangleCount(verticalSegments, horizontalSegments, false, false)
            == 2 * (verticalSegments * horizontalSegments)
    ensures TriangleCount(verticalSegments, horizontalSegments, true, false)
            == TriangleCount(verticalSegments, horizontalSegments, false, true)
            == 2 * (verticalSegments * horizontalSegments) - horizontalSegments
    ensures TriangleCount(verticalSegments, horizontalSegments, true, true)
            == 2 * (verticalSegments * horizontalSegments) - 2 * horizontalSegments
  {
  }

  // ---------------------------------------------------------------------
  // Which triangles

  /** Row `r` lies on the first ring of the grid. */
  predicate OnFirstRing(horizontalSegments: nat, r: int)
  {
    r < RowIndex(horizontalSegments, 1, 0)
  }

  /** Row `r` lies on the last ring of the grid. */
  predicate OnLastRing(verticalSegments: nat, horizontalSegments: nat, r: int)
  {
    r >= RowIndex(horizontalSegments, verticalSegments, 0)
  }

  /**
   * A triangle fit for drawing: three distinct rows of the buffer, and no
   * two of them on an end ring whose band's flag is set.
   */
  predicate GoodTriangle(verticalSegments: nat, horizontalSegments: nat, skipFirst: bool, skipLast: bool,
                         t0: int, t1: int, t2: int)
  {
    var n := (verticalSegments + 1) * (horizontalSegments + 1);
    0 <= t0 < n && 0 <= t1 < n && 0 <= t2 < n &&
    t0 != t1 && t1 != t2 && t0 != t2 &&
    (skipFirst ==>
       (if OnFirstRing(horizontalSegments, t0) then 1 else 0) +
       (if OnFirstRing(horizontalSegments, t1) then 1 else 0) +
       (if OnFirstRing(horizontalSegments, t2) then 1 else 0) <= 1) &&
    (skipLast ==>
       (if OnLastRing(verticalSegments, horizontalSegments, t0) then 1 else 0) +
       (if OnLastRing(verticalSegments, horizontalSegments, t1) then 1 else 0) +
       (if OnLastRing(verticalSegments, horizontalSegments, t2) then 1 else 0) <= 1)
  }

  /** `s` is a whole number of triples, each a good triangle. */
  predicate AllGood(verticalSegments: nat, horizontalSegments: nat, skipFirst: bool, skipLast: bool,
                    s: seq<int>)
    decreases |s|
  {
    if |s| == 0 then true
    else |s| >= 3 &&
         GoodTriangle(verticalSegments, horizontalSegments, skipFirst, skipLast, s[0], s[1], s[2]) &&
         AllGood(verticalSegments, horizontalSegments, skipFirst, skipLast, s[3..])
  }

  lemma {:induction false} AllGoodAppend(verticalSegments: nat, horizontalSegments: nat,
                                         skipFirst: bool, skipLast: bool, s: seq<int>, t: seq<int>)
    requires AllGood(verticalSegments, horizontalSegments, skipFirst, skipLast, s)
    requires AllGood(verticalSegments, horizontalSegments, skipFirst, skipLast, t)
    ensures AllGood(verticalSegments, horizontalSegments, skipFirst, skipLast, s + t)
    decreases |s|
  {
    if |s| == 0 {
      assert s + t == t;
    } else {
      AllGoodAppend(verticalSegments, horizontalSegments, skipFirst, skipLast, s[3..], t);
      assert (s + t)[3..] == s[3..] + t;
    }
  }

  /** A list of good triangles has a whole number of triples, each index a row of the buffer. */
  lemma {:induction false} AllGoodInRange(verticalSegments: nat, horizontalSegments: nat,
                                          skipFirst: bool, skipLast: bool, s: seq<int>)
    requires AllGood(verticalSegments, horizontalSegments, skipFirst, skipLast, s)
    ensures |s| % 3 == 0
    ensures AllBelow(s, (verticalSegments + 1) * (horizontalSegments + 1))
    decreases |s|
  {
    if |s| > 0 {
      AllGoodInRange(verticalSegments, horizontalSegments, skipFirst, skipLast, s[3..]);
      forall k | 3 <= k < |s|
        ensures s[k] == s[3..][k - 3]
      {
      }
    }
  }

  /** Where a row of the grid lies: on the first ring exactly when iy is 0, on the last exactly when iy is V. */
  lemma RowRing(verticalSegments: nat, horizontalSegments: nat, iy: int, ix: int)
    requires 0 <= iy <= verticalSegments && 0 <= ix <= horizontalSegments
    ensures var r := RowIndex(horizontalSegments, iy, ix);
            0 <= r < (verticalSegments + 1) * (horizontalSegments + 1) &&
            (OnFirstRing(horizontalSegments, r) <==> iy == 0) &&
            (OnLastRing(verticalSegments, horizontalSegments, r) <==> iy == verticalSegments)
  {
    var w := horizontalSegments + 1;
    ProductBound(iy, ix, verticalSegments + 1, w);
    if iy >= 1 {
      MulAtLeast(iy, w);
    }
    if iy < verticalSegments {
      MulMonotone(iy, verticalSegments - 1, w);
      assert (verticalSegments - 1) * w == verticalSegments * w - w;
    }
  }

  /** The triangles of one quad of the sampler's grid are good. */
  lemma QuadGood(verticalSegments: nat, horizontalSegments: nat, skipFirst: bool, skipLast: bool,
                 iy: int, ix: int)
    requires 0 <= iy < verticalSegments && 0 <= ix < horizontalSegments
    ensures AllGood(verticalSegments, horizontalSegments, skipFirst, skipLast,
                    QuadTriangles(Grid(verticalSegments, horizontalSegments), verticalSegments, horizontalSegments,
                                  skipFirst, skipLast, iy, ix))
  {
    var v, h := verticalSegments, horizontalSegments;
    RowRing(v, h, iy, ix + 1);
    RowRing(v, h, iy, ix);
    RowRing(v, h, iy + 1, ix);
    RowRing(v, h, iy + 1, ix + 1);
    var grid := Grid(v, h);
    var a, b, c, d := grid[iy][ix + 1], grid[iy][ix], grid[iy + 1][ix], grid[iy + 1][ix + 1];
    assert GoodTriangle(v, h, skipFirst, skipLast, b, c, d) || (iy == v - 1 && skipLast);
    assert GoodTriangle(v, h, skipFirst, skipLast, a, b, d) || (iy == 0 && skipFirst);
    var abd := if iy != 0 || !skipFirst then [a, b, d] else [];
    var bcd := if iy != v - 1 || !skipLast then [b, c, d] else [];
    assert AllGood(v, h, skipFirst, skipLast, abd) by {
      if abd != [] { assert abd[3..] == []; }
    }
    assert AllGood(v, h, skipFirst, skipLast, bcd) by {
      if bcd != [] { assert bcd[3..] == []; }
    }
    AllGoodAppend(v, h, skipFirst, skipLast, abd, bcd);
  }

  /** Every quad of `grid` emits good triangles. */
  predicate QuadsGood(grid: seq<seq<int>>, verticalSegments: nat, horizontalSegments: nat,
                      skipFirst: bool, skipLast: bool)
    requires HasShape(grid, verticalSegments, horizontalSegments)
  {
    forall iy, ix :: 0 <= iy < verticalSegments && 0 <= ix < horizontalSegments ==>
      AllGood(verticalSegments, horizontalSegments, skipFirst, skipLast,
              QuadTriangles(grid, verticalSegments, horizontalSegments, skipFirst, skipLast, iy, ix))
  }

  lemma {:induction false} BandGood(grid: seq<seq<int>>, verticalSegments: nat, horizontalSegments: nat,
                                    skipFirst: bool, skipLast: bool, iy: int, n: nat)
    requires HasShape(grid, verticalSegments, horizontalSegments)
    requires QuadsGood(grid, verticalSegments, horizontalSegments, skipFirst, skipLast)
    requires 0 <= iy < verticalSegments && n <= horizontalSegments
    ensures AllGood(verticalSegments, horizontalSegments, skipFirst, skipLast,
                    BandTriangles(grid, verticalSegments, horizontalSegments, skipFirst, skipLast, iy, n))
  {
    if n > 0 {
      BandGood(grid, verticalSegments, horizontalSegments, skipFirst, skipLast, iy, n - 1);
      AllGoodAppend(verticalSegments, horizontalSegments, skipFirst, skipLast,
                    BandTriangles(grid, verticalSegments, horizontalSegments, skipFirst, skipLast, iy, n - 1),
                    QuadTriangles(grid, verticalSegments, horizontalSegments, skipFirst, skipLast, iy, n - 1));
    }
  }

  lemma {:induction false} TrianglesUpToGood(grid: seq<seq<int>>, verticalSegments: nat, horizontalSegments: nat,
                                             skipFirst: bool, skipLast: bool, m: nat)
    requires HasShape(grid, verticalSegments, horizontalSegments)
    requires QuadsGood(grid, verticalSegments, horizontalSegments, skipFirst, skipLast)
    requires m <= verticalSegments
    ensures AllGood(verticalSegments, horizontalSegments, skipFirst, skipLast,
                    TrianglesUpTo(grid, verticalSegments, horizontalSegments, skipFirst, skipLast, m))
  {
    if m > 0 {
      TrianglesUpToGood(grid, verticalSegments, horizontalSegments, skipFirst, skipLast, m - 1);
      BandGood(grid, verticalSegments, horizontalSegments, skipFirst, skipLast, m - 1, horizontalSegments);
      AllGoodAppend(verticalSegments, horizontalSegments, skipFirst, skipLast,
                    TrianglesUpTo(grid, verticalSegments, horizontalSegments, skipFirst, skipLast, m - 1),
                    BandTriangles(grid, verticalSegments, horizontalSegments, skipFirst, skipLast, m - 1,
                                  horizontalSegments));
    }
  }

  /**
   * Over the sampler's grid, every triple of the index list is a good
   * triangle: its indices are rows of the vertex buffer, distinct, and at
   * most one of them sits on an end ring whose band is skipped. In particular
   * the list's length is a multiple of 3 and every index is below
   * `(V+1) * (H+1)`.
   */
  lemma TrianglesGood(verticalSegments: nat, horizontalSegments: nat, skipFirst: bool, skipLast: bool)
    ensures var s := Triangles(Grid(verticalSegments, horizontalSegments), verticalSegments, horizontalSegments,
                               skipFirst, skipLast);
            AllGood(verticalSegments, horizontalSegments, skipFirst, skipLast, s) &&
            |s| % 3 == 0 &&
            AllBelow(s, (verticalSegments + 1) * (horizontalSegments + 1))
  {
    var grid := Grid(verticalSegments, horizontalSegments);
    forall iy, ix | 0 <= iy < verticalSegments && 0 <= ix < horizontalSegments
      ensures AllGood(verticalSegments, horizontalSegments, skipFirst, skipLast,
                      QuadTriangles(grid, verticalSegments, horizontalSegments, skipFirst, skipLast, iy, ix))
    {
      QuadGood(verticalSegments, horizontalSegments, skipFirst, skipLast, iy, ix);
    }
    TrianglesUpToGood(grid, verticalSegments, horizontalSegments, skipFirst, skipLast, verticalSegments);
    AllGoodInRange(verticalSegments, horizontalSegments, skipFirst, skipLast,
                   Triangles(grid, verticalSegments, horizontalSegments, skipFirst, skipLast));
  }

  /** The last cell of the grid holds the buffer's last row. */
  lemma LastCellIsLastRow(verticalSegments: nat, horizontalSegments: nat)
    ensures RowIndex(horizontalSegments, verticalSegments, horizontalSegments)
            == (verticalSegments + 1) * (horizontalSegments + 1) - 1
  {
    MulStep(verticalSegments + 1, horizontalSegments + 1);
  }

  /**
   * Of a sweep with at least two bands, the last quad of the sampler's grid
   * keeps at least one triangle, and its last index is corner `d`, the
   * grid's last cell.
   */
  lemma LastQuadEndsWithLastCell(verticalSegments: nat, horizontalSegments: nat, skipFirst: bool, skipLast: bool)
    requires verticalSegments >= 2 && horizontalSegments >= 1
    ensures var quad := QuadTriangles(Grid(verticalSegments, horizontalSegments), verticalSegments, horizontalSegments,
                                      skipFirst, skipLast, verticalSegments - 1, horizontalSegments - 1);
            |quad| > 0 && quad[|quad| - 1] == RowIndex(horizontalSegments, verticalSegments, horizontalSegments)
  {
    var grid := Grid(verticalSegments, horizontalSegments);
    assert grid[verticalSegments][horizontalSegments]
        == RowIndex(horizontalSegments, verticalSegments, horizontalSegments);
  }

  /**
   * Over the sampler's grid, the index list ends with the buffer's last
   * row: the last quad keeps `(b, c, d)`, or else `(a, b, d)`, and both
   * end with corner `d` of the last cell.
   */
  lemma TrianglesEndWithLastRow(verticalSegments: nat, horizontalSegments: nat, skipFirst: bool, skipLast: bool)
    requires verticalSegments >= 2 && horizontalSegments >= 1
    ensures var s := Triangles(Grid(verticalSegments, horizontalSegments), verticalSegments, horizontalSegments,
                               skipFirst, skipLast);
            |s| > 0 && s[|s| - 1] == (verticalSegments + 1) * (horizontalSegments + 1) - 1
  {
    var v, h := verticalSegments, horizontalSegments;
    var grid := Grid(v, h);
    var quad := QuadTriangles(grid, v, h, skipFirst, skipLast, v - 1, h - 1);
    LastQuadEndsWithLastCell(v, h, skipFirst, skipLast);
    LastCellIsLastRow(v, h);
    var band := BandTriangles(grid, v, h, skipFirst, skipLast, v - 1, h);
    assert band == BandTriangles(grid, v, h, skipFirst, skipLast, v - 1, h - 1) + quad;
    assert Triangles(grid, v, h, skipFirst, skipLast) == TrianglesUpTo(grid, v, h, skipFirst, skipLast, v - 1) + band;
  }
}
