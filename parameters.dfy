/**
 * The parameter record of a sphere geometry and the normalisation its
 * constructor applies to the caller's raw arguments.
 */
module Parameters {

  /** The exact value of the binary64 number JavaScript calls `Math.PI`. */
  const MathPI: real := 3.141592653589793115997963468544185161590576171875

  /**
   * Normalised parameters. The segment counts are whole numbers; the
   * angles (radians) and the radius are carried through unchanged.
   */
  datatype SphereParameters = SphereParameters(
    radius: real,
    horizontalSegments: int,
    verticalSegments: int,
    alphaStart: real,
    alphaRange: real,
    thetaStart: real,
    thetaRange: real)
  {
    /** The resolution every normalised parameter set has. */
    predicate Valid()
    {
      horizontalSegments >= 3 && verticalSegments >= 2
    }

    /** Rows of the vertex buffer: one per cell of the (V+1) x (H+1) grid. */
    function VertexCount(): nat
      requires Valid()
    {
      (verticalSegments + 1) * (horizontalSegments + 1)
    }
  }

  /** `Math.max(lower, Math.floor(x))` for a finite `x`. */
  function ClampedFloor(lower: int, x: real): (n: int)
    ensures n >= lower
    ensures x >= lower as real ==> n as real <= x < n as real + 1.0
    ensures x < lower as real ==> n == lower
  {
    if x.Floor < lower then lower else x.Floor
  }

  /**
   * What the constructor stores from its arguments: a falsy (zero) radius
   * becomes 1, the segment counts are floored and raised to at least 3
   * horizontally and 2 vertically, and the four angles pass through.
   */
  function Normalize(radius: real, horizontalSegments: real, verticalSegments: real,
                     alphaStart: real, alphaRange: real,
                     thetaStart: real, thetaRange: real): (p: SphereParameters)
    ensures p.Valid()
    ensures radius == 0.0 ==> p.radius == 1.0
    ensures radius != 0.0 ==> p.radius == radius
    ensures horizontalSegments >= 3.0 ==>
              p.horizontalSegments as real <= horizontalSegments < p.horizontalSegments as real + 1.0
    ensures horizontalSegments < 3.0 ==> p.horizontalSegments == 3
    ensures verticalSegments >= 2.0 ==>
              p.verticalSegments as real <= verticalSegments < p.verticalSegments as real + 1.0
    ensures verticalSegments < 2.0 ==> p.verticalSegments == 2
    ensures p.alphaStart == alphaStart && p.alphaRange == alphaRange
    ensures p.thetaStart == thetaStart && p.thetaRange == thetaRange
  {
    SphereParameters(
      if radius == 0.0 then 1.0 else radius,
      ClampedFloor(3, horizontalSegments),
      ClampedFloor(2, verticalSegments),
      alphaStart, alphaRange, thetaStart, thetaRange)
  }

  /** Normalising an already normalised parameter set changes nothing. */
  lemma NormalizeIdempotent(radius: real, horizontalSegments: real, verticalSegments: real,
                            alphaStart: real, alphaRange: real,
                            thetaStart: real, thetaRange: real)
    ensures var p := Normalize(radius, horizontalSegments, verticalSegments,
                               alphaStart, alphaRange, thetaStart, thetaRange);
            Normalize(p.radius, p.horizontalSegments as real, p.verticalSegments as real,
                      p.alphaStart, p.alphaRange, p.thetaStart, p.thetaRange) == p
  {
  }

  /** The below-minimum resolution 1 x 0 is raised to 3 x 2. */
  lemma MinimumResolution(radius: real)
    ensures var p := Normalize(radius, 1.0, 0.0, 0.0, 2.0 * MathPI, 0.0, MathPI);
            p.horizontalSegments == 3 && p.verticalSegments == 2 && p.VertexCount() == 12
  {
  }
}
