/** The integer coordinate maps of src/main.cpp: canvas pixel to view-plane point,
    and canvas pixel to the window's pixel matrix. */
module Transforms {
  import opened Generic

  const SCREEN_WIDTH := 1000
  const SCREEN_HEIGHT := 1000
  const VIEW_WIDTH := 1000
  const VIEW_HEIGHT := 1000
  const VIEW_DISTANCE := 1000

  /** The canvas rectangle the renderer enumerates: [-W/2, W/2) x [-H/2, H/2). */
  predicate OnCanvas(x: int, y: int) {
    -(SCREEN_WIDTH / 2) <= x < SCREEN_WIDTH / 2 && -(SCREEN_HEIGHT / 2) <= y < SCREEN_HEIGHT / 2
  }

  /** The exact view-plane point that canvas pixel c stands for. */
  function ViewPoint(c: Coord): Point {
    Point(c.0 as real, c.1 as real, VIEW_DISTANCE as real)
  }

  /** A float holds every integer of this magnitude exactly (24-bit significand). */
  predicate FloatExact(n: int) {
    -0x100_0000 <= n <= 0x100_0000
  }

  /** The int products in canvas_to_view_transform do not overflow. */
  predicate ViewDefined(c: CanvasPoint) {
    IsInt32(c.x * VIEW_WIDTH) && IsInt32(c.y * VIEW_HEIGHT)
  }

  /** canvas_to_view_transform: scales in ints (multiply, then truncating divide),
      then stores the results in floats. With VIEW_* equal to SCREEN_* the map is
      exact: pixel (x, y) becomes view point (x, y, VIEW_DISTANCE), and the float
      conversion loses nothing. */
  function CanvasToView(c: CanvasPoint): (p: Point)
    requires ViewDefined(c)
    ensures p == ViewPoint((c.x, c.y))
    ensures FloatExact(c.x) && FloatExact(c.y)
  {
    Point(CDiv(c.x * VIEW_WIDTH, SCREEN_WIDTH) as real,
          CDiv(c.y * VIEW_HEIGHT, SCREEN_HEIGHT) as real,
          VIEW_DISTANCE as real)
  }

  /** The int arithmetic in change_to_matrix_coords does not overflow. */
  predicate MatrixDefined(c: CanvasPoint) {
    IsInt32(c.x + SCREEN_WIDTH / 2) && IsInt32(-c.y) && IsInt32(-c.y + SCREEN_HEIGHT / 2)
  }

  /** The inverse of ChangeToMatrixCoords: from a window matrix position back to the
      canvas pixel drawn there. */
  function MatrixToCanvas(m: CanvasPoint): CanvasPoint {
    CanvasPoint(m.x - SCREEN_WIDTH / 2, SCREEN_HEIGHT / 2 - m.y, m.z)
  }

  /** change_to_matrix_coords: shifts the canvas origin to the window's top-left
      corner and flips the vertical axis. It is undone by MatrixToCanvas, so it is
      injective; canvas columns land in [0, SCREEN_WIDTH) and canvas rows in
      (0, SCREEN_HEIGHT], one row lower than the window's rows [0, SCREEN_HEIGHT). */
  function ChangeToMatrixCoords(c: CanvasPoint): (m: CanvasPoint)
    requires MatrixDefined(c)
    ensures MatrixToCanvas(m) == c
    ensures -(SCREEN_WIDTH / 2) <= c.x < SCREEN_WIDTH / 2 ==> 0 <= m.x < SCREEN_WIDTH
    ensures -(SCREEN_HEIGHT / 2) <= c.y < SCREEN_HEIGHT / 2 ==> 0 < m.y <= SCREEN_HEIGHT
  {
    CanvasPoint(c.x + SCREEN_WIDTH / 2, -c.y + SCREEN_HEIGHT / 2, c.z)
  }

  /** Every canvas pixel has a defined view point and matrix position. */
  lemma OnCanvasDefined(x: int, y: int, z: int)
    requires OnCanvas(x, y) && IsInt32(z)
    ensures ViewDefined(CanvasPoint(x, y, z)) && MatrixDefined(CanvasPoint(x, y, z))
  {
  }

  /** Distinct canvas pixels are drawn at distinct matrix positions. */
  lemma MatrixCoordsInjective(a: CanvasPoint, b: CanvasPoint)
    requires MatrixDefined(a) && MatrixDefined(b)
    requires ChangeToMatrixCoords(a) == ChangeToMatrixCoords(b)
    ensures a == b
  {
    assert MatrixToCanvas(ChangeToMatrixCoords(a)) == a;
  }

  /** The matrix positions the canvas rectangle reaches are exactly the columns
      [0, SCREEN_WIDTH) and the rows (0, SCREEN_HEIGHT]: row 0 of the window is never
      drawn, and the bottom canvas row goes to row SCREEN_HEIGHT. */
  lemma MatrixImage(m: CanvasPoint)
    ensures (exists c: CanvasPoint :: OnCanvas(c.x, c.y) && MatrixDefined(c) && ChangeToMatrixCoords(c) == m)
            <==> 0 <= m.x < SCREEN_WIDTH && 0 < m.y <= SCREEN_HEIGHT
  {
    if 0 <= m.x < SCREEN_WIDTH && 0 < m.y <= SCREEN_HEIGHT {
      var c := MatrixToCanvas(m);
      assert OnCanvas(c.x, c.y) && MatrixDefined(c) && ChangeToMatrixCoords(c) == m;
    }
  }
}
