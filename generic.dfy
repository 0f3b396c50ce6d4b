/** Value types shared by the renderer (include/generic.h) and the C++ integer
    conversions the renderer's integer logic depends on, written out explicitly. */
module Generic {

  datatype Option<T> = None | Some(value: T)

  /** A world-space position or direction; the C++ fields are doubles. */
  datatype Point = Point(x: real, y: real, z: real)

  /** A position on the canvas or in the window's pixel matrix; the C++ fields are ints. */
  datatype CanvasPoint = CanvasPoint(x: int, y: int, z: int)

  /** An RGBA colour with integer channels; alpha defaults to 255 (opaque). */
  datatype Color = Color(r: int, g: int, b: int, a: int)

  /** What one object's ray test reports: a hit flag, the distance along the ray,
      the object's colour and the world-space hit point. */
  datatype Intercept = Intercept(intercepts: bool, distance: real, color: Color, point: Point)

  /** A canvas coordinate pair (i, j), the renderer's std::pair<int, int>. */
  type Coord = (int, int)

  /** A rendered pixel: its canvas coordinate and the colour computed for it. */
  type Pixel = (Coord, Color)

  const BLACK := Color(0, 0, 0, 255)
  const ORIGIN := Point(0.0, 0.0, 0.0)

  const INT32_MIN := -0x8000_0000
  const INT32_MAX := 0x7fff_ffff

  /** The value fits a 32-bit C++ int. */
  predicate IsInt32(n: int) {
    INT32_MIN <= n <= INT32_MAX
  }

  /** C++ integer division by a positive divisor: the quotient is truncated toward
      zero (Dafny's own `/` is Euclidean and differs for a negative dividend). */
  function CDiv(a: int, b: int): (q: int)
    requires b > 0
    ensures 0 <= a ==> 0 <= q && q * b <= a < q * b + b
    ensures a < 0 ==> q <= 0 && q * b - b < a <= q * b
  {
    if a >= 0 then
      DivisionBounds(a, b);
      a / b
    else
      DivisionBounds(-a, b);
      -((-a) / b)
  }

  /** Dafny's quotient of a natural number by a positive divisor. */
  lemma DivisionBounds(n: nat, b: int)
    requires b > 0
    ensures 0 <= n / b && (n / b) * b <= n < (n / b) * b + b
    ensures (-(n / b)) * b == -((n / b) * b)
  {
    assert n == (n / b) * b + n % b;
  }

  /** The C++ conversion of this double to an int is defined: its truncation toward
      zero is a 32-bit value. */
  predicate ConvertibleToInt(d: real) {
    (INT32_MIN - 1) as real < d < (INT32_MAX + 1) as real
  }

  /** The C++ conversion of a double to an int: truncation toward zero. */
  function TruncToInt(d: real): (n: int)
    requires ConvertibleToInt(d)
    ensures IsInt32(n)
    ensures 0.0 <= d ==> n as real <= d < n as real + 1.0
    ensures d < 0.0 ==> n as real - 1.0 < d <= n as real
  {
    if d >= 0.0 then d.Floor else -((-d).Floor)
  }
}
