/**
 * module2/ModernData.java: the sealed `Shape` records and `calculateArea`,
 * a switch over record patterns. Doubles are modelled as reals and
 * `Math.PI` as its decimal value.
 */
module ModernData {

  /** `Math.PI` as written in its decimal form. */
  const Pi: real := 3.141592653589793

  datatype Shape = Circle(radius: real) | Rectangle(length: real, width: real) | Square(side: real)

  /**
   * `calculateArea`. Circles and squares never get a negative area; a
   * rectangle does only when its sides have opposite signs.
   */
  function Area(shape: Shape): (a: real)
    ensures !shape.Rectangle? ==> a >= 0.0
    ensures shape.Rectangle? && shape.length >= 0.0 && shape.width >= 0.0 ==> a >= 0.0
  {
    match shape
    case Circle(r) => SquareNonNegative(r); Pi * r * r
    case Rectangle(l, w) => l * w
    case Square(s) => SquareNonNegative(s); s * s
  }

  lemma SquareNonNegative(x: real)
    ensures x * x >= 0.0
  {
    if x < 0.0 {
      assert x * x == (-x) * (-x);
    }
  }

  /** A square has the area of the rectangle with both sides equal to its side. */
  lemma SquareIsRectangle(s: real)
    ensures Area(Square(s)) == Area(Rectangle(s, s))
  {
  }

  /** Doubling a circle's radius quadruples its area. */
  lemma CircleAreaScales(r: real)
    ensures Area(Circle(2.0 * r)) == 4.0 * Area(Circle(r))
  {
  }

  /** The shapes `main` builds. */
  lemma AreaExamples()
    ensures Area(Rectangle(4.0, 6.0)) == 24.0
    ensures Area(Square(3.0)) == 9.0
    ensures Area(Circle(5.0)) == 25.0 * Pi
  {
  }
}
