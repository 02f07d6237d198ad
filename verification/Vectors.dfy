/** Two-component vectors with exact components. */
module Vectors {
  datatype Vector2 = Vector2(x: real, y: real)
  {
    function Plus(v: Vector2): Vector2 { Vector2(x + v.x, y + v.y) }
    function Minus(v: Vector2): Vector2 { Vector2(x - v.x, y - v.y) }
    /** Componentwise. */
    function Times(v: Vector2): Vector2 { Vector2(x * v.x, y * v.y) }
    /** Componentwise. */
    function Over(v: Vector2): Vector2
      requires v.x != 0.0 && v.y != 0.0
    {
      Vector2(x / v.x, y / v.y)
    }
    function Scaled(f: real): Vector2 { Vector2(x * f, y * f) }
  }

  const ZERO := Vector2(0.0, 0.0)

  function Both(f: real): Vector2 {
    Vector2(f, f)
  }

  predicate Positive(v: Vector2) {
    v.x > 0.0 && v.y > 0.0
  }

  /** `Math::lerp` on one component. */
  function Mix(a: real, b: real, t: real): real {
    (1.0 - t) * a + t * b
  }

  function Lerp(a: Vector2, b: Vector2, t: real): Vector2 {
    Vector2(Mix(a.x, b.x, t), Mix(a.y, b.y, t))
  }

  lemma ProductNonNegative(a: real, b: real)
    requires a >= 0.0 && b >= 0.0
    ensures a * b >= 0.0
  {
  }

  lemma PositiveProduct(a: real, b: real)
    requires a > 0.0 && b > 0.0
    ensures a * b > 0.0
  {
  }

  lemma SameProduct(a: real, b: real, c: real)
    requires c > 0.0 && a * c == b * c
    ensures a == b
  {
    assert (a - b) * c == 0.0;
  }

  lemma ProductMonotone(a: real, b: real, c: real)
    requires a <= b && c >= 0.0
    ensures a * c <= b * c && c * a <= c * b
  {
    ProductNonNegative(b - a, c);
    assert (b - a) * c == b * c - a * c;
  }

  lemma MixStaysBetween(a: real, b: real, t: real, lo: real, hi: real)
    requires lo <= a <= hi && lo <= b <= hi && 0.0 <= t <= 1.0
    ensures lo <= Mix(a, b, t) <= hi
  {
    var u := 1.0 - t;
    ProductNonNegative(u, a - lo);
    ProductNonNegative(t, b - lo);
    ProductNonNegative(u, hi - a);
    ProductNonNegative(t, hi - b);
    MixShifts(a, b, t, lo);
    MixShifts(a, b, t, hi);
  }

  lemma MixShifts(a: real, b: real, t: real, c: real)
    ensures Mix(a, b, t) == c + ((1.0 - t) * (a - c) + t * (b - c))
    ensures Mix(a, b, t) == c - ((1.0 - t) * (c - a) + t * (c - b))
  {
    var u := 1.0 - t;
    assert u * (a - c) == u * a - u * c && t * (b - c) == t * b - t * c;
    assert u * (c - a) == u * c - u * a && t * (c - b) == t * c - t * b;
    assert u * c == c - t * c;
  }

  lemma LessShare(a: real, b: real)
    ensures (1.0 - a) * b == b - a * b
  {
  }

  /** Products of numbers between 0 and 1 stay there. */
  lemma ProductInUnit(a: real, b: real)
    requires 0.0 <= a <= 1.0 && 0.0 <= b <= 1.0
    ensures 0.0 <= a * b <= 1.0
  {
    ProductNonNegative(a, b);
    ProductNonNegative(1.0 - a, b);
    LessShare(a, b);
  }

  lemma DivideBack(a: real, b: real)
    requires b != 0.0
    ensures b * (a / b) == a && (a / b) * b == a
  {
  }
}
