/** `Magnum::Animation::Easing` as far as the camera helpers use it, on the unit interval. */
module Easings {
  import opened Vectors

  function CubicOut(t: real): real {
    (t - 1.0) * (t - 1.0) * (t - 1.0) + 1.0
  }

  function CubicIn(t: real): real {
    t * t * t
  }

  lemma CubicOutInUnit(t: real)
    requires 0.0 <= t <= 1.0
    ensures 0.0 <= CubicOut(t) <= 1.0
  {
    var u := 1.0 - t;
    ProductInUnit(u, u);
    ProductInUnit(u * u, u);
    assert CubicOut(t) == 1.0 - u * u * u;
  }

  lemma CubicInInUnit(t: real)
    requires 0.0 <= t <= 1.0
    ensures 0.0 <= CubicIn(t) <= 1.0
  {
    ProductInUnit(t, t);
    ProductInUnit(t * t, t);
  }

  /** One easing is the other run backwards. */
  lemma EasingsMirror(t: real)
    ensures CubicOut(t) == 1.0 - CubicIn(1.0 - t)
  {
    var u := 1.0 - t;
    assert (t - 1.0) * (t - 1.0) == u * u;
    assert (t - 1.0) * (t - 1.0) * (t - 1.0) == -(u * u * u);
  }

  /** Twice the time, eight times the way. */
  lemma CubicInIsCubic(t: real, k: real)
    ensures CubicIn(k * t) == k * k * k * CubicIn(t)
    ensures CubicIn(0.0) == 0.0 && CubicIn(1.0) == 1.0 && CubicIn(2.0 * t) == 8.0 * CubicIn(t)
  {
    assert (k * t) * (k * t) == (k * k) * (t * t);
    assert (k * t) * (k * t) * (k * t) == (k * k * k) * (t * t * t);
  }

  lemma CubicInMonotone(a: real, b: real)
    requires 0.0 <= a <= b
    ensures CubicIn(a) <= CubicIn(b)
  {
    ProductNonNegative(a, a);
    ProductMonotone(a, b, a);
    ProductMonotone(a, b, b);
    ProductMonotone(a * a, b * b, a);
    ProductNonNegative(b, b);
    ProductMonotone(a, b, b * b);
  }

  /** The way out starts at 0, ends at 1 and never turns back. */
  lemma CubicOutMonotone(a: real, b: real)
    requires 0.0 <= a <= b <= 1.0
    ensures CubicOut(a) <= CubicOut(b)
    ensures CubicOut(0.0) == 0.0 && CubicOut(1.0) == 1.0
  {
    EasingsMirror(a);
    EasingsMirror(b);
    CubicInMonotone(1.0 - b, 1.0 - a);
  }
}
