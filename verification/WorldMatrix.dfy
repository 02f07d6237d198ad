/** The matrix the camera helpers share: a scaling followed by a translation, which is all they ever make of it. */
module WorldMatrices {
  import opened Vectors

  datatype World = World(scale: Vector2, translation: Vector2)
  {
    /** `Matrix3::scaling(f) * M` */
    function ScaledBy(f: Vector2): World {
      World(scale.Times(f), translation.Times(f))
    }

    /** `Matrix3::translation(d) * M` */
    function TranslatedBy(d: Vector2): World {
      World(scale, translation.Plus(d))
    }
  }

  /** Where the view shows a point of the world. */
  function Seen(w: World, p: Vector2): Vector2 {
    Vector2(w.scale.x * p.x + w.translation.x, w.scale.y * p.y + w.translation.y)
  }

  /** Scaling the world scales the view about its centre, translating it moves the view. */
  lemma SeenThrough(w: World, v: Vector2, p: Vector2)
    ensures Seen(w.ScaledBy(v), p) == Vector2(Seen(w, p).x * v.x, Seen(w, p).y * v.y)
    ensures Seen(w.TranslatedBy(v), p) == Vector2(Seen(w, p).x + v.x, Seen(w, p).y + v.y)
    ensures Seen(IDENTITY, p) == p
  {
    var s := Seen(w, p);
    assert (w.scale.x * v.x) * p.x == (w.scale.x * p.x) * v.x;
    assert s.x * v.x == (w.scale.x * p.x) * v.x + w.translation.x * v.x;
    assert (w.scale.y * v.y) * p.y == (w.scale.y * p.y) * v.y;
    assert s.y * v.y == (w.scale.y * p.y) * v.y + w.translation.y * v.y;
  }

  const IDENTITY := World(Both(1.0), ZERO)

  /** Held by reference. */
  class WorldMatrix {
    var value: World

    constructor ()
      ensures value == IDENTITY
    {
      value := IDENTITY;
    }
  }
}
