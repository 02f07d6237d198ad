/** Where zooms head for and what the view shows once they have come to their end. */
module ZoomViews {
  import opened Easings
  import opened Vectors
  import opened WorldMatrices
  import opened Zoom

  // ---------------------------------------------------------------- where a zoom heads for

  /** Up doubles the scale as far as 32 and recentres on the cursor, down halves it as far as 1/32 and does not. */
  lemma WheelHeadsFor(z: Zoomer, direction: real, cursor: Vector2)
    requires ScaleOk(z)
    ensures var r, s := Wheel(z, direction, cursor), z.world.scale.x;
      && (direction > 0.0 ==>
            && r.anim.to == Component(cursor, Both(if s > 16.0 then 32.0 else 2.0 * s)) && r.accuracy == 0.5)
      && (direction < 0.0 ==>
            && r.anim.to == Component(ZERO, Both(if s < 0.0625 then 0.03125 else s / 2.0)) && r.accuracy == z.accuracy)
      && (direction != 0.0 ==> r.playing && r.anim.from == Component(ZERO, Both(s)))
      && (direction == 0.0 ==> r == z)
  {
    assert z.world.scale == Both(z.world.scale.x);
    TargetOnAxis(z.world.scale.x, direction);
  }

  /** A snapshot heads for the scale that makes the rectangle one high, within limits, and for its centre. */
  lemma SnapshotHeadsFor(z: Zoomer, center: Vector2, sizeY: real)
    requires ScaleOk(z)
    ensures var r, s := Snapshot(z, center, sizeY), z.world.scale.x;
      var height := if sizeY < 0.0 then -sizeY else sizeY;
      && r.playing && r.accuracy == 1.0 && r.anim.from == Component(ZERO, Both(s))
      && r.anim.to.translation == Vector2(-center.x, -center.y)
      && InRange(r.anim.to.scaling)
      && (height > 0.0 && 0.03125 * height <= s <= 32.0 * height ==> r.anim.to.scaling.x * height == s)
      && (height > 0.0 && s < 0.03125 * height ==> r.anim.to.scaling.x == 0.03125)
      && (s > 32.0 * height ==> r.anim.to.scaling.x == 32.0)
  {
    var s := z.world.scale.x;
    var height := if sizeY < 0.0 then -sizeY else sizeY;
    if height > 0.0 {
      Quotients(s, height);
      ThresholdInRange(z.world.scale.Scaled(1.0 / height));
    }
  }

  lemma Quotients(s: real, height: real)
    requires height > 0.0
    ensures s * (1.0 / height) == s / height && (s / height) * height == s
    ensures s / height < 0.03125 <==> s < 0.03125 * height
    ensures s / height > 32.0 <==> s > 32.0 * height
  {
    DivideBack(s, height);
    DivideBack(1.0, height);
    QuotientIsProduct(s, height);
    QuotientOrder(s, 0.03125, height);
    QuotientOrder(s, 32.0, height);
  }

  lemma QuotientIsProduct(s: real, height: real)
    requires height > 0.0
    ensures s * (1.0 / height) == s / height
  {
  }

  lemma QuotientOrder(s: real, limit: real, height: real)
    requires height > 0.0
    ensures s / height < limit <==> s < limit * height
    ensures s / height > limit <==> s > limit * height
  {
    var q := s / height;
    DivideBack(s, height);
    if q < limit {
      PositiveProduct(limit - q, height);
      assert (limit - q) * height == limit * height - s;
    } else if q > limit {
      PositiveProduct(q - limit, height);
      assert (q - limit) * height == s - limit * height;
    }
  }

  // ---------------------------------------------------------------- what the view shows in the end

  /** The frames of a zoom as far as its end. */
  predicate ToTheEnd(prcs: seq<real>) {
    && prcs != [] && prcs[|prcs| - 1] == 1.0
    && Ascending(prcs) && forall i :: 0 <= i < |prcs| ==> 0.0 <= prcs[i] <= 1.0
  }

  lemma LerpEnds(a: Vector2, b: Vector2)
    ensures Lerp(a, b, 0.0) == a && Lerp(a, b, 1.0) == b
  {
  }

  /** When the last frame applied is at progress 1, the scale is the one the zoom headed for, and translation over scale
      has moved by the whole recentring. */
  lemma ZoomArrives(z: Zoomer, prcs: seq<real>, ease: real -> real)
    requires Started(z) && IsEasing(ease) && ToTheEnd(prcs)
    ensures var w := Frames(z, prcs, ease).world;
      && w.scale == z.anim.to.scaling
      && Centre(w) == Centre(z.world).Plus(z.anim.to.translation.Over(z.anim.from.scaling).Scaled(z.accuracy))
  {
    hide Frames, CubicOut, Centre, Vector2.Over, Lerp;
    RecentringTelescopes(z, prcs, ease);
    CubicOutMonotone(0.0, 1.0);
    LerpEnds(z.anim.from.scaling, z.anim.to.scaling);
    assert z.anim.to.translation.Scaled(1.0) == z.anim.to.translation;
  }

  /** So on one axis a point of the world is shown where it was, moved by the recentring and then scaled with the
      rest. */
  lemma SeenOnAxis(s: real, t: real, s': real, t': real, c: real, p: real)
    requires s > 0.0 && s' > 0.0 && t' / s' == t / s + c / s
    ensures s' * p + t' == (s * p + t + c) * (s' / s)
  {
    var f := s' / s;
    DivideBack(t', s');
    DivideBack(s', s);
    DivideBack(t, s);
    DivideBack(c, s);
    var a, b := t / s, c / s;
    assert t' == s' * (a + b);
    assert t == s * a && c == s * b && s' == s * f;
    assert (s * p + t + c) * f == (s * f) * (p + a + b) by {
      assert s * p + t + c == s * (p + a + b);
    }
    assert s' * p + s' * (a + b) == s' * (p + a + b);
  }

  /** Each point of the world ends where it was seen, moved by accuracy times what the zoom recentres by, and spread
      from the centre of the view in the ratio of the scales. */
  lemma ViewAfterZoom(z: Zoomer, prcs: seq<real>, ease: real -> real, p: Vector2)
    requires Started(z) && IsEasing(ease) && ToTheEnd(prcs) && z.anim.from.scaling == z.world.scale
    ensures var ratio := z.anim.to.scaling.x / z.world.scale.x;
      && Seen(Frames(z, prcs, ease).world, p).x
           == (Seen(z.world, p).x + z.anim.to.translation.x * z.accuracy) * ratio
      && Seen(Frames(z, prcs, ease).world, p).y
           == (Seen(z.world, p).y + z.anim.to.translation.y * z.accuracy) * ratio
  {
    hide Frames, Centre, Vector2.Over;
    ZoomArrives(z, prcs, ease);
    var w, v, tr, a := Frames(z, prcs, ease).world, z.world, z.anim.to.translation, z.accuracy;
    CentreMoved(w, v, tr, a);
    SeenOnAxis(v.scale.x, v.translation.x, w.scale.x, w.translation.x, tr.x * a, p.x);
    SeenOnAxis(v.scale.y, v.translation.y, w.scale.y, w.translation.y, tr.y * a, p.y);
  }

  lemma CentreMoved(w: World, v: World, tr: Vector2, a: real)
    requires Positive(w.scale) && Positive(v.scale) && Centre(w) == Centre(v).Plus(tr.Over(v.scale).Scaled(a))
    ensures w.translation.x / w.scale.x == v.translation.x / v.scale.x + (tr.x * a) / v.scale.x
    ensures w.translation.y / w.scale.y == v.translation.y / v.scale.y + (tr.y * a) / v.scale.y
  {
    ProductOver(tr.x, a, v.scale.x);
    ProductOver(tr.y, a, v.scale.y);
  }

  lemma ProductOver(t: real, a: real, s: real)
    requires s > 0.0
    ensures t / s * a == (t * a) / s
  {
  }

  /** A snapshot of a rectangle ends with its centre in the middle of the view and all distances from there divided by
      its height, as long as no limit is met: what was as high as the rectangle is as high as 1. */
  lemma SnapshotFitsRectangle(z: Zoomer, center: Vector2, sizeY: real, prcs: seq<real>, ease: real -> real, p: Vector2)
    requires ScaleOk(z) && IsEasing(ease) && ToTheEnd(prcs)
    requires sizeY > 0.0 && 0.03125 * sizeY <= z.world.scale.x <= 32.0 * sizeY
    ensures Started(Snapshot(z, center, sizeY))
    ensures var w := Frames(Snapshot(z, center, sizeY), prcs, ease).world;
      && Seen(w, p).x * sizeY == Seen(z.world, p).x - center.x
      && Seen(w, p).y * sizeY == Seen(z.world, p).y - center.y
  {
    hide Snapshot, Frames, Seen;
    var r := Snapshot(z, center, sizeY);
    ZoomsStart(z, 0.0, ZERO, center, sizeY);
    SnapshotHeadsFor(z, center, sizeY);
    ViewAfterZoom(r, prcs, ease, p);
    var s, target := z.world.scale.x, r.anim.to.scaling.x;
    DivideBack(target, s);
    RatioTimes(Seen(z.world, p).x - center.x, target / s, s, target, sizeY);
    RatioTimes(Seen(z.world, p).y - center.y, target / s, s, target, sizeY);
  }

  lemma RatioTimes(d: real, ratio: real, s: real, target: real, height: real)
    requires s > 0.0 && ratio * s == target && target * height == s
    ensures d * ratio * height == d
  {
    Swap(ratio, height, s);
    SameProduct(ratio * height, 1.0, s);
    Together(d, ratio, height);
  }

  lemma Swap(a: real, b: real, c: real)
    ensures a * b * c == (a * c) * b
  {
  }

  lemma Together(a: real, b: real, c: real)
    ensures a * b * c == a * (b * c)
  {
  }

  /** A wheel zoom ends with twice or half the scale, within limits. Down keeps the middle of the view; up first moves
      the view by half the cursor's vector. */
  lemma WheelEndsAt(z: Zoomer, direction: real, cursor: Vector2, prcs: seq<real>, ease: real -> real, p: Vector2)
    requires ScaleOk(z) && direction != 0.0 && IsEasing(ease) && ToTheEnd(prcs)
    ensures Started(Wheel(z, direction, cursor))
    ensures var w, s := Frames(Wheel(z, direction, cursor), prcs, ease).world, z.world.scale.x;
      && w.scale == Both(if direction > 0.0 then (if s > 16.0 then 32.0 else 2.0 * s)
                         else (if s < 0.0625 then 0.03125 else s / 2.0))
      && (direction > 0.0 ==>
            && Seen(w, p).x == (Seen(z.world, p).x + cursor.x * 0.5) * (w.scale.x / s)
            && Seen(w, p).y == (Seen(z.world, p).y + cursor.y * 0.5) * (w.scale.x / s))
      && (direction < 0.0 ==>
            && Seen(w, p).x == Seen(z.world, p).x * (w.scale.x / s)
            && Seen(w, p).y == Seen(z.world, p).y * (w.scale.x / s))
  {
    hide Wheel, Frames, Seen;
    ZoomsStart(z, direction, cursor, ZERO, 1.0);
    WheelHeadsFor(z, direction, cursor);
    ZoomArrives(Wheel(z, direction, cursor), prcs, ease);
    ViewAfterZoom(Wheel(z, direction, cursor), prcs, ease, p);
  }

  /** Moving the camera while a zoom is under way moves what the view shows by as much, as the rest of the zoom spreads
      it. */
  lemma TranslatedWhileZooming(z: Zoomer, d: Vector2, prcs: seq<real>, ease: real -> real, p: Vector2)
    requires Started(z) && IsEasing(ease) && ToTheEnd(prcs) && z.anim.from.scaling == z.world.scale
    ensures var r, ratio := Step(z, Translate(d), ease), z.anim.to.scaling.x / z.world.scale.x;
      && Started(r)
      && Seen(Frames(r, prcs, ease).world, p).x == Seen(Frames(z, prcs, ease).world, p).x + d.x * ratio
      && Seen(Frames(r, prcs, ease).world, p).y == Seen(Frames(z, prcs, ease).world, p).y + d.y * ratio
  {
    hide Frames, Seen;
    var r, ratio := Step(z, Translate(d), ease), z.anim.to.scaling.x / z.world.scale.x;
    SeenThrough(z.world, d, p);
    ViewAfterZoom(z, prcs, ease, p);
    ViewAfterZoom(r, prcs, ease, p);
    MovedSpread(Seen(z.world, p).x, d.x, z.anim.to.translation.x * z.accuracy, ratio);
    MovedSpread(Seen(z.world, p).y, d.y, z.anim.to.translation.y * z.accuracy, ratio);
  }

  lemma MovedSpread(v: real, d: real, tr: real, ratio: real)
    ensures (v + d + tr) * ratio == (v + tr) * ratio + d * ratio
  {
  }

  // ---------------------------------------------------------------- stopping

  predicate OnlyFrames(run: seq<Event>) {
    forall i :: 0 <= i < |run| ==> run[i].NextFrame? && MayHappen(run[i])
  }

  /** What has been stopped stays as it is. */
  lemma {:induction false} StoppedStays(z: Zoomer, run: seq<Event>, ease: real -> real)
    requires ScaleOk(z) && !z.playing && OnlyFrames(run)
    ensures Final(z, run, ease) == z
    decreases |run|
  {
    if run != [] {
      StoppedStays(z, run[1..], ease);
    }
  }

  /** Escape puts the world back, a keypad zoom sets its scale, and a player's last frame leaves it as it is; and no
      frame changes it afterwards, whatever zoom was under way. */
  lemma StopsForGood(z: Zoomer, direction: real, prc: real, run: seq<Event>, ease: real -> real)
    requires ScaleOk(z) && OnlyFrames(run) && 0.0 <= prc <= 1.0
    ensures ScaleOk(Step(z, Escape, ease)) && Final(Step(z, Escape, ease), run, ease).world == World(Both(1.0), ZERO)
    ensures ScaleOk(Step(z, NumPad(direction), ease))
    ensures Final(Step(z, NumPad(direction), ease), run, ease).world == InstantZoom(z, direction).world
    ensures ScaleOk(Step(z, NextFrame(prc, true), ease))
    ensures Final(Step(z, NextFrame(prc, true), ease), run, ease).world == z.world
  {
    StepKeepsScaleOk(z, Escape, ease);
    StepKeepsScaleOk(z, NumPad(direction), ease);
    StepKeepsScaleOk(z, NextFrame(prc, true), ease);
    StoppedStays(Step(z, Escape, ease), run, ease);
    StoppedStays(Step(z, NumPad(direction), ease), run, ease);
    StoppedStays(Step(z, NextFrame(prc, true), ease), run, ease);
  }
}
