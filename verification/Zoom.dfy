/** The zoom animation of `MapScaleHelper.hpp` on top of `PlayerMatrixAnimator.hpp`. */
module Zoom {
  import opened Easings
  import opened Vectors
  import opened WorldMatrices

  const DELTA_BY_OFFLINE := 2.0
  const MAX_SCALE := 32.0
  const MIN_SCALE := 0.03125
  const SCROLL_ACCURACY := 0.5
  const SNAPSHOT_ACCURACY := 1.0

  /** `ScrollAnimStateComponent` and `Animation::State`. */
  datatype Component = Component(translation: Vector2, scaling: Vector2)
  datatype AnimState = AnimState(from: Component, to: Component, current: Component, previous: Component)

  const BLANK := Component(ZERO, ZERO)

  datatype Zoomer = Zoomer(world: World, anim: AnimState, playing: bool, accuracy: real)

  const NEW_ZOOMER := Zoomer(IDENTITY, AnimState(BLANK, BLANK, BLANK, BLANK), false, SCROLL_ACCURACY)

  /** The exponential easing, of which only its monotony and its end points matter. */
  ghost predicate IsEasing(ease: real -> real) {
    && ease(0.0) == 0.0 && ease(1.0) == 1.0
    && (forall a, b :: 0.0 <= a <= b <= 1.0 ==> ease(a) <= ease(b))
  }

  /** `_thresholdScaling`: the x component decides. */
  function Threshold(target: Vector2): Vector2 {
    if target.x < MIN_SCALE then Both(MIN_SCALE) else if target.x > MAX_SCALE then Both(MAX_SCALE) else target
  }

  /** `_scalingVectorFromDirection` */
  function TargetScale(scale: Vector2, direction: real): Vector2 {
    Threshold(scale.Times(Both(if direction < 0.0 then 1.0 / DELTA_BY_OFFLINE else DELTA_BY_OFFLINE)))
  }

  /** `_updateAnimationAndPlay`: `previous` keeps what it had. */
  function Play(z: Zoomer, from: Component, to: Component): Zoomer {
    z.(anim := AnimState(from, to, BLANK, z.anim.previous), playing := true)
  }

  /** `mouseScrollEvent`; `cursor` is the translated cursor position. */
  function Wheel(z: Zoomer, direction: real, cursor: Vector2): Zoomer {
    if direction == 0.0 then z
    else
      var from := Component(ZERO, z.world.scale);
      var to := Component(if direction > 0.0 then cursor else ZERO, TargetScale(z.world.scale, direction));
      Play(if direction > 0.0 then z.(accuracy := SCROLL_ACCURACY) else z, from, to)
  }

  /** `snapshotZoom`. A rectangle without height makes the factor infinite, which the threshold cuts to the maximum. */
  function Snapshot(z: Zoomer, center: Vector2, sizeY: real): Zoomer {
    var s := z.world.scale;
    var height := if sizeY < 0.0 then -sizeY else sizeY;
    var target := if height == 0.0 then Both(MAX_SCALE) else Threshold(s.Scaled(1.0 / height));
    Play(z.(accuracy := SNAPSHOT_ACCURACY), Component(ZERO, s), Component(Vector2(-center.x, -center.y), target))
  }

  /** `_instantZoom` */
  function InstantZoom(z: Zoomer, direction: real): Zoomer
    requires Positive(z.world.scale)
  {
    var factor := TargetScale(z.world.scale, direction).Over(z.world.scale);
    z.(playing := false, world := z.world.ScaledBy(factor))
  }

  /** `_defaultAnimationCallback` */
  function Callback(a: AnimState, prc: real, ease: real -> real): AnimState {
    var tr := Lerp(a.from.translation, a.to.translation, ease(prc));
    var moved := if a.to.translation == ZERO then a
                 else a.(previous := a.previous.(translation := a.current.translation),
                         current := a.current.(translation := tr));
    moved.(current := moved.current.(scaling := Lerp(a.from.scaling, a.to.scaling, CubicOut(prc))))
  }

  /** `_onAnimationProgress` */
  function Progress(z: Zoomer): Zoomer
    requires Positive(z.world.scale) && Positive(z.anim.from.scaling)
  {
    var sc, tr := z.anim.current.scaling, z.anim.current.translation;
    var scaled := if sc == ZERO then z.world else z.world.ScaledBy(sc.Over(z.world.scale));
    if tr == ZERO then z.(world := scaled)
    else
      var step := tr.Minus(z.anim.previous.translation).Over(z.anim.from.scaling);
      z.(world := scaled.TranslatedBy(step.Times(sc).Scaled(z.accuracy)))
  }

  /** `advance` at progress `prc`; a player that has come to its end calls back but is not applied any more. */
  function Frame(z: Zoomer, prc: real, finished: bool, ease: real -> real): Zoomer
    requires Positive(z.world.scale) && (z.playing ==> Positive(z.anim.from.scaling))
  {
    if !z.playing then z
    else
      var called := z.(anim := Callback(z.anim, prc, ease));
      if finished then called.(playing := false) else Progress(called)
  }

  // ---------------------------------------------------------------- the scale stays in range

  predicate InRange(s: Vector2) {
    s.x == s.y && MIN_SCALE <= s.x <= MAX_SCALE
  }

  /** The world scale is uniform and within its limits, and so are both ends of a zoom that is playing. */
  predicate ScaleOk(z: Zoomer) {
    InRange(z.world.scale) && (z.playing ==> InRange(z.anim.from.scaling) && InRange(z.anim.to.scaling))
  }

  datatype Event =
    | MouseWheel(direction: real, cursor: Vector2)
    | SnapshotZoom(center: Vector2, sizeY: real)
    | NumPad(direction: real)
    | Escape
    | Translate(d: Vector2)
    | NextFrame(prc: real, finished: bool)

  predicate MayHappen(e: Event) {
    e.NextFrame? ==> 0.0 <= e.prc <= 1.0
  }

  function Step(z: Zoomer, e: Event, ease: real -> real): Zoomer
    requires ScaleOk(z)
  {
    match e
    case MouseWheel(direction, cursor) => Wheel(z, direction, cursor)
    case SnapshotZoom(center, sizeY) => Snapshot(z, center, sizeY)
    case NumPad(direction) => InstantZoom(z, direction)
    case Escape => z.(playing := false, world := IDENTITY)
    case Translate(d) => z.(world := z.world.TranslatedBy(d))
    case NextFrame(prc, finished) => Frame(z, prc, finished, ease)
  }

  lemma ThresholdInRange(v: Vector2)
    requires v.x == v.y
    ensures InRange(Threshold(v))
  {
  }

  lemma FrameInRange(z: Zoomer, prc: real, finished: bool, ease: real -> real)
    requires ScaleOk(z) && 0.0 <= prc <= 1.0
    ensures ScaleOk(Frame(z, prc, finished, ease))
    ensures z.playing && !finished ==>
      Frame(z, prc, finished, ease).world.scale == Lerp(z.anim.from.scaling, z.anim.to.scaling, CubicOut(prc))
  {
    if z.playing && !finished {
      CubicOutInUnit(prc);
      var c := Lerp(z.anim.from.scaling, z.anim.to.scaling, CubicOut(prc));
      MixStaysBetween(z.anim.from.scaling.x, z.anim.to.scaling.x, CubicOut(prc), MIN_SCALE, MAX_SCALE);
      DivideBack(c.x, z.world.scale.x);
      DivideBack(c.y, z.world.scale.y);
    }
  }

  lemma TargetInRange(scale: Vector2, direction: real)
    requires InRange(scale)
    ensures InRange(TargetScale(scale, direction))
  {
  }

  lemma StepKeepsScaleOk(z: Zoomer, e: Event, ease: real -> real)
    requires ScaleOk(z) && MayHappen(e)
    ensures ScaleOk(Step(z, e, ease))
  {
    hide Frame, TargetScale, Threshold, Callback, Progress;
    match e {
      case MouseWheel(direction, cursor) => TargetInRange(z.world.scale, direction);
      case SnapshotZoom(center, sizeY) =>
        var height := if sizeY < 0.0 then -sizeY else sizeY;
        if height != 0.0 {
          ThresholdInRange(z.world.scale.Scaled(1.0 / height));
        }
      case NumPad(direction) =>
        TargetInRange(z.world.scale, direction);
        DivideBack(TargetScale(z.world.scale, direction).x, z.world.scale.x);
      case Escape =>
      case Translate(d) =>
      case NextFrame(prc, finished) => FrameInRange(z, prc, finished, ease);
    }
  }

  /** The state after a run; that each step may be taken at all rests on the scale being in range. */
  function Final(z: Zoomer, run: seq<Event>, ease: real -> real): (r: Zoomer)
    requires ScaleOk(z) && forall i :: 0 <= i < |run| ==> MayHappen(run[i])
    ensures ScaleOk(r)
    decreases |run|
  {
    if run == [] then z
    else
      StepKeepsScaleOk(z, run[0], ease);
      Final(Step(z, run[0], ease), run[1..], ease)
  }

  /** In every run of wheel, keypad and snapshot zooms, resets, translations and frames, whatever the easing. */
  lemma ScaleStaysInRange(run: seq<Event>, ease: real -> real)
    requires forall i :: 0 <= i < |run| ==> MayHappen(run[i])
    ensures var z := Final(NEW_ZOOMER, run, ease);
      && z.world.scale.x == z.world.scale.y && 1.0 / 32.0 <= z.world.scale.x <= 32.0
      && (z.playing ==> InRange(z.anim.from.scaling) && InRange(z.anim.to.scaling))
  {
    assert ScaleOk(Final(NEW_ZOOMER, run, ease));
  }

  lemma TargetOnAxis(s: real, direction: real)
    requires MIN_SCALE <= s <= MAX_SCALE
    ensures var t := TargetScale(Both(s), direction).x;
      && (direction < 0.0 ==> t == if s < 0.0625 then MIN_SCALE else s / 2.0)
      && (direction >= 0.0 ==> t == if s > 16.0 then MAX_SCALE else 2.0 * s)
      && TargetScale(Both(s), direction) == Both(t)
  {
  }

  /** Zooming in and out again on the keypad gives the world back exactly when the first step is not cut short by the
      maximum, and zooming out and in again when it is not by the minimum. */
  lemma KeyPadZoomsUndoEachOther(z: Zoomer)
    requires ScaleOk(z)
    ensures ScaleOk(InstantZoom(z, 1.0)) && ScaleOk(InstantZoom(z, -1.0))
    ensures InstantZoom(InstantZoom(z, 1.0), -1.0).world == z.world <==> z.world.scale.x <= 16.0
    ensures InstantZoom(InstantZoom(z, -1.0), 1.0).world == z.world <==> z.world.scale.x >= 0.0625
  {
    hide TargetScale;
    StepKeepsScaleOk(z, NumPad(1.0), x => x);
    StepKeepsScaleOk(z, NumPad(-1.0), x => x);
    InstantZoomRescales(z, 1.0);
    InstantZoomRescales(z, -1.0);
    InstantZoomRescales(InstantZoom(z, 1.0), -1.0);
    InstantZoomRescales(InstantZoom(z, -1.0), 1.0);
    if InstantZoom(InstantZoom(z, 1.0), -1.0).world.scale == z.world.scale {
      WorldFromCentre(InstantZoom(InstantZoom(z, 1.0), -1.0).world, z.world);
    }
    if InstantZoom(InstantZoom(z, -1.0), 1.0).world.scale == z.world.scale {
      WorldFromCentre(InstantZoom(InstantZoom(z, -1.0), 1.0).world, z.world);
    }
  }

  /** A keypad zoom keeps what is at the centre of the view there. */
  lemma InstantZoomRescales(z: Zoomer, direction: real)
    requires ScaleOk(z)
    ensures var w := InstantZoom(z, direction).world; var s := z.world.scale.x;
      && Positive(w.scale) && Centre(w) == Centre(z.world)
      && w.scale == Both(if direction < 0.0 then (if s < 0.0625 then MIN_SCALE else s / 2.0)
                         else (if s > 16.0 then MAX_SCALE else 2.0 * s))
  {
    hide TargetScale;
    TargetOnAxis(z.world.scale.x, direction);
    assert z.world.scale == Both(z.world.scale.x);
    ScalingKeepsCentre(z.world, TargetScale(z.world.scale, direction));
  }

  // ---------------------------------------------------------------- recentring telescopes

  /** Frames of one zoom, each at its progress and applied. */
  function Frames(z: Zoomer, prcs: seq<real>, ease: real -> real): (r: Zoomer)
    requires ScaleOk(z) && z.playing && forall i :: 0 <= i < |prcs| ==> 0.0 <= prcs[i] <= 1.0
    ensures ScaleOk(r) && r.playing && r.anim.from == z.anim.from && r.anim.to == z.anim.to && r.accuracy == z.accuracy
    decreases |prcs|
  {
    if prcs == [] then z
    else
      FrameInRange(z, prcs[0], false, ease);
      Frames(Frame(z, prcs[0], false, ease), prcs[1..], ease)
  }

  predicate Ascending(prcs: seq<real>) {
    forall i, j :: 0 <= i <= j < |prcs| ==> prcs[i] <= prcs[j]
  }

  /** The world point at the centre of the view, up to sign. */
  function Centre(w: World): Vector2
    requires Positive(w.scale)
  {
    w.translation.Over(w.scale)
  }

  /** How far the recentring has come: accuracy times current translation over the scale at the start. */
  function Recentred(z: Zoomer): Vector2
    requires Positive(z.anim.from.scaling)
  {
    z.anim.current.translation.Over(z.anim.from.scaling).Scaled(z.accuracy)
  }

  lemma ScalingKeepsRatio(t: real, s: real, c: real)
    requires s > 0.0 && c > 0.0
    ensures t * (c / s) / c == t / s && s * (c / s) == c
  {
    DivideBack(c, s);
    assert t * (c / s) == (t / s) * c;
    DivideBack(t / s, c);
  }

  /** One axis of one frame: scaling keeps the ratio of translation to scale, and the step moves it by a difference. */
  lemma AxisMoves(t: real, s: real, c: real, cur: real, prev: real, from: real, acc: real)
    requires s > 0.0 && c > 0.0 && from > 0.0
    ensures (t * (c / s) + (cur - prev) / from * c * acc) / c == t / s + (cur / from * acc - prev / from * acc)
  {
    ScalingKeepsRatio(t, s, c);
    var d := (cur - prev) / from;
    assert d == cur / from - prev / from;
    SumOver(t * (c / s), d * acc, c);
    assert d * c * acc == (d * acc) * c;
    assert d * acc == cur / from * acc - prev / from * acc;
  }

  lemma SumOver(a: real, b: real, c: real)
    requires c > 0.0
    ensures (a + b * c) / c == a / c + b
  {
    DivideBack(b, c);
  }

  /** The current translation as a frame finds it, while a zoom with a translation plays. */
  ghost predicate Eased(z: Zoomer, prc: real, ease: real -> real) {
    && z.anim.from.translation == ZERO
    && z.anim.current.translation ==
      (if z.anim.to.translation == ZERO then ZERO else z.anim.to.translation.Scaled(ease(prc)))
  }

  lemma CallbackEases(z: Zoomer, prc: real, ease: real -> real)
    requires z.anim.from.translation == ZERO && (z.anim.to.translation == ZERO ==> z.anim.current.translation == ZERO)
    ensures Eased(z.(anim := Callback(z.anim, prc, ease)), prc, ease)
  {
  }

  /** What a frame with a translation does to the world. */
  function Moved(w: World, c: Vector2, cur: Vector2, prev: Vector2, from: Vector2, acc: real): World
    requires Positive(w.scale) && Positive(from)
  {
    w.ScaledBy(c.Over(w.scale)).TranslatedBy(cur.Minus(prev).Over(from).Times(c).Scaled(acc))
  }

  lemma ScalingKeepsCentre(w: World, c: Vector2)
    requires Positive(w.scale) && Positive(c)
    ensures w.ScaledBy(c.Over(w.scale)).scale == c
    ensures Centre(w.ScaledBy(c.Over(w.scale))) == Centre(w)
  {
    ScalingKeepsRatio(w.translation.x, w.scale.x, c.x);
    ScalingKeepsRatio(w.translation.y, w.scale.y, c.y);
  }

  lemma MovedAxes(w: World, c: Vector2, cur: Vector2, prev: Vector2, from: Vector2, acc: real)
    requires Positive(w.scale) && Positive(c) && Positive(from)
    ensures Moved(w, c, cur, prev, from, acc).scale == c
    ensures var t := Moved(w, c, cur, prev, from, acc).translation;
      && t.x == w.translation.x * (c.x / w.scale.x) + (cur.x - prev.x) / from.x * c.x * acc
      && t.y == w.translation.y * (c.y / w.scale.y) + (cur.y - prev.y) / from.y * c.y * acc
  {
    ScalingKeepsCentre(w, c);
  }

  lemma MovedCentreAxes(w: World, c: Vector2, cur: Vector2, prev: Vector2, from: Vector2, acc: real)
    requires Positive(w.scale) && Positive(c) && Positive(from)
    ensures var t := Moved(w, c, cur, prev, from, acc).translation;
      && t.x / c.x == w.translation.x / w.scale.x + (cur.x / from.x * acc - prev.x / from.x * acc)
      && t.y / c.y == w.translation.y / w.scale.y + (cur.y / from.y * acc - prev.y / from.y * acc)
  {
    hide Moved;
    MovedAxes(w, c, cur, prev, from, acc);
    AxisMoves(w.translation.x, w.scale.x, c.x, cur.x, prev.x, from.x, acc);
    AxisMoves(w.translation.y, w.scale.y, c.y, cur.y, prev.y, from.y, acc);
  }

  lemma MovingMovesCentre(w: World, c: Vector2, cur: Vector2, prev: Vector2, from: Vector2, acc: real)
    requires Positive(w.scale) && Positive(c) && Positive(from)
    ensures Moved(w, c, cur, prev, from, acc).scale == c
    ensures Centre(Moved(w, c, cur, prev, from, acc))
         == Centre(w).Plus(cur.Over(from).Scaled(acc).Minus(prev.Over(from).Scaled(acc)))
  {
    hide Moved, Vector2.Scaled;
    MovedAxes(w, c, cur, prev, from, acc);
    MovedCentreAxes(w, c, cur, prev, from, acc);
    RatioAxes(cur, from, acc);
    RatioAxes(prev, from, acc);
  }

  lemma RatioAxes(v: Vector2, from: Vector2, acc: real)
    requires Positive(from)
    ensures v.Over(from).Scaled(acc) == Vector2(v.x / from.x * acc, v.y / from.y * acc)
  {
  }

  lemma NothingRecentred(from: Vector2, acc: real)
    requires Positive(from)
    ensures ZERO.Over(from).Scaled(acc) == ZERO
  {
  }

  /** A frame moves the centre by what it adds to the recentring. */
  lemma FrameMovesCentre(z: Zoomer, before: real, prc: real, ease: real -> real)
    requires ScaleOk(z) && z.playing && IsEasing(ease) && 0.0 <= before <= prc <= 1.0 && Eased(z, before, ease)
    ensures ScaleOk(Frame(z, prc, false, ease)) && Frame(z, prc, false, ease).playing
    ensures Eased(Frame(z, prc, false, ease), prc, ease)
    ensures Centre(Frame(z, prc, false, ease).world).Minus(Recentred(Frame(z, prc, false, ease)))
         == Centre(z.world).Minus(Recentred(z))
  {
    hide Vector2.Over, Vector2.Scaled, Vector2.Times, CubicOut, Lerp, World.ScaledBy, World.TranslatedBy;
    FrameInRange(z, prc, false, ease);
    CallbackEases(z, prc, ease);
    CallbackKeepsPrevious(z, before, prc, ease);
    var a := Callback(z.anim, prc, ease);
    var c, cur, prev, from := a.current.scaling, a.current.translation, z.anim.current.translation, z.anim.from.scaling;
    assert a.from == z.anim.from;
    if cur == ZERO {
      ScalingKeepsCentre(z.world, c);
      NothingRecentred(from, z.accuracy);
    } else {
      MovingMovesCentre(z.world, c, cur, prev, from, z.accuracy);
      assert Frame(z, prc, false, ease).world == Moved(z.world, c, cur, prev, from, z.accuracy);
    }
  }

  lemma CallbackKeepsPrevious(z: Zoomer, before: real, prc: real, ease: real -> real)
    requires ScaleOk(z) && z.playing && IsEasing(ease) && 0.0 <= before <= prc <= 1.0 && Eased(z, before, ease)
    ensures var a := Callback(z.anim, prc, ease);
      && InRange(a.current.scaling)
      && (a.current.translation == ZERO ==> z.anim.current.translation == ZERO)
      && (a.current.translation != ZERO ==> a.previous.translation == z.anim.current.translation)
  {
    CubicOutInUnit(prc);
    MixStaysBetween(z.anim.from.scaling.x, z.anim.to.scaling.x, CubicOut(prc), MIN_SCALE, MAX_SCALE);
    if z.anim.to.translation != ZERO {
      assert 0.0 <= ease(before) <= ease(prc);
      ScaledToZero(z.anim.to.translation, ease(prc));
    }
  }

  lemma ScaledToZero(v: Vector2, f: real)
    ensures v != ZERO && v.Scaled(f) == ZERO ==> f == 0.0
  {
  }

  lemma {:induction false} FramesMoveCentre(z: Zoomer, before: real, prcs: seq<real>, ease: real -> real)
    requires ScaleOk(z) && z.playing && IsEasing(ease) && 0.0 <= before <= 1.0 && Eased(z, before, ease)
    requires Ascending([before] + prcs) && forall i :: 0 <= i < |prcs| ==> 0.0 <= prcs[i] <= 1.0
    ensures var r := Frames(z, prcs, ease);
      && Eased(r, if prcs == [] then before else prcs[|prcs| - 1], ease)
      && Centre(r.world).Minus(Recentred(r)) == Centre(z.world).Minus(Recentred(z))
    decreases |prcs|
  {
    hide Eased, Frame, Centre, Recentred, IsEasing;
    if prcs != [] {
      assert ([before] + prcs)[0] <= ([before] + prcs)[1];
      FrameMovesCentre(z, before, prcs[0], ease);
      assert [prcs[0]] + prcs[1..] == prcs;
      assert Ascending(prcs) by {
        assert forall i :: 0 <= i < |prcs| ==> prcs[i] == ([before] + prcs)[i + 1];
      }
      FramesMoveCentre(Frame(z, prcs[0], false, ease), prcs[0], prcs[1..], ease);
    }
  }

  /** A zoom that has just been started. */
  predicate Started(z: Zoomer) {
    ScaleOk(z) && z.playing && z.anim.from.translation == ZERO && z.anim.current.translation == ZERO
  }

  /** After any frames of an uninterrupted zoom, translation over scale is its start value plus accuracy times the
      eased translation reached over the scale at the start, and the scale is the eased scale: only the last progress
      counts. */
  lemma RecentringTelescopes(z: Zoomer, prcs: seq<real>, ease: real -> real)
    requires Started(z) && IsEasing(ease) && prcs != []
    requires Ascending(prcs) && forall i :: 0 <= i < |prcs| ==> 0.0 <= prcs[i] <= 1.0
    ensures var r := Frames(z, prcs, ease); var last := prcs[|prcs| - 1];
      && Centre(r.world) == Centre(z.world).Plus(
           z.anim.to.translation.Scaled(ease(last)).Over(z.anim.from.scaling).Scaled(z.accuracy))
      && r.world.scale == Lerp(z.anim.from.scaling, z.anim.to.scaling, CubicOut(last))
  {
    hide Vector2.Over, Frame, CubicOut, Lerp, Ascending;
    AscendingFromZero(prcs);
    assert Eased(z, 0.0, ease) by {
      ScaledByZero(z.anim.to.translation);
    }
    FramesMoveCentre(z, 0.0, prcs, ease);
    FramesEndScale(z, prcs, ease);
    NothingRecentred(z.anim.from.scaling, z.accuracy);
    ScaledZero(ease(prcs[|prcs| - 1]));
    var r := Frames(z, prcs, ease);
    assert Centre(z.world).Minus(Recentred(z)) == Centre(z.world);
  }

  lemma AscendingFromZero(prcs: seq<real>)
    requires Ascending(prcs) && forall i :: 0 <= i < |prcs| ==> 0.0 <= prcs[i] <= 1.0
    ensures Ascending([0.0] + prcs)
  {
  }

  lemma ScaledByZero(v: Vector2)
    ensures v.Scaled(0.0) == ZERO
  {
  }

  lemma ScaledZero(f: real)
    ensures ZERO.Scaled(f) == ZERO
  {
  }

  lemma {:induction false} FramesEndScale(z: Zoomer, prcs: seq<real>, ease: real -> real)
    requires ScaleOk(z) && z.playing && prcs != [] && forall i :: 0 <= i < |prcs| ==> 0.0 <= prcs[i] <= 1.0
    ensures Frames(z, prcs, ease).world.scale ==
      Lerp(z.anim.from.scaling, z.anim.to.scaling, CubicOut(prcs[|prcs| - 1]))
    decreases |prcs|
  {
    hide Lerp, CubicOut;
    FrameInRange(z, prcs[0], false, ease);
    if |prcs| > 1 {
      FramesEndScale(Frame(z, prcs[0], false, ease), prcs[1..], ease);
    } else {
      assert prcs[1..] == [];
    }
  }

  lemma WorldFromCentre(v: World, w: World)
    requires Positive(v.scale) && v.scale == w.scale && Centre(v) == Centre(w)
    ensures v == w
  {
    DivideBack(v.translation.x, v.scale.x);
    DivideBack(w.translation.x, w.scale.x);
    DivideBack(v.translation.y, v.scale.y);
    DivideBack(w.translation.y, w.scale.y);
  }

  /** Two frame schedules that reach the same progress leave the same world. */
  lemma FrameScheduleDoesNotMatter(z: Zoomer, p: seq<real>, q: seq<real>, ease: real -> real)
    requires Started(z) && IsEasing(ease) && p != [] && q != [] && p[|p| - 1] == q[|q| - 1]
    requires Ascending(p) && forall i :: 0 <= i < |p| ==> 0.0 <= p[i] <= 1.0
    requires Ascending(q) && forall i :: 0 <= i < |q| ==> 0.0 <= q[i] <= 1.0
    ensures Frames(z, p, ease).world == Frames(z, q, ease).world
  {
    hide Vector2.Over, Frame, CubicOut, Lerp, Centre;
    RecentringTelescopes(z, p, ease);
    RecentringTelescopes(z, q, ease);
    WorldFromCentre(Frames(z, p, ease).world, Frames(z, q, ease).world);
  }

  lemma ZoomsStart(z: Zoomer, direction: real, cursor: Vector2, center: Vector2, sizeY: real)
    requires ScaleOk(z)
    ensures direction != 0.0 ==> Started(Wheel(z, direction, cursor)) && Wheel(z, direction, cursor).world == z.world
    ensures Started(Snapshot(z, center, sizeY)) && Snapshot(z, center, sizeY).world == z.world
  {
    StepKeepsScaleOk(z, MouseWheel(direction, cursor), x => x);
    StepKeepsScaleOk(z, SnapshotZoom(center, sizeY), x => x);
  }

  // ---------------------------------------------------------------- the object

  class MapScaleHelper {
    const animatedMatrix: WorldMatrix
    var animState: AnimState
    var playing: bool
    var zoomAccuracy: real

    function State(): Zoomer
      reads this, animatedMatrix
    {
      Zoomer(animatedMatrix.value, animState, playing, zoomAccuracy)
    }

    constructor (animatedMatrix: WorldMatrix)
      requires animatedMatrix.value == IDENTITY
      ensures this.animatedMatrix == animatedMatrix && State() == NEW_ZOOMER
    {
      this.animatedMatrix := animatedMatrix;
      animState, playing, zoomAccuracy := AnimState(BLANK, BLANK, BLANK, BLANK), false, SCROLL_ACCURACY;
    }

    method UpdateAnimationAndPlay(from: Component, to: Component)
      modifies this
      ensures State() == Play(old(State()), from, to)
    {
      animState := animState.(from := from, to := to, current := BLANK);
      playing := true;
    }

    method MouseScrollEvent(direction: real, cursor: Vector2)
      modifies this
      ensures State() == Wheel(old(State()), direction, cursor)
    {
      if direction == 0.0 {
        return;
      }
      var scaling := animatedMatrix.value.scale;
      var to := Component(ZERO, TargetScale(scaling, direction));
      if direction > 0.0 {
        zoomAccuracy := SCROLL_ACCURACY;
        to := to.(translation := cursor);
      }
      UpdateAnimationAndPlay(Component(ZERO, scaling), to);
    }

    method SnapshotZoomTo(center: Vector2, sizeY: real)
      modifies this
      ensures State() == Snapshot(old(State()), center, sizeY)
    {
      zoomAccuracy := SNAPSHOT_ACCURACY;
      var scaling := animatedMatrix.value.scale;
      var height := if sizeY < 0.0 then -sizeY else sizeY;
      var target := Both(MAX_SCALE);
      if height != 0.0 {
        target := Threshold(scaling.Scaled(1.0 / height));
      }
      UpdateAnimationAndPlay(Component(ZERO, scaling), Component(Vector2(-center.x, -center.y), target));
    }

    method KeyPadZoom(direction: real)
      requires Positive(animatedMatrix.value.scale)
      modifies this, animatedMatrix
      ensures State() == InstantZoom(old(State()), direction)
    {
      playing := false;
      var scaling := animatedMatrix.value.scale;
      animatedMatrix.value := animatedMatrix.value.ScaledBy(TargetScale(scaling, direction).Over(scaling));
    }

    /** `prc` and `finished` are what the player reports for the frame. */
    method Advance(prc: real, finished: bool, ease: real -> real)
      requires Positive(animatedMatrix.value.scale) && (playing ==> Positive(animState.from.scaling))
      modifies this, animatedMatrix
      ensures State() == Frame(old(State()), prc, finished, ease)
    {
      if !playing {
        return;
      }
      animState := Callback(animState, prc, ease);
      if finished {
        playing := false;
        return;
      }
      var sc, tr := animState.current.scaling, animState.current.translation;
      if sc != ZERO {
        animatedMatrix.value := animatedMatrix.value.ScaledBy(sc.Over(animatedMatrix.value.scale));
      }
      if tr != ZERO {
        var step := tr.Minus(animState.previous.translation).Over(animState.from.scaling);
        animatedMatrix.value := animatedMatrix.value.TranslatedBy(step.Times(sc).Scaled(zoomAccuracy));
      }
    }
  }
}
