/** What the frames of a scroll animation show, and where a scroll ends. */
module ScrollFrames {
  import opened Easings
  import opened Scrolls
  import opened Vectors

  predicate InUnit(prcs: seq<real>) {
    forall i :: 0 <= i < |prcs| ==> 0.0 <= prcs[i] <= 1.0
  }

  predicate Ascending(prcs: seq<real>) {
    forall i, j :: 0 <= i <= j < |prcs| ==> prcs[i] <= prcs[j]
  }

  /** Frames of one animation, each applied at its progress. */
  function AfterFrames(a: Anim, prcs: seq<real>): Anim {
    if prcs == [] then a else Advanced(AfterFrames(a, prcs[..|prcs| - 1]), prcs[|prcs| - 1], false)
  }

  lemma {:induction false} FramesKeepEnds(a: Anim, prcs: seq<real>)
    requires a.playing
    ensures var r := AfterFrames(a, prcs);
      && r.playing && r.from == a.from && r.to == a.to
      && (prcs != [] ==> r.shown == r.current == Mix(a.from, a.to, CubicOut(prcs[|prcs| - 1])))
  {
    hide Mix, CubicOut;
    if prcs != [] {
      FramesKeepEnds(a, prcs[..|prcs| - 1]);
    }
  }

  function Part(t: real, way: real): real {
    t * way
  }

  lemma MixFromStart(a: real, b: real, t: real)
    ensures Mix(a, b, t) == a + Part(t, b - a)
  {
    assert t * (b - a) == t * b - t * a;
  }

  lemma PartsGrow(t: real, u: real, way: real)
    requires 0.0 <= t <= u && way >= 0.0
    ensures 0.0 <= Part(t, way) <= Part(u, way)
  {
    ProductNonNegative(t, way);
    ProductMonotone(t, u, way);
  }

  lemma WholeWay(way: real)
    ensures Part(1.0, way) == way
  {
  }

  lemma PartsOfWay(t: real, u: real, way: real)
    requires 0.0 <= t <= u <= 1.0
    ensures way >= 0.0 ==> 0.0 <= Part(t, way) <= Part(u, way) <= way
    ensures way <= 0.0 ==> 0.0 >= Part(t, way) >= Part(u, way) >= way
  {
    hide Part;
    var size := if way >= 0.0 then way else -way;
    PartsGrow(t, u, size);
    PartsGrow(u, 1.0, size);
    WholeWay(size);
    Negated(t, way);
    Negated(u, way);
  }

  lemma Negated(t: real, d: real)
    ensures Part(t, -d) == -Part(t, d)
  {
  }

  /** Further along, a mix is nearer to its end. */
  lemma MixApproaches(a: real, b: real, t: real, u: real)
    requires 0.0 <= t <= u <= 1.0
    ensures a <= b ==> a <= Mix(a, b, t) <= Mix(a, b, u) <= b
    ensures a >= b ==> a >= Mix(a, b, t) >= Mix(a, b, u) >= b
  {
    hide Mix, Part;
    MixFromStart(a, b, t);
    MixFromStart(a, b, u);
    PartsOfWay(t, u, b - a);
  }

  lemma MixEnds(a: real, b: real)
    ensures Mix(a, b, 0.0) == a && Mix(a, b, 1.0) == b
  {
  }

  /** Over frames of ascending progress what is shown goes from start to target without ever turning back; it is the
      start at progress 0 and the target at progress 1. */
  lemma FramesGoToTarget(a: Anim, prcs: seq<real>, n: nat)
    requires a.playing && InUnit(prcs) && Ascending(prcs) && 0 < n <= |prcs|
    ensures var early, late := AfterFrames(a, prcs[..n]).shown, AfterFrames(a, prcs).shown;
      && (a.from <= a.to ==> a.from <= early <= late <= a.to)
      && (a.from >= a.to ==> a.from >= early >= late >= a.to)
      && (prcs[|prcs| - 1] == 0.0 ==> late == a.from)
      && (prcs[|prcs| - 1] == 1.0 ==> late == a.to)
  {
    hide AfterFrames, Mix, CubicOut;
    var p, q := prcs[n - 1], prcs[|prcs| - 1];
    FramesKeepEnds(a, prcs[..n]);
    FramesKeepEnds(a, prcs);
    CubicOutMonotone(p, q);
    CubicOutInUnit(p);
    CubicOutInUnit(q);
    MixApproaches(a.from, a.to, CubicOut(p), CubicOut(q));
    MixEnds(a.from, a.to);
  }

  /** How far: at progress t, 1 - (1 - t)^3 of the way. */
  lemma WayAtProgress(a: Anim, prc: real)
    requires a.playing
    ensures a.to - Advanced(a, prc, false).shown == CubicIn(1.0 - prc) * (a.to - a.from)
  {
    EasingsMirror(prc);
    var way, c := a.to - a.from, CubicIn(1.0 - prc);
    MixFromStart(a.from, a.to, CubicOut(prc));
    assert (1.0 - c) * way == way - c * way;
  }

  // ---------------------------------------------------------------- scrolls and frames

  predicate FramesOnly(run: seq<Event>) {
    forall i :: 0 <= i < |run| ==>
      (run[i].ContentFrame? || run[i].HandleFrame?) && !run[i].finished && MayHappen(run[i])
  }

  /** The progress of the frames of one of the two animations. */
  function ProgressOf(run: seq<Event>, side: Side): seq<real> {
    if run == [] then []
    else
      var before, last := ProgressOf(run[..|run| - 1], side), run[|run| - 1];
      match last
      case ContentFrame(prc, _) => if side.ContentSide? then before + [prc] else before
      case HandleFrame(prc, _) => if side.HandleSide? then before + [prc] else before
      case MouseWheel(_) => before
      case HandleMove(_, _) => before
  }

  /** Frames of content and handle do not get in each other's way, however they interleave. */
  lemma {:induction false} FramesInterleave(p: Panel, run: seq<Event>, side: Side)
    requires Scrollable(p) && FramesOnly(run)
    ensures AnimOf(Final(p, run), side) == AfterFrames(AnimOf(p, side), ProgressOf(run, side))
    ensures Final(p, run).factor == p.factor && Final(p, run).gap == p.gap
    ensures MaxTranslate(Final(p, run)) == MaxTranslate(p)
  {
    hide Scrollable, Advanced, Wheel, Drag;
    if run != [] {
      var front, last := run[..|run| - 1], run[|run| - 1];
      FramesInterleave(p, front, side);
      var before := ProgressOf(front, side);
      assert forall prc: real :: (before + [prc])[..|before|] == before;
      StepKeepsSizes(Final(p, front), last);
      assert last.ContentFrame? || last.HandleFrame?;
    }
  }

  predicate Arrives(prcs: seq<real>) {
    prcs != [] && prcs[|prcs| - 1] == 1.0
  }

  /** After a wheel event, once a frame at progress 1 has been applied to each, the content is shown where it was
      scrolled to and the handle at the same share of its track. */
  lemma WheelArrives(p: Panel, offset: real, run: seq<Event>)
    requires Scrollable(p) && FramesOnly(run)
    ensures var q := Final(Wheel(p, offset), run);
      && (Arrives(ProgressOf(run, ContentSide)) ==> q.content.shown == q.factor == Wheel(p, offset).factor)
      && (Arrives(ProgressOf(run, HandleSide)) ==>
            q.handle.shown == HandleAt(p.gap, q.factor, MaxTranslate(p)))
  {
    hide AfterFrames, Mix, CubicOut, HandleAt, Clamp;
    var w := Wheel(p, offset);
    FramesInterleave(w, run, ContentSide);
    FramesInterleave(w, run, HandleSide);
    FramesKeepEnds(w.content, ProgressOf(run, ContentSide));
    FramesKeepEnds(w.handle, ProgressOf(run, HandleSide));
    CubicOutMonotone(0.0, 1.0);
    MixEnds(w.content.from, w.content.to);
    MixEnds(w.handle.from, w.handle.to);
  }

  predicate AnyFrames(run: seq<Event>) {
    forall i :: 0 <= i < |run| ==> run[i].ContentFrame? || run[i].HandleFrame?
  }

  lemma {:induction false} StoppedStays(p: Panel, run: seq<Event>)
    requires Scrollable(p) && AnyFrames(run) && !p.content.playing && !p.handle.playing
    ensures Final(p, run) == p
  {
    hide Scrollable;
    if run != [] {
      StoppedStays(p, run[..|run| - 1]);
      var last := run[|run| - 1];
      assert last.ContentFrame? || last.HandleFrame?;
    }
  }

  /** A drag ends whatever animation is under way: frames that still come in change nothing. */
  lemma DragStays(p: Panel, move: int, pixelSize: real, run: seq<Event>)
    requires Scrollable(p) && AnyFrames(run) && move != 0
    ensures Scrollable(Drag(p, move, pixelSize))
    ensures var q := Final(Drag(p, move, pixelSize), run);
      && q.content.shown == q.factor == Drag(p, move, pixelSize).factor
      && q.handle.shown == HandleAt(p.gap, q.factor, MaxTranslate(p))
  {
    hide HandleAt, Clamp, ContentTick, DragTick;
    StoppedStays(Drag(p, move, pixelSize), run);
  }

  /** The last frame of a player is not shown, and no frame is after it. */
  lemma {:induction false} EndedStays(a: Anim, prc: real, prcs: seq<real>)
    ensures AfterFrames(Advanced(a, prc, true), prcs) == Advanced(a, prc, true)
    ensures Advanced(a, prc, true).shown == a.shown
  {
    hide Mix, CubicOut;
    if prcs != [] {
      EndedStays(a, prc, prcs[..|prcs| - 1]);
    }
  }

  /** A wheel event moves the position by exactly its offset, unless that is out of bounds; then it goes to the end. */
  lemma WheelMovesByOffset(p: Panel, offset: real)
    requires Scrollable(p)
    ensures var f := Wheel(p, offset).factor;
      && (0.0 <= p.factor - offset <= MaxTranslate(p) ==> f == p.factor - offset)
      && (p.factor - offset < 0.0 ==> f == 0.0)
      && (p.factor - offset > MaxTranslate(p) ==> f == MaxTranslate(p))
  {
  }

  /** A drag over the whole height of the window moves the handle by 2, which is that height in the view. */
  lemma DragAcrossWindow(height: int, parts: int)
    requires height > 0 && parts > 0
    ensures DragTick(height, 1.0 / height as real) == 2.0
    ensures DragTick(1, 1.0 / height as real) * height as real == 2.0
  {
    DivideBack(1.0, height as real);
  }

  /** Content that is not larger than its canvas leaves the handle as it was. */
  lemma SmallContentKeepsHandle(p: Panel, content: real, placeholder: real)
    requires 0.0 < content <= p.canvas
    ensures var r := Resized(p, content, placeholder);
      !r.bigEnough && r.handleSize == p.handleSize && r.gap == p.gap && r.handle == p.handle && r.factor == p.factor
  {
    ShareOrder(p.canvas, content);
    DivideBack(p.canvas, content);
  }
}
