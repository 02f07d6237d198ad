/** A scrollable panel, its content and its scroll handle, on the vertical axis: `src/app/widgets/scroll`. */
module Scrolls {
  import opened Easings
  import opened Vectors

  const SCROLL_TICK := 1.0

  /** `Scrollable`: the animation state and the translation in the matrix it animates. */
  datatype Anim = Anim(from: real, to: real, current: real, playing: bool, shown: real)

  /** `_animateScrollByTr`; starting an animation blanks the current value. */
  function Animated(a: Anim, tr: real): Anim {
    Anim(a.current, tr, 0.0, true, a.shown)
  }

  /** `_setAnimationKeyframe` and `_onAnimationProgress` */
  function Placed(tr: real): Anim {
    Anim(tr, tr, tr, false, tr)
  }

  /** `advance` at progress `prc`; the last frame of a player is not applied. */
  function Advanced(a: Anim, prc: real, finished: bool): Anim {
    if !a.playing then a
    else
      var c := Mix(a.from, a.to, CubicOut(prc));
      if finished then a.(current := c, playing := false) else a.(current := c, shown := c)
  }

  /** The fields of `Scissorable`, `Scroller` and `ScrollerHandle`. */
  datatype Panel = Panel(factor: real, canvas: real, contentSize: real, content: Anim,
                         bigEnough: bool, handleSize: real, gap: real, handle: Anim)

  function NewPanel(canvas: real, content: Anim, handle: Anim): Panel {
    Panel(0.0, canvas, 0.0, content, false, 0.0, 0.0, handle)
  }

  function MaxTranslate(p: Panel): real {
    p.contentSize - p.canvas
  }

  function Clamp(v: real, lo: real, hi: real): real {
    if v < lo then lo else if v > hi then hi else v
  }

  /** `animateByPercentage` and `inplaceByPercentage`: where the handle belongs when the content is at `f` of `max`. */
  function HandleAt(gap: real, f: real, max: real): real
    requires max != 0.0
  {
    -gap * (f / max)
  }

  function ScrolledTo(p: Panel, f: real, animate: bool): Panel
    requires MaxTranslate(p) != 0.0
  {
    var tr := HandleAt(p.gap, f, MaxTranslate(p));
    p.(factor := f,
       content := if animate then Animated(p.content, f) else Placed(f),
       handle := if animate then Animated(p.handle, tr) else Placed(tr))
  }

  /** `_scrollByContentSize` and what the panel makes of the percentage. */
  function Scrolled(p: Panel, tick: real, animate: bool): Panel
    requires MaxTranslate(p) != 0.0
  {
    ScrolledTo(p, Clamp(p.factor + tick, 0.0, MaxTranslate(p)), animate)
  }

  function Wheel(p: Panel, offset: real): Panel
    requires MaxTranslate(p) != 0.0
  {
    Scrolled(p, -(offset * SCROLL_TICK), true)
  }

  /** How far the mouse has moved the handle. */
  function DragTick(move: int, pixelSize: real): real {
    move as real * pixelSize * 2.0
  }

  /** `scrollFromHandle`: the same share of the content's way. */
  function ContentTick(tick: real, gap: real, max: real): real
    requires gap != 0.0
  {
    max * (tick / gap)
  }

  function Drag(p: Panel, move: int, pixelSize: real): Panel
    requires move != 0 ==> MaxTranslate(p) != 0.0 && p.gap != 0.0
  {
    if move == 0 then p else Scrolled(p, ContentTick(DragTick(move, pixelSize), p.gap, MaxTranslate(p)), false)
  }

  /** `_scrollContentChanged` with a placeholder of the given size. */
  function Resized(p: Panel, content: real, placeholder: real): Panel
    requires content != 0.0
  {
    var ratio := p.canvas / content;
    var sized := p.(contentSize := content, bigEnough := ratio < 1.0);
    if ratio < 1.0 then sized.(handleSize := placeholder * ratio, gap := placeholder - placeholder * ratio) else sized
  }

  // ---------------------------------------------------------------- in step

  predicate Within(a: Anim, lo: real, hi: real) {
    lo <= a.from <= hi && lo <= a.to <= hi && lo <= a.current <= hi && lo <= a.shown <= hi
  }

  /** There is something to scroll, and room for the handle to move. */
  predicate Scrollable(p: Panel) {
    MaxTranslate(p) > 0.0 && p.gap > 0.0
  }

  /** Content and handle are heading for the same place. */
  predicate TargetsAgree(p: Panel) {
    && MaxTranslate(p) != 0.0
    && 0.0 <= p.factor <= MaxTranslate(p)
    && p.content.to == p.factor
    && p.handle.to == HandleAt(p.gap, p.factor, MaxTranslate(p))
  }

  /** Neither content nor handle is anywhere outside. */
  predicate InTrack(p: Panel) {
    Within(p.content, 0.0, MaxTranslate(p)) && Within(p.handle, -p.gap, 0.0)
  }

  datatype Event =
    | MouseWheel(offset: real)
    | HandleMove(move: int, pixelSize: real)
    | ContentFrame(prc: real, finished: bool)
    | HandleFrame(prc: real, finished: bool)

  predicate MayHappen(e: Event) {
    (e.ContentFrame? || e.HandleFrame?) ==> 0.0 <= e.prc <= 1.0
  }

  function Step(p: Panel, e: Event): (r: Panel)
    requires Scrollable(p)
    ensures Scrollable(r)
  {
    match e
    case MouseWheel(offset) => Wheel(p, offset)
    case HandleMove(move, pixelSize) => Drag(p, move, pixelSize)
    case ContentFrame(prc, finished) => p.(content := Advanced(p.content, prc, finished))
    case HandleFrame(prc, finished) => p.(handle := Advanced(p.handle, prc, finished))
  }

  function Final(p: Panel, run: seq<Event>): (r: Panel)
    requires Scrollable(p)
    ensures Scrollable(r)
  {
    if run == [] then p else Step(Final(p, run[..|run| - 1]), run[|run| - 1])
  }

  lemma ShareOrder(v: real, max: real)
    requires max > 0.0
    ensures v < 0.0 <==> v / max < 0.0
    ensures v > max <==> v / max > 1.0
  {
    var share := v / max;
    DivideBack(v, max);
    if share >= 0.0 {
      ProductNonNegative(share, max);
    }
    if share <= 1.0 {
      ProductNonNegative(1.0 - share, max);
    }
    if share > 1.0 {
      ProductMonotone(1.0, share, max);
    }
  }

  lemma HandleInTrack(gap: real, f: real, max: real)
    requires gap > 0.0 && 0.0 <= f <= max && max > 0.0
    ensures -gap <= HandleAt(gap, f, max) <= 0.0
  {
    var share := f / max;
    ShareOrder(f, max);
    ProductNonNegative(gap, share);
    ProductNonNegative(gap, 1.0 - share);
  }

  /** A single scroll, from any state with something to scroll, makes both head for the same place; a drag puts them
      there at once. */
  lemma ScrollMakesTargetsAgree(p: Panel, tick: real, animate: bool)
    requires Scrollable(p)
    ensures Scrollable(Scrolled(p, tick, animate)) && TargetsAgree(Scrolled(p, tick, animate))
    ensures InTrack(p) || !animate ==> InTrack(Scrolled(p, tick, animate))
  {
    hide HandleAt;
    HandleInTrack(p.gap, Clamp(p.factor + tick, 0.0, MaxTranslate(p)), MaxTranslate(p));
  }

  lemma AdvancedWithin(a: Anim, prc: real, finished: bool, lo: real, hi: real)
    requires Within(a, lo, hi) && 0.0 <= prc <= 1.0
    ensures Within(Advanced(a, prc, finished), lo, hi) && Advanced(a, prc, finished).to == a.to
  {
    hide Mix, CubicOut;
    CubicOutInUnit(prc);
    MixStaysBetween(a.from, a.to, CubicOut(prc), lo, hi);
  }

  /** A wheel event or a drag that moved. */
  predicate Scrolls(e: Event) {
    e.MouseWheel? || (e.HandleMove? && e.move != 0)
  }

  predicate Drags(e: Event) {
    e.HandleMove? && e.move != 0
  }

  lemma StepAgrees(p: Panel, e: Event)
    requires Scrollable(p) && MayHappen(e)
    ensures TargetsAgree(p) || Scrolls(e) ==> TargetsAgree(Step(p, e))
    ensures InTrack(p) || Drags(e) ==> InTrack(Step(p, e))
  {
    hide Scrolled, Advanced, HandleAt, ContentTick;
    match e {
      case MouseWheel(offset) => ScrollMakesTargetsAgree(p, -(offset * SCROLL_TICK), true);
      case HandleMove(move, pixelSize) =>
        if move != 0 {
          ScrollMakesTargetsAgree(p, ContentTick(DragTick(move, pixelSize), p.gap, MaxTranslate(p)), false);
        }
      case ContentFrame(prc, finished) => FrameKeepsAim(p.content, prc, finished, 0.0, MaxTranslate(p));
      case HandleFrame(prc, finished) => FrameKeepsAim(p.handle, prc, finished, -p.gap, 0.0);
    }
  }

  lemma FrameKeepsAim(a: Anim, prc: real, finished: bool, lo: real, hi: real)
    requires 0.0 <= prc <= 1.0
    ensures Advanced(a, prc, finished).to == a.to
    ensures Within(a, lo, hi) ==> Within(Advanced(a, prc, finished), lo, hi)
  {
    if Within(a, lo, hi) {
      AdvancedWithin(a, prc, finished, lo, hi);
    }
  }

  /** From any panel with something to scroll, over any wheel scrolls, handle drags and frames: once there has been a
      scroll the content is scrolled within its bounds and the handle is heading for the same share of its track; once
      there has been a drag, or if it was so at the start, neither is anywhere outside. */
  lemma {:induction false} ScrollingStaysInStep(p: Panel, run: seq<Event>)
    requires Scrollable(p) && forall i :: 0 <= i < |run| ==> MayHappen(run[i])
    ensures TargetsAgree(p) || (exists i :: 0 <= i < |run| && Scrolls(run[i])) ==> TargetsAgree(Final(p, run))
    ensures InTrack(p) || (exists i :: 0 <= i < |run| && Drags(run[i])) ==> InTrack(Final(p, run))
    ensures MaxTranslate(Final(p, run)) == MaxTranslate(p) && Final(p, run).gap == p.gap
  {
    hide InTrack, TargetsAgree, Wheel, Drag, Advanced;
    if run != [] {
      var front := run[..|run| - 1];
      ScrollingStaysInStep(p, front);
      StepAgrees(Final(p, front), run[|run| - 1]);
      StepKeepsSizes(Final(p, front), run[|run| - 1]);
      assert forall i :: 0 <= i < |front| ==> run[i] == front[i];
    }
  }

  /** The same from a new panel, whatever its uninitialised animations hold, as soon as its content is known to be
      larger than its canvas. */
  lemma NewPanelScrolls(canvas: real, contentSize: real, placeholder: real, content: Anim, handle: Anim,
    run: seq<Event>)
    requires 0.0 < canvas < contentSize && placeholder > 0.0
    requires (forall i :: 0 <= i < |run| ==> MayHappen(run[i])) && exists i :: 0 <= i < |run| && Scrolls(run[i])
    ensures var p := Resized(NewPanel(canvas, content, handle), contentSize, placeholder);
      Scrollable(p) && TargetsAgree(Final(p, run))
  {
    HandleFillsPlaceholder(NewPanel(canvas, content, handle), contentSize, placeholder);
    ScrollingStaysInStep(Resized(NewPanel(canvas, content, handle), contentSize, placeholder), run);
  }

  lemma StepKeepsSizes(p: Panel, e: Event)
    requires Scrollable(p)
    ensures MaxTranslate(Step(p, e)) == MaxTranslate(p) && Step(p, e).gap == p.gap
  {
  }

  // ---------------------------------------------------------------- what a drag does

  lemma ClampScales(v: real, max: real, gap: real)
    requires max > 0.0 && gap > 0.0
    ensures HandleAt(gap, Clamp(v, 0.0, max), max) == Clamp(HandleAt(gap, v, max), -gap, 0.0)
  {
    var share := v / max;
    ShareOrder(v, max);
    if v < 0.0 {
      PositiveProduct(gap, -share);
    } else if v > max {
      PositiveProduct(gap, share - 1.0);
    } else {
      HandleInTrack(gap, v, max);
    }
  }

  lemma TickIsShare(f: real, max: real, gap: real, tick: real)
    requires max > 0.0 && gap > 0.0
    ensures HandleAt(gap, f + ContentTick(tick, gap, max), max) == HandleAt(gap, f, max) - tick
  {
    var d := tick / gap;
    DivideBack(d, max);
    assert (f + max * d) / max == f / max + d;
    DivideBack(tick, gap);
  }

  /** Dragging sets the handle down at once where the mouse has taken it, kept inside the track; unless it gets stuck
      there it has moved by exactly the tick. */
  lemma DragMovesHandleByTick(p: Panel, move: int, pixelSize: real)
    requires Scrollable(p) && TargetsAgree(p) && move != 0
    ensures var r := Drag(p, move, pixelSize); var aim := p.handle.to - DragTick(move, pixelSize);
      && r.handle == Placed(Clamp(aim, -p.gap, 0.0))
      && (r.handle.to == p.handle.to - DragTick(move, pixelSize) <==> -p.gap <= aim <= 0.0)
  {
    hide DragTick, Clamp, HandleAt, ContentTick;
    var tick := DragTick(move, pixelSize);
    TickIsShare(p.factor, MaxTranslate(p), p.gap, tick);
    ClampScales(p.factor + ContentTick(tick, p.gap, MaxTranslate(p)), MaxTranslate(p), p.gap);
    ClampMoves(p.handle.to - tick, -p.gap, 0.0);
  }

  /** On the screen it has moved by the tick exactly if it was shown where it was heading, the aim being in the track;
      in any case it is shown where the content is. */
  lemma DragMovesShownHandleExactly(p: Panel, move: int, pixelSize: real)
    requires Scrollable(p) && TargetsAgree(p) && move != 0
    requires -p.gap <= p.handle.to - DragTick(move, pixelSize) <= 0.0
    ensures var r := Drag(p, move, pixelSize);
      && (r.handle.shown == p.handle.shown - DragTick(move, pixelSize) <==> p.handle.shown == p.handle.to)
      && r.handle.shown == HandleAt(r.gap, r.content.shown, MaxTranslate(r))
  {
    hide DragTick, HandleAt, ContentTick;
    DragMovesHandleByTick(p, move, pixelSize);
  }

  lemma ClampMoves(v: real, lo: real, hi: real)
    requires lo <= hi
    ensures Clamp(v, lo, hi) == v <==> lo <= v <= hi
  {
  }

  /** Two drags are one drag by both moves, as long as the first does not hit an end of the track. */
  lemma DragsAddUp(p: Panel, first: int, second: int, pixelSize: real)
    requires Scrollable(p) && TargetsAgree(p) && first != 0 && second != 0 && first + second != 0
    requires -p.gap <= p.handle.to - DragTick(first, pixelSize) <= 0.0
    ensures Drag(Drag(p, first, pixelSize), second, pixelSize).handle == Drag(p, first + second, pixelSize).handle
  {
    hide DragTick, Clamp, TargetsAgree, HandleAt, ContentTick, Scrolled;
    var q := Drag(p, first, pixelSize);
    ScrollMakesTargetsAgree(p, ContentTick(DragTick(first, pixelSize), p.gap, MaxTranslate(p)), false);
    StepKeepsSizes(p, HandleMove(first, pixelSize));
    DragMovesHandleByTick(p, first, pixelSize);
    ClampMoves(p.handle.to - DragTick(first, pixelSize), -p.gap, 0.0);
    DragMovesHandleByTick(q, second, pixelSize);
    DragMovesHandleByTick(p, first + second, pixelSize);
    TicksAddUp(first, second, pixelSize);
  }

  lemma TicksAddUp(a: int, b: int, pixelSize: real)
    ensures DragTick(a + b, pixelSize) == DragTick(a, pixelSize) + DragTick(b, pixelSize)
  {
    assert (a as real + b as real) * pixelSize == a as real * pixelSize + b as real * pixelSize;
  }

  // ---------------------------------------------------------------- sizes

  /** A handle that is resized fills what its gap leaves of the placeholder, so that it reaches both ends. */
  lemma HandleFillsPlaceholder(p: Panel, content: real, placeholder: real)
    requires 0.0 < p.canvas < content && placeholder > 0.0
    ensures var r := Resized(p, content, placeholder);
      && Scrollable(r) && r.bigEnough && r.handleSize > 0.0
      && r.gap + r.handleSize == placeholder
      && r.handleSize / placeholder == r.canvas / r.contentSize
  {
    var ratio := p.canvas / content;
    DivideBack(p.canvas, content);
    ShareOrder(p.canvas, content);
    assert 0.0 < ratio < 1.0;
    PositiveProduct(placeholder, ratio);
    PositiveProduct(placeholder, 1.0 - ratio);
    assert placeholder - placeholder * ratio == placeholder * (1.0 - ratio);
    DivideBack(ratio, placeholder);
  }

  /** The position becomes negative exactly when the content is smaller than the canvas, so that its scroller is not
      even drawn, and the scroll does not aim above the top: the bound that is to stop it is negative. */
  lemma PositionGoesNegative(p: Panel, offset: real)
    requires MaxTranslate(p) != 0.0
    ensures Wheel(p, offset).factor < 0.0 <==> p.contentSize < p.canvas && p.factor - offset >= 0.0
    ensures p.contentSize < p.canvas ==>
      Wheel(p, offset).factor == if p.factor - offset < 0.0 then 0.0 else MaxTranslate(p)
    ensures p.contentSize > p.canvas ==> 0.0 <= Wheel(p, offset).factor <= MaxTranslate(p)
  {
  }

  /** Turning the wheel up goes up and down goes down; turning it back gives the position back exactly when nothing was
      cut off, or it was where it was at the other end anyway. */
  lemma WheelTurnsBack(p: Panel, offset: real)
    requires Scrollable(p) && TargetsAgree(p)
    ensures offset >= 0.0 ==> Wheel(p, offset).factor <= p.factor && Wheel(p, offset).handle.to >= p.handle.to
    ensures offset <= 0.0 ==> Wheel(p, offset).factor >= p.factor && Wheel(p, offset).handle.to <= p.handle.to
    ensures Wheel(Wheel(p, offset), -offset).factor == p.factor <==>
            || 0.0 <= p.factor - offset <= MaxTranslate(p)
            || (p.factor == MaxTranslate(p) && offset > MaxTranslate(p))
            || (p.factor == 0.0 && -offset > MaxTranslate(p))
  {
    hide HandleAt;
    HandleFollows(p.gap, p.factor, Wheel(p, offset).factor, MaxTranslate(p));
    HandleFollows(p.gap, Wheel(p, offset).factor, p.factor, MaxTranslate(p));
  }

  lemma DifferenceOver(g: real, f: real, max: real)
    requires max > 0.0
    ensures (g - f) / max == g / max - f / max
  {
    var a, b, d := f / max, g / max, (g - f) / max;
    DivideBack(f, max);
    DivideBack(g, max);
    DivideBack(g - f, max);
    assert (b - a) * max == b * max - a * max;
    SameProduct(b - a, d, max);
  }

  lemma HandleFollows(gap: real, f: real, g: real, max: real)
    requires gap > 0.0 && max > 0.0
    ensures f <= g ==> HandleAt(gap, f, max) >= HandleAt(gap, g, max)
  {
    if f <= g {
      var a, b := f / max, g / max;
      ShareOrder(g - f, max);
      DifferenceOver(g, f, max);
      ProductNonNegative(gap, b - a);
      assert gap * (b - a) == gap * b - gap * a;
    }
  }

  // ---------------------------------------------------------------- where a wheel animation starts

  datatype Side = ContentSide | HandleSide

  function AnimOf(p: Panel, side: Side): Anim {
    if side.ContentSide? then p.content else p.handle
  }

  /** What an event does to one of the two animations: start it, apply a frame, end it on a value, or put it
      somewhere. */
  datatype Change = Untouched | Started | Applied | Ended(value: real) | Put

  function ChangeOf(p: Panel, e: Event, side: Side): Change {
    match e
    case MouseWheel(_) => Started
    case HandleMove(move, _) => if move == 0 then Untouched else Put
    case ContentFrame(prc, finished) => if side.ContentSide? then FrameChange(p.content, prc, finished) else Untouched
    case HandleFrame(prc, finished) => if side.HandleSide? then FrameChange(p.handle, prc, finished) else Untouched
  }

  function FrameChange(a: Anim, prc: real, finished: bool): Change {
    if !a.playing then Untouched
    else if finished then Ended(Mix(a.from, a.to, CubicOut(prc)))
    else Applied
  }

  /** The last event of a run that changed the animation. */
  function LastChange(p: Panel, run: seq<Event>, side: Side): Change
    requires Scrollable(p)
  {
    if run == [] then Untouched
    else
      var front := run[..|run| - 1];
      var c := ChangeOf(Final(p, front), run[|run| - 1], side);
      if c.Untouched? then LastChange(p, front, side) else c
  }

  lemma {:induction false} CurrentAfterRun(p: Panel, run: seq<Event>, side: Side)
    requires Scrollable(p)
    ensures var a := AnimOf(Final(p, run), side);
      match LastChange(p, run, side)
      case Untouched => a == AnimOf(p, side)
      case Started => a.current == 0.0
      case Ended(value) => a.current == value
      case Applied => a.current == a.shown
      case Put => a.current == a.shown
  {
    hide Scrollable, MaxTranslate, Clamp, HandleAt, ContentTick, Mix, CubicOut;
    if run != [] {
      CurrentAfterRun(p, run[..|run| - 1], side);
    }
  }

  /** Starting an animation blanks its current value, and a player's last frame sets it without showing it. So, whatever
      the run, a wheel event animates from where content or handle is shown exactly if the last event that changed the
      animation was an applied frame or a drag, or the value left unshown happens to be the one that is shown. */
  lemma WheelStartsFromShownExactly(p: Panel, run: seq<Event>, offset: real, side: Side)
    requires Scrollable(p)
    ensures var q := Final(p, run); var shown := AnimOf(q, side).shown;
      AnimOf(Wheel(q, offset), side).from == shown <==>
        match LastChange(p, run, side)
        case Untouched => AnimOf(p, side).current == shown
        case Started => shown == 0.0
        case Ended(value) => shown == value
        case Applied => true
        case Put => true
  {
    CurrentAfterRun(p, run, side);
  }

  /** So a second wheel event before the next frame starts over from the top. */
  lemma SecondWheelStartsOver(p: Panel, first: real, second: real)
    requires Scrollable(p)
    ensures Wheel(Wheel(p, first), second).handle.from == 0.0 && Wheel(Wheel(p, first), second).content.from == 0.0
    ensures TargetsAgree(Wheel(Wheel(p, first), second))
  {
    ScrollMakesTargetsAgree(Wheel(p, first), -(second * SCROLL_TICK), true);
  }

  // ---------------------------------------------------------------- the objects

  /** What `Scrollable` takes from `PlayerMatrixAnimator<float>`. The fields start out with whatever they are given: the
      program does not initialise the animation state. */
  class ScrollAnimator {
    var from: real
    var to: real
    var current: real
    var playing: bool
    var scrollMatrix: real

    function Value(): Anim
      reads this
    {
      Anim(from, to, current, playing, scrollMatrix)
    }

    constructor (start: Anim)
      ensures Value() == start
    {
      from, to, current, playing, scrollMatrix := start.from, start.to, start.current, start.playing, start.shown;
    }

    method UpdateAnimationAndPlay(from: real, to: real)
      modifies this
      ensures Value() == Anim(from, to, 0.0, true, old(scrollMatrix))
    {
      this.from := from;
      this.to := to;
      current := 0.0;
      playing := true;
    }

    method AnimateScrollByTr(tr: real)
      modifies this
      ensures Value() == Animated(old(Value()), tr)
    {
      var ca := current;
      UpdateAnimationAndPlay(ca, tr);
    }

    method SetAnimationKeyframe(to: real)
      modifies this
      ensures Value() == Anim(to, to, to, false, old(scrollMatrix))
    {
      playing := false;
      from := to;
      this.to := to;
      current := to;
    }

    method OnAnimationProgress()
      modifies `scrollMatrix
      ensures scrollMatrix == current
    {
      scrollMatrix := current;
    }

    /** `prc` and `finished` are what the player reports for the frame. */
    method Advance(prc: real, finished: bool)
      modifies this
      ensures Value() == Advanced(old(Value()), prc, finished)
    {
      if playing {
        current := Mix(from, to, CubicOut(prc));
        playing := !finished;
        if playing {
          OnAnimationProgress();
        }
      }
    }
  }

  class ScrollerHandle {
    const animator: ScrollAnimator
    var size: real
    var translationGap: real

    constructor (start: Anim)
      ensures fresh(animator) && animator.Value() == start && translationGap == 0.0 && size == 0.0
    {
      animator := new ScrollAnimator(start);
      size, translationGap := 0.0, 0.0;
    }

    method AnimateByPercentage(prc: real)
      modifies animator
      ensures animator.Value() == Animated(old(animator.Value()), -translationGap * prc)
    {
      animator.AnimateScrollByTr(-translationGap * prc);
    }

    method InplaceByPercentage(prc: real)
      modifies animator
      ensures animator.Value() == Placed(-translationGap * prc)
    {
      animator.SetAnimationKeyframe(-translationGap * prc);
      animator.OnAnimationProgress();
    }

    method UpdateSize(handleSize: real, trGap: real)
      modifies this
      ensures size == handleSize && translationGap == trGap
    {
      translationGap := trGap;
      size := handleSize;
    }
  }

  class Scroller {
    const handle: ScrollerHandle
    var placeholder: real
    var contentBigEnough: bool

    constructor (placeholder: real, start: Anim)
      ensures fresh(handle) && fresh(handle.animator) && handle.animator.Value() == start
      ensures handle.translationGap == 0.0 && handle.size == 0.0
      ensures this.placeholder == placeholder && !contentBigEnough
    {
      handle := new ScrollerHandle(start);
      this.placeholder, contentBigEnough := placeholder, false;
    }

    method OnContentRatioChanged(ratio: real)
      modifies `contentBigEnough, handle
      ensures contentBigEnough == (ratio < 1.0)
      ensures handle.size == if ratio < 1.0 then placeholder * ratio else old(handle.size)
      ensures handle.translationGap
           == if ratio < 1.0 then placeholder - placeholder * ratio else old(handle.translationGap)
    {
      contentBigEnough := ratio < 1.0;
      if !contentBigEnough {
        return;
      }
      var handleSize := placeholder * ratio;
      handle.UpdateSize(handleSize, placeholder - handleSize);
    }
  }

  /** `ScrollablePanel` with its `Scissorable` content. */
  class ScrollablePanel {
    const animator: ScrollAnimator
    const scroller: Scroller
    var translationFactor: real
    var canvasSize: real
    var contentSize: real

    ghost predicate Valid() {
      animator != scroller.handle.animator
    }

    function State(): Panel
      reads this, animator, scroller, scroller.handle, scroller.handle.animator
    {
      Panel(translationFactor, canvasSize, contentSize, animator.Value(),
            scroller.contentBigEnough, scroller.handle.size, scroller.handle.translationGap,
              scroller.handle.animator.Value())
    }

    constructor (canvas: real, placeholder: real, content: Anim, handle: Anim)
      ensures Valid() && State() == NewPanel(canvas, content, handle) && scroller.placeholder == placeholder
      ensures fresh(animator) && fresh(scroller) && fresh(scroller.handle) && fresh(scroller.handle.animator)
    {
      animator := new ScrollAnimator(content);
      scroller := new Scroller(placeholder, handle);
      translationFactor, canvasSize, contentSize := 0.0, canvas, 0.0;
    }

    method ScrollContentChanged(content: real)
      requires Valid() && content != 0.0
      modifies `contentSize, scroller`contentBigEnough, scroller.handle
      ensures State() == Resized(old(State()), content, scroller.placeholder)
    {
      contentSize := content;
      var contentRatio := canvasSize / contentSize;
      scroller.OnContentRatioChanged(contentRatio);
    }

    method ScrollByContentSize(tick: real, animate: bool) returns (scrollPrc: real)
      requires Valid() && contentSize - canvasSize != 0.0
      modifies `translationFactor, animator
      ensures translationFactor == Clamp(old(translationFactor) + tick, 0.0, contentSize - canvasSize)
      ensures scrollPrc == translationFactor / (contentSize - canvasSize)
      ensures animator.Value() == if animate then Animated(old(animator.Value()), translationFactor)
                                  else Placed(translationFactor)
    {
      translationFactor := translationFactor + tick;
      var maxTranslate := contentSize - canvasSize;
      if translationFactor < 0.0 {
        translationFactor := 0.0;
      } else if translationFactor > maxTranslate {
        translationFactor := maxTranslate;
      }
      if animate {
        animator.AnimateScrollByTr(translationFactor);
      } else {
        animator.SetAnimationKeyframe(translationFactor);
        animator.OnAnimationProgress();
      }
      scrollPrc := translationFactor / maxTranslate;
    }

    /** `_scrollByOffset` and the handle's part of it */
    method HandleScrollEvent(offset: real)
      requires Valid() && contentSize - canvasSize != 0.0
      modifies `translationFactor, animator, scroller.handle.animator
      ensures State() == Wheel(old(State()), offset)
    {
      var step := offset * SCROLL_TICK;
      var prc := ScrollByContentSize(-step, true);
      scroller.handle.AnimateByPercentage(prc);
    }

    /** `_scrollByPercentTick` and the handle's part of it */
    method ScrollFromHandle(prcHandleTick: real)
      requires Valid() && contentSize - canvasSize != 0.0
      modifies `translationFactor, animator, scroller.handle.animator
      ensures State() == Scrolled(old(State()), MaxTranslate(old(State())) * prcHandleTick, false)
    {
      var step := (contentSize - canvasSize) * prcHandleTick;
      var prc := ScrollByContentSize(step, false);
      scroller.handle.InplaceByPercentage(prc);
    }

    /** `ScrollerHandle::handleLockMoveEvent` */
    method HandleLockMoveEvent(move: int, pixelSize: real)
      requires Valid() && (move != 0 ==> contentSize - canvasSize != 0.0 && scroller.handle.translationGap != 0.0)
      modifies `translationFactor, animator, scroller.handle.animator
      ensures State() == Drag(old(State()), move, pixelSize)
    {
      if move == 0 {
        return;
      }
      var tickSize := move as real * pixelSize * 2.0;
      ScrollFromHandle(tickSize / scroller.handle.translationGap);
    }
  }
}
