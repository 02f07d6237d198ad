/** Moving the camera with the arrow keys: `KeyboardMovements.hpp` and `KeyboardMoveHelper.hpp`. */
module Keyboards {
  import opened Easings
  import opened Vectors
  import opened WorldMatrices

  const MAX_SPEED_PER_SEC := 1.5
  const MAX_SPEED_REACHED_IN_MS := 0.4

  datatype Key = Left | Right | Up | Down | Unrelated
  {
    predicate IsHorizontalAxis() { Left? || Right? }
    predicate IsVerticalAxis() { Up? || Down? }
  }

  /** The booleans of `KeyboardMovements`; the latest bits are true for right and up. */
  datatype Flags = Flags(left: bool, right: bool, up: bool, down: bool, latestV: bool, latestH: bool)
  {
    predicate HorizontalPressed() { left || right }
    predicate VerticalPressed() { up || down }
  }

  /** `AxisMomentum` */
  datatype Momentum = Momentum(speed: real, timePassed: real, current: Vector2, momentum: Vector2)

  const NO_KEYS := Flags(false, false, false, false, false, false)
  const STILL := Momentum(0.0, 0.0, ZERO, ZERO)

  function XAxis(v: real): Vector2 { Vector2(v, 0.0) }
  function YAxis(v: real): Vector2 { Vector2(0.0, v) }

  // ---------------------------------------------------------------- keys

  /** `ackMovement` */
  function Acked(f: Flags, key: Key, isPress: bool): Flags {
    match key
    case Left => f.(left := isPress, latestH := !isPress)
    case Right => f.(right := isPress, latestH := isPress)
    case Up => f.(up := isPress, latestV := isPress)
    case Down => f.(down := isPress, latestV := !isPress)
    case Unrelated => f
  }

  /** `goBy` when a key of the axis is down, else `defineMomentum` */
  function Redirected(m: Momentum, pressed: bool, direction: Vector2): Momentum {
    if pressed then m.(current := direction) else m.(momentum := m.current, current := ZERO)
  }

  function Towards(indirection: bool): real {
    if indirection then -1.0 else 1.0
  }

  // ---------------------------------------------------------------- frames

  function Capped(t: real): real {
    if t > MAX_SPEED_REACHED_IN_MS then MAX_SPEED_REACHED_IN_MS else t
  }

  function Remaining(t: real, fd: real): real {
    if t - fd < 0.0 then 0.0 else t - fd
  }

  function SpeedAt(t: real, deceleration: bool): real {
    Mix(0.0, MAX_SPEED_PER_SEC, (if deceleration then CubicIn else CubicOut)(t / MAX_SPEED_REACHED_IN_MS))
  }

  /** The momentum after a frame of `_considerAxis`. */
  function Considered(m: Momentum, fd: real): Momentum {
    if m.current != ZERO then
      var t := if m.timePassed < MAX_SPEED_REACHED_IN_MS then Capped(m.timePassed + fd) else m.timePassed;
      m.(timePassed := t, speed := SpeedAt(t, false))
    else if m.timePassed != 0.0 then
      var t := Remaining(m.timePassed, fd);
      m.(timePassed := t, speed := SpeedAt(t, true))
    else m
  }

  /** The way a frame of `_considerAxis` moves the world. */
  function Displacement(m: Momentum, fd: real): Vector2 {
    var speed := Considered(m, fd).speed;
    if m.current != ZERO then m.current.Times(Both(speed * fd))
    else if m.timePassed != 0.0 then m.momentum.Times(Both(speed * fd))
    else ZERO
  }

  // ---------------------------------------------------------------- runs

  datatype Helper = Helper(keys: Flags, x: Momentum, y: Momentum)

  const AT_REST := Helper(NO_KEYS, STILL, STILL)

  datatype Event =
    | KeyPress(key: Key, repeated: bool)
    | KeyRelease(key: Key, repeated: bool)
    | Stop
    | Frame(duration: real)

  function KeyEvent(h: Helper, key: Key, isPress: bool): Helper {
    var keys := Acked(h.keys, key, isPress);
    if key.IsHorizontalAxis() then
      h.(keys := keys, x := Redirected(h.x, keys.HorizontalPressed(), XAxis(Towards(keys.latestH))))
    else if key.IsVerticalAxis() then
      h.(keys := keys, y := Redirected(h.y, keys.VerticalPressed(), YAxis(Towards(keys.latestV))))
    else h
  }

  function Step(h: Helper, e: Event): Helper {
    match e
    case KeyPress(key, repeated) => if repeated then h else KeyEvent(h, key, true)
    case KeyRelease(key, repeated) => if repeated then h else KeyEvent(h, key, false)
    case Stop => AT_REST
    case Frame(fd) => h.(x := Considered(h.x, fd), y := Considered(h.y, fd))
  }

  function Final(h: Helper, run: seq<Event>): Helper {
    if run == [] then h else Step(Final(h, run[..|run| - 1]), run[|run| - 1])
  }

  // ---------------------------------------------------------------- directions

  function Without(held: seq<Key>, key: Key): (r: seq<Key>)
    ensures forall k :: k in r <==> k in held && k != key
  {
    if held == [] then []
    else
      var front := Without(held[..|held| - 1], key);
      if held[|held| - 1] == key then front else front + [held[|held| - 1]]
  }

  /** The keys held since the last reset, in the order they were pressed. */
  function Held(run: seq<Event>): seq<Key> {
    if run == [] then []
    else
      var before := Held(run[..|run| - 1]);
      match run[|run| - 1]
      case KeyPress(key, repeated) => if repeated then before else Without(before, key) + [key]
      case KeyRelease(key, repeated) => if repeated then before else Without(before, key)
      case Stop => []
      case Frame(_) => before
  }

  predicate IsUnit(v: real) {
    v == 1.0 || v == -1.0 || v == 0.0
  }

  /** The direction on an axis of the key pressed last among those that are down, 0 if there is none. */
  function Latest(held: seq<Key>, forth: Key, back: Key): (r: real)
    ensures IsUnit(r)
  {
    if held == [] then 0.0
    else if held[|held| - 1] == forth then 1.0
    else if held[|held| - 1] == back then -1.0
    else Latest(held[..|held| - 1], forth, back)
  }

  /** A boolean per key and one bit per axis stand for the ordered list. */
  predicate Refines(h: Helper, held: seq<Key>) {
    && h.keys.left == (Left in held) && h.keys.right == (Right in held)
    && h.keys.up == (Up in held) && h.keys.down == (Down in held)
    && h.x.current == XAxis(Latest(held, Left, Right))
    && h.y.current == YAxis(Latest(held, Down, Up))
    && (h.keys.HorizontalPressed() ==> h.x.current == XAxis(Towards(h.keys.latestH)))
    && (h.keys.VerticalPressed() ==> h.y.current == YAxis(Towards(h.keys.latestV)))
    && IsUnit(h.x.momentum.x) && h.x.momentum == XAxis(h.x.momentum.x)
    && IsUnit(h.y.momentum.y) && h.y.momentum == YAxis(h.y.momentum.y)
  }

  lemma {:induction false} LatestOfOne(held: seq<Key>, forth: Key, back: Key)
    requires forth != back
    ensures forth !in held && back !in held ==> Latest(held, forth, back) == 0.0
    ensures forth in held && back !in held ==> Latest(held, forth, back) == 1.0
    ensures forth !in held && back in held ==> Latest(held, forth, back) == -1.0
    ensures forth in held || back in held ==> Latest(held, forth, back) != 0.0
  {
    if held != [] {
      var front := held[..|held| - 1];
      assert held == front + [held[|held| - 1]];
      LatestOfOne(front, forth, back);
    }
  }

  lemma {:induction false} LatestWithoutOther(held: seq<Key>, key: Key, forth: Key, back: Key)
    requires key != forth && key != back
    ensures Latest(Without(held, key), forth, back) == Latest(held, forth, back)
  {
    if held != [] {
      var front := held[..|held| - 1];
      LatestWithoutOther(front, key, forth, back);
      if held[|held| - 1] != key {
        assert (Without(front, key) + [held[|held| - 1]])[..|Without(front, key)|] == Without(front, key);
      }
    }
  }

  lemma LatestAppend(held: seq<Key>, key: Key, forth: Key, back: Key)
    ensures Latest(held + [key], forth, back)
         == if key == forth then 1.0 else if key == back then -1.0 else Latest(held, forth, back)
  {
    assert (held + [key])[..|held|] == held;
  }

  lemma PressRefines(h: Helper, held: seq<Key>, key: Key)
    requires Refines(h, held)
    ensures Refines(KeyEvent(h, key, true), Without(held, key) + [key])
  {
    hide Latest, Without;
    var rest := Without(held, key);
    LatestAppend(rest, key, Left, Right);
    LatestAppend(rest, key, Down, Up);
    if !key.IsHorizontalAxis() {
      LatestWithoutOther(held, key, Left, Right);
    }
    if !key.IsVerticalAxis() {
      LatestWithoutOther(held, key, Down, Up);
    }
  }

  lemma ReleaseRefines(h: Helper, held: seq<Key>, key: Key)
    requires Refines(h, held)
    ensures Refines(KeyEvent(h, key, false), Without(held, key))
  {
    hide Latest, Without;
    var rest := Without(held, key);
    LatestOfOne(rest, Left, Right);
    LatestOfOne(rest, Down, Up);
    if !key.IsHorizontalAxis() {
      LatestWithoutOther(held, key, Left, Right);
    }
    if !key.IsVerticalAxis() {
      LatestWithoutOther(held, key, Down, Up);
    }
  }

  lemma {:induction false} RunRefines(run: seq<Event>)
    ensures Refines(Final(AT_REST, run), Held(run))
  {
    hide KeyEvent, Latest, Without, Considered;
    if run != [] {
      var front := run[..|run| - 1];
      RunRefines(front);
      var h, held := Final(AT_REST, front), Held(front);
      match run[|run| - 1] {
        case KeyPress(key, repeated) => PressRefines(h, held, key);
        case KeyRelease(key, repeated) => ReleaseRefines(h, held, key);
        case Stop => NothingHeld();
        case Frame(fd) => ConsideredKeepsDirection(h.x, fd); ConsideredKeepsDirection(h.y, fd);
      }
    } else {
      NothingHeld();
    }
  }

  lemma NothingHeld()
    ensures Refines(AT_REST, [])
  {
  }

  lemma ConsideredKeepsDirection(m: Momentum, fd: real)
    ensures Considered(m, fd).current == m.current && Considered(m, fd).momentum == m.momentum
  {
  }

  /** After any presses, releases, resets and frames, each axis goes where the latest key still held on it points, and
      nowhere when none is held. */
  lemma DirectionIsLatestHeldKey(run: seq<Event>)
    ensures Final(AT_REST, run).x.current == XAxis(Latest(Held(run), Left, Right))
    ensures Final(AT_REST, run).y.current == YAxis(Latest(Held(run), Down, Up))
    ensures Final(AT_REST, run).x.current == ZERO <==> Left !in Held(run) && Right !in Held(run)
    ensures Final(AT_REST, run).y.current == ZERO <==> Up !in Held(run) && Down !in Held(run)
  {
    RunRefines(run);
    LatestOfOne(Held(run), Left, Right);
    LatestOfOne(Held(run), Down, Up);
  }

  // ---------------------------------------------------------------- speed

  predicate Bounded(m: Momentum) {
    0.0 <= m.timePassed <= MAX_SPEED_REACHED_IN_MS && 0.0 <= m.speed <= MAX_SPEED_PER_SEC
  }

  predicate MayHappen(e: Event) {
    e.Frame? ==> e.duration >= 0.0
  }

  lemma ConsideredBounded(m: Momentum, fd: real)
    requires Bounded(m) && fd >= 0.0
    ensures Bounded(Considered(m, fd))
  {
    hide CubicIn, CubicOut;
    var t := Considered(m, fd).timePassed;
    assert 0.0 <= t / MAX_SPEED_REACHED_IN_MS <= 1.0;
    CubicOutInUnit(t / MAX_SPEED_REACHED_IN_MS);
    CubicInInUnit(t / MAX_SPEED_REACHED_IN_MS);
  }

  lemma {:induction false} SpeedStaysBounded(run: seq<Event>)
    requires forall i :: 0 <= i < |run| ==> MayHappen(run[i])
    ensures Bounded(Final(AT_REST, run).x) && Bounded(Final(AT_REST, run).y)
  {
    hide Considered;
    if run != [] {
      var front, last := run[..|run| - 1], run[|run| - 1];
      SpeedStaysBounded(front);
      assert MayHappen(last);
      if last.Frame? {
        ConsideredBounded(Final(AT_REST, front).x, last.duration);
        ConsideredBounded(Final(AT_REST, front).y, last.duration);
      }
    }
  }

  // ---------------------------------------------------------------- coasting

  function Coasted(m: Momentum, fds: seq<real>): Momentum
    decreases |fds|
  {
    if fds == [] then m else Coasted(Considered(m, fds[0]), fds[1..])
  }

  /** How far a frame goes. */
  function Covered(m: Momentum, fd: real): real {
    if m.current == ZERO && m.timePassed == 0.0 then 0.0 else Considered(m, fd).speed * fd
  }

  function Distance(m: Momentum, fds: seq<real>): real
    decreases |fds|
  {
    if fds == [] then 0.0 else Covered(m, fds[0]) + Distance(Considered(m, fds[0]), fds[1..])
  }

  function Total(fds: seq<real>): real {
    if fds == [] then 0.0 else fds[0] + Total(fds[1..])
  }

  function WholeDisplacement(m: Momentum, fds: seq<real>): Vector2
    decreases |fds|
  {
    if fds == [] then ZERO else Displacement(m, fds[0]).Plus(WholeDisplacement(Considered(m, fds[0]), fds[1..]))
  }

  function Fourth(t: real): real {
    t * t * t * t
  }

  /** A released axis is at rest exactly when the frames since have used up the time it had been accelerating. */
  lemma {:induction false} CoastingEnds(m: Momentum, fds: seq<real>)
    requires Bounded(m) && m.current == ZERO && forall i :: 0 <= i < |fds| ==> fds[i] >= 0.0
    ensures Coasted(m, fds).timePassed == Remaining(m.timePassed, Total(fds))
    ensures Coasted(m, fds).timePassed == 0.0 <==> Total(fds) >= m.timePassed
    ensures Total(fds) >= 0.0 && Coasted(m, fds).current == ZERO && Coasted(m, fds).momentum == m.momentum
    decreases |fds|
  {
    hide SpeedAt;
    if fds != [] {
      ConsideredBounded(m, fds[0]);
      CoastingEnds(Considered(m, fds[0]), fds[1..]);
    }
  }

  lemma FourthDifference(a: real, b: real)
    ensures Fourth(a) - Fourth(b) == (a * a * a + a * a * b + a * (b * b) + b * b * b) * (a - b)
  {
  }

  lemma CubeSum(a: real, b: real)
    requires 0.0 <= b <= a
    ensures 4.0 * (b * b * b) <= a * a * a + a * a * b + a * (b * b) + b * b * b
  {
  }

  /** The slope of the fourth power, from below. */
  lemma CubeStep(a: real, b: real)
    requires 0.0 <= b <= a
    ensures 4.0 * (b * b * b) * (a - b) <= Fourth(a) - Fourth(b)
  {
    hide Fourth;
    CubeSum(a, b);
    ProductMonotone(4.0 * (b * b * b), a * a * a + a * a * b + a * (b * b) + b * b * b, a - b);
    FourthDifference(a, b);
  }

  /** Distance per fourth power of time, were the frames infinitely short. */
  const COASTING := MAX_SPEED_PER_SEC / (4.0 * 0.4 * 0.4 * 0.4)

  lemma SlowedSpeed(t: real)
    ensures SpeedAt(t, true) == COASTING * (4.0 * (t * t * t))
  {
  }

  lemma FrameCovers(m: Momentum, fd: real)
    requires Bounded(m) && m.current == ZERO && fd >= 0.0
    ensures 0.0 <= Covered(m, fd) <= COASTING * (Fourth(m.timePassed) - Fourth(Considered(m, fd).timePassed))
  {
    hide SpeedAt, Fourth;
    ConsideredBounded(m, fd);
    var a, b := m.timePassed, Considered(m, fd).timePassed;
    CubeStep(a, b);
    SlowedSpeed(b);
    ProductNonNegative(Considered(m, fd).speed, fd);
    if a != 0.0 && b != 0.0 {
      assert fd == a - b;
      assert Covered(m, fd) == COASTING * (4.0 * (b * b * b) * (a - b));
    }
  }

  /** Summed over all frames the distance stays below the area under the speed curve, which is 0.15 at most. */
  lemma {:induction false} CoastingIsBounded(m: Momentum, fds: seq<real>)
    requires Bounded(m) && m.current == ZERO && forall i :: 0 <= i < |fds| ==> fds[i] >= 0.0
    ensures 0.0 <= Distance(m, fds) <= COASTING * (Fourth(m.timePassed) - Fourth(Coasted(m, fds).timePassed))
    ensures Distance(m, fds) <= MAX_SPEED_PER_SEC * MAX_SPEED_REACHED_IN_MS / 4.0
    decreases |fds|
  {
    hide Considered, Covered, Fourth;
    if fds != [] {
      ConsideredBounded(m, fds[0]);
      ConsideredKeepsDirection(m, fds[0]);
      FrameCovers(m, fds[0]);
      CoastingIsBounded(Considered(m, fds[0]), fds[1..]);
      CoastingAddsUp(Fourth(m.timePassed), Fourth(Considered(m, fds[0]).timePassed),
        Fourth(Coasted(m, fds).timePassed));
    }
    CoastingEnds(m, fds);
    CoastingCapped(m.timePassed, Coasted(m, fds).timePassed);
  }

  lemma CoastingAddsUp(a: real, b: real, c: real)
    ensures COASTING * (a - b) + COASTING * (b - c) == COASTING * (a - c)
  {
  }

  lemma CoastingLimit()
    ensures COASTING > 0.0 && COASTING * 0.0256 == MAX_SPEED_PER_SEC * MAX_SPEED_REACHED_IN_MS / 4.0
  {
  }

  lemma CoastingCapped(a: real, b: real)
    requires 0.0 <= a <= MAX_SPEED_REACHED_IN_MS && 0.0 <= b <= MAX_SPEED_REACHED_IN_MS
    ensures COASTING * (Fourth(a) - Fourth(b)) <= MAX_SPEED_PER_SEC * MAX_SPEED_REACHED_IN_MS / 4.0
  {
    hide Fourth;
    FourthInRange(a);
    FourthInRange(b);
    CoastingLimit();
    ProductMonotone(Fourth(a) - Fourth(b), 0.0256, COASTING);
  }

  lemma SquareAtMost(s: real, bound: real)
    requires 0.0 <= s <= bound
    ensures 0.0 <= s * s <= bound * bound
  {
    ProductNonNegative(s, s);
    ProductMonotone(s, bound, s);
    ProductMonotone(s, bound, bound);
  }

  lemma FourthInRange(t: real)
    requires 0.0 <= t <= MAX_SPEED_REACHED_IN_MS
    ensures 0.0 <= Fourth(t) <= 0.0256
  {
    SquareAtMost(t, 0.4);
    SquareAtMost(t * t, 0.16);
    assert Fourth(t) == (t * t) * (t * t);
  }

  /** A frame goes along the direction held, or else along the momentum. */
  lemma FrameGoesAlong(m: Momentum, fd: real)
    ensures Displacement(m, fd) == (if m.current != ZERO then m.current else m.momentum).Scaled(Covered(m, fd))
  {
    hide Considered;
  }

  lemma {:induction false} CoastingGoesAlongMomentum(m: Momentum, fds: seq<real>)
    requires m.current == ZERO
    ensures WholeDisplacement(m, fds) == m.momentum.Scaled(Distance(m, fds))
    decreases |fds|
  {
    hide Considered, Displacement, Covered;
    if fds != [] {
      FrameGoesAlong(m, fds[0]);
      ConsideredKeepsDirection(m, fds[0]);
      CoastingGoesAlongMomentum(Considered(m, fds[0]), fds[1..]);
      ScaledSum(m.momentum, Covered(m, fds[0]), Distance(Considered(m, fds[0]), fds[1..]));
    }
  }

  lemma ScaledSum(v: Vector2, a: real, b: real)
    ensures v.Scaled(a + b) == v.Scaled(a).Plus(v.Scaled(b))
    ensures v.Times(Both(a)) == v.Scaled(a)
  {
  }

  lemma UnitTimes(u: real, d: real)
    requires IsUnit(u) && d >= 0.0
    ensures -d <= u * d <= d
  {
  }

  predicate AlongAxis(v: Vector2) {
    (v.y == 0.0 && IsUnit(v.x)) || (v.x == 0.0 && IsUnit(v.y))
  }

  lemma CoastingMovesLittle(m: Momentum, fds: seq<real>)
    requires Bounded(m) && m.current == ZERO && AlongAxis(m.momentum) && forall i :: 0 <= i < |fds| ==> fds[i] >= 0.0
    ensures var w := WholeDisplacement(m, fds); -0.15 <= w.x <= 0.15 && -0.15 <= w.y <= 0.15
  {
    hide Distance, WholeDisplacement, Bounded;
    CoastingIsBounded(m, fds);
    CoastingGoesAlongMomentum(m, fds);
    UnitTimes(m.momentum.x, Distance(m, fds));
    UnitTimes(m.momentum.y, Distance(m, fds));
  }

  lemma RunsGoAlongAxes(run: seq<Event>)
    ensures AlongAxis(Final(AT_REST, run).x.momentum) && AlongAxis(Final(AT_REST, run).y.momentum)
  {
    hide Final, Latest;
    RunRefines(run);
  }

  /** However an axis came to be released, it moves the world by at most 0.15 from then on. */
  lemma ReleasedAxisMovesLittle(run: seq<Event>, fds: seq<real>)
    requires forall i :: 0 <= i < |run| ==> MayHappen(run[i])
    requires forall i :: 0 <= i < |fds| ==> fds[i] >= 0.0
    ensures var w := WholeDisplacement(Final(AT_REST, run).x, fds);
      Left !in Held(run) && Right !in Held(run) ==> -0.15 <= w.x <= 0.15 && -0.15 <= w.y <= 0.15
    ensures var w := WholeDisplacement(Final(AT_REST, run).y, fds);
      Up !in Held(run) && Down !in Held(run) ==> -0.15 <= w.x <= 0.15 && -0.15 <= w.y <= 0.15
  {
    hide WholeDisplacement, Final, Held, Latest, AlongAxis, Bounded;
    DirectionIsLatestHeldKey(run);
    RunsGoAlongAxes(run);
    SpeedStaysBounded(run);
    if Final(AT_REST, run).x.current == ZERO {
      CoastingMovesLittle(Final(AT_REST, run).x, fds);
    }
    if Final(AT_REST, run).y.current == ZERO {
      CoastingMovesLittle(Final(AT_REST, run).y, fds);
    }
  }

  // ---------------------------------------------------------------- the objects

  class AxisMomentum {
    var speed: real
    var timePassed: real
    var currentDirection: Vector2
    var momentumDirection: Vector2

    function Value(): Momentum
      reads this
    {
      Momentum(speed, timePassed, currentDirection, momentumDirection)
    }

    constructor ()
      ensures Value() == STILL
    {
      speed, timePassed, currentDirection, momentumDirection := 0.0, 0.0, ZERO, ZERO;
    }

    method GoBy(axis: real -> Vector2, indirection: bool)
      modifies this
      ensures Value() == Redirected(old(Value()), true, axis(Towards(indirection)))
    {
      var val := if indirection then -1.0 else 1.0;
      currentDirection := axis(val);
    }

    method DefineMomentum()
      modifies this
      ensures Value() == old(Value()).(momentum := old(currentDirection), current := ZERO)
    {
      momentumDirection := currentDirection;
      currentDirection := ZERO;
    }
  }

  class KeyboardMovements {
    var movingLeft: bool
    var movingRight: bool
    var movingUp: bool
    var movingDown: bool
    var latestV: bool
    var latestH: bool

    function Value(): Flags
      reads this
    {
      Flags(movingLeft, movingRight, movingUp, movingDown, latestV, latestH)
    }

    constructor ()
      ensures Value() == NO_KEYS
    {
      movingLeft, movingRight, movingUp, movingDown := false, false, false, false;
      latestV, latestH := false, false;
    }

    method AckMovement(key: Key, isPress: bool) returns (isMovement: bool)
      modifies this
      ensures isMovement <==> key != Unrelated
      ensures Value() == Acked(old(Value()), key, isPress)
    {
      isMovement := true;
      match key {
        case Left => movingLeft, latestH := isPress, if isPress then false else true;
        case Right => movingRight, latestH := isPress, if isPress then true else false;
        case Up => movingUp, latestV := isPress, if isPress then true else false;
        case Down => movingDown, latestV := isPress, if isPress then false else true;
        case Unrelated => isMovement := false;
      }
    }

    method UpdateMomentum(x: AxisMomentum, y: AxisMomentum, key: Key)
      requires x != y
      modifies x, y
      ensures x.Value() == if key.IsHorizontalAxis()
                           then Redirected(old(x.Value()), Value().HorizontalPressed(), XAxis(Towards(latestH)))
                           else old(x.Value())
      ensures y.Value() == if key.IsVerticalAxis()
                           then Redirected(old(y.Value()), Value().VerticalPressed(), YAxis(Towards(latestV)))
                           else old(y.Value())
    {
      if key.IsHorizontalAxis() {
        if movingLeft || movingRight {
          x.GoBy(XAxis, latestH);
        } else {
          x.DefineMomentum();
        }
      } else if key.IsVerticalAxis() {
        if movingUp || movingDown {
          y.GoBy(YAxis, latestV);
        } else {
          y.DefineMomentum();
        }
      }
    }
  }

  class KeyboardMoveHelper {
    const animatedMatrix: WorldMatrix
    var km: KeyboardMovements
    var x: AxisMomentum
    var y: AxisMomentum

    ghost predicate Valid()
      reads this
    {
      x != y
    }

    function State(): Helper
      reads this, km, x, y
    {
      Helper(km.Value(), x.Value(), y.Value())
    }

    constructor (animatedMatrix: WorldMatrix)
      ensures Valid() && State() == AT_REST && this.animatedMatrix == animatedMatrix
      ensures fresh(km) && fresh(x) && fresh(y)
    {
      this.animatedMatrix := animatedMatrix;
      km := new KeyboardMovements();
      x := new AxisMomentum();
      y := new AxisMomentum();
    }

    method StopAnim()
      modifies this
      ensures Valid() && State() == AT_REST
      ensures fresh(km) && fresh(x) && fresh(y)
    {
      km := new KeyboardMovements();
      x := new AxisMomentum();
      y := new AxisMomentum();
    }

    /** `_keyEvent` */
    method HandleKey(key: Key, repeated: bool, isPress: bool)
      requires Valid()
      modifies km, x, y
      ensures Valid()
      ensures State() == Step(old(State()), if isPress then KeyPress(key, repeated) else KeyRelease(key, repeated))
    {
      if repeated {
        return;
      }
      var isMovement := km.AckMovement(key, isPress);
      if isMovement {
        km.UpdateMomentum(x, y, key);
      }
    }

    /** `_updateSpeed` */
    method UpdateSpeed(axis: AxisMomentum, deceleration: bool)
      modifies axis`speed
      ensures axis.speed == SpeedAt(axis.timePassed, deceleration)
    {
      var f := if deceleration then CubicIn else CubicOut;
      axis.speed := Mix(0.0, MAX_SPEED_PER_SEC, f(axis.timePassed / MAX_SPEED_REACHED_IN_MS));
    }

    /** `_updateMatrix` */
    method UpdateMatrix(axis: AxisMomentum, fd: real, deceleration: bool)
      modifies animatedMatrix
      ensures animatedMatrix.value == old(animatedMatrix.value).TranslatedBy(
                (if deceleration then axis.momentumDirection else axis.currentDirection).Times(Both(axis.speed * fd)))
    {
      var v := if deceleration then axis.momentumDirection else axis.currentDirection;
      animatedMatrix.value := animatedMatrix.value.TranslatedBy(v.Times(Both(axis.speed * fd)));
    }

    /** `_considerAxis` */
    method ConsiderAxis(axis: AxisMomentum, fd: real)
      modifies axis, animatedMatrix
      ensures axis.Value() == Considered(old(axis.Value()), fd)
      ensures animatedMatrix.value == old(animatedMatrix.value).TranslatedBy(Displacement(old(axis.Value()), fd))
    {
      hide SpeedAt;
      ghost var m := axis.Value();
      if axis.currentDirection != ZERO {
        if axis.timePassed < MAX_SPEED_REACHED_IN_MS {
          axis.timePassed := axis.timePassed + fd;
          if axis.timePassed > MAX_SPEED_REACHED_IN_MS {
            axis.timePassed := MAX_SPEED_REACHED_IN_MS;
          }
        }
        UpdateSpeed(axis, false);
        assert axis.Value() == Considered(m, fd);
        UpdateMatrix(axis, fd, false);
      } else if axis.timePassed != 0.0 {
        axis.timePassed := axis.timePassed - fd;
        if axis.timePassed < 0.0 {
          axis.timePassed := 0.0;
        }
        UpdateSpeed(axis, true);
        assert axis.Value() == Considered(m, fd);
        UpdateMatrix(axis, fd, true);
      }
    }

    method Advance(fd: real)
      requires Valid()
      modifies x, y, animatedMatrix
      ensures State() == Step(old(State()), Frame(fd))
      ensures animatedMatrix.value == old(animatedMatrix.value).TranslatedBy(
                                        Displacement(old(x.Value()), fd)).TranslatedBy(Displacement(old(y.Value()), fd))
    {
      hide Considered, Displacement;
      ConsiderAxis(x, fd);
      ConsiderAxis(y, fd);
    }
  }
}
